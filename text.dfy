/** String operations of the JavaScript runtime that the chat pipeline relies on:
    `indexOf`, `startsWith`, `split('\n')`, `join('\n')`, `trimStart`, the two
    newline-normalising `replace` calls, `parseInt` on a digit run and the decimal
    rendering of a number inside a template string. Strings are sequences of
    Unicode scalar values; `Utf16Length` gives the `length` JavaScript reports
    for them, which counts UTF-16 code units. */
module Text {

  /** `pat` occurs in `s` starting at index `i`. */
  predicate OccursAt(s: string, pat: string, i: int) {
    0 <= i && i + |pat| <= |s| && s[i..i + |pat|] == pat
  }

  predicate Contains(s: string, pat: string) {
    exists i | 0 <= i <= |s| :: OccursAt(s, pat, i)
  }

  predicate StartsWith(s: string, prefix: string) {
    |prefix| <= |s| && s[..|prefix|] == prefix
  }

  /** `s.indexOf(pat, from)`: the least index at or after `from` where `pat` occurs, or -1. */
  function IndexFrom(s: string, pat: string, from: nat): (r: int)
    requires from <= |s|
    ensures r == -1 || (from <= r && OccursAt(s, pat, r))
    ensures forall j :: from <= j && (r == -1 || j < r) ==> !OccursAt(s, pat, j)
    decreases |s| - from
  {
    if from + |pat| > |s| then -1
    else if s[from..from + |pat|] == pat then from
    else IndexFrom(s, pat, from + 1)
  }

  /** `s.indexOf(pat)`. */
  function IndexOf(s: string, pat: string): (r: int)
    ensures r == -1 || OccursAt(s, pat, r)
    ensures forall j :: 0 <= j && (r == -1 || j < r) ==> !OccursAt(s, pat, j)
  {
    IndexFrom(s, pat, 0)
  }

  /** `indexOf` finds nothing exactly when the pattern does not occur. */
  lemma IndexOfMissing(s: string, pat: string)
    ensures IndexOf(s, pat) == -1 <==> !Contains(s, pat)
  {
  }

  /** The earliest occurrence is the one `indexOf` reports. */
  lemma IndexOfAt(s: string, pat: string, i: int)
    requires OccursAt(s, pat, i)
    requires forall j :: 0 <= j < i ==> !OccursAt(s, pat, j)
    ensures IndexOf(s, pat) == i
  {
  }

  /** `lines.join('\n')`. */
  function JoinLines(lines: seq<string>): string {
    if |lines| == 0 then []
    else if |lines| == 1 then lines[0]
    else lines[0] + "\n" + JoinLines(lines[1..])
  }

  /** `s.split('\n')`: never empty, no piece holds a line feed, and joining the
      pieces again gives back `s`. */
  function SplitLines(s: string): (lines: seq<string>)
    ensures |lines| >= 1
    ensures forall l <- lines :: '\n' !in l
    ensures JoinLines(lines) == s
  {
    if s == [] then [[]]
    else
      var rest := SplitLines(s[1..]);
      if s[0] == '\n' then
        assert ([[]] + rest)[1..] == rest;
        [[]] + rest
      else
        var lines := [[s[0]] + rest[0]] + rest[1..];
        assert |rest| > 1 ==> lines[1..] == rest[1..];
        assert s == [s[0]] + s[1..];
        lines
  }

  /** The characters `String.prototype.trimStart` removes: ECMAScript white space
      and line terminators. */
  predicate IsJsWhitespace(c: char) {
    || c == '\t' || c == '\n' || c == '\U{000B}' || c == '\U{000C}' || c == '\r'
    || c == ' ' || c == '\U{00A0}' || c == '\U{1680}'
    || ('\U{2000}' <= c <= '\U{200A}')
    || c == '\U{2028}' || c == '\U{2029}' || c == '\U{202F}' || c == '\U{205F}'
    || c == '\U{3000}' || c == '\U{FEFF}'
  }

  /** `s.trimStart()`: the longest suffix of `s` that does not begin with white space. */
  function TrimStart(s: string): (r: string)
    ensures |r| <= |s| && r == s[|s| - |r|..]
    ensures r == [] || !IsJsWhitespace(r[0])
    ensures forall i :: 0 <= i < |s| - |r| ==> IsJsWhitespace(s[i])
  {
    if s != [] && IsJsWhitespace(s[0]) then TrimStart(s[1..]) else s
  }

  /** `s.replace(/\r\n/g, '\n')`: a left-to-right scan that rewrites each CR LF pair. */
  function ReplaceCrLf(s: string): string {
    if |s| >= 2 && s[0] == '\r' && s[1] == '\n' then "\n" + ReplaceCrLf(s[2..])
    else if s == [] then []
    else [s[0]] + ReplaceCrLf(s[1..])
  }

  /** `s.replace(/\r/g, '\n')`: every remaining carriage return becomes a line feed. */
  function ReplaceCr(s: string): (r: string)
    ensures |r| == |s| && '\r' !in r
    ensures forall i :: 0 <= i < |s| && s[i] != '\r' ==> r[i] == s[i]
  {
    seq(|s|, i requires 0 <= i < |s| => if s[i] == '\r' then '\n' else s[i])
  }

  lemma ReplaceCrClean(s: string)
    requires '\r' !in s
    ensures ReplaceCr(s) == s
  {
  }

  /** The normalisation both stream readers apply to their buffer: CR LF and then
      lone CR become LF. No carriage return survives it, and text without one is
      left as it is. */
  function NormalizeNewlines(s: string): (r: string)
    ensures '\r' !in r
    ensures '\r' !in s ==> r == s
  {
    ReplaceCrLfClean(s);
    ReplaceCr(ReplaceCrLf(s))
  }

  /** The CR LF scan leaves text without a carriage return untouched. */
  lemma ReplaceCrLfClean(s: string)
    ensures '\r' !in s ==> ReplaceCrLf(s) == s
  {
    if '\r' !in s {
      ReplaceCrLfAfterClean(s, []);
      assert s + [] == s;
    }
  }

  lemma {:induction false} ReplaceCrLfAfterClean(a: string, b: string)
    requires '\r' !in a
    ensures ReplaceCrLf(a + b) == a + ReplaceCrLf(b)
    decreases |a|
  {
    if a != [] {
      assert a[0] in a;
      assert (a + b)[0] == a[0] && (a + b)[1..] == a[1..] + b;
      assert ReplaceCrLf(a + b) == [a[0]] + ReplaceCrLf(a[1..] + b);
      ReplaceCrLfAfterClean(a[1..], b);
      assert a == [a[0]] + a[1..];
    } else {
      assert a + b == b;
    }
  }

  lemma ReplaceCrAppend(a: string, b: string)
    ensures ReplaceCr(a + b) == ReplaceCr(a) + ReplaceCr(b)
  {
    var l, r := ReplaceCr(a + b), ReplaceCr(a) + ReplaceCr(b);
    assert |l| == |r|;
    forall i | 0 <= i < |l| ensures l[i] == r[i] {
      if i < |a| { assert (a + b)[i] == a[i]; } else { assert (a + b)[i] == b[i - |a|]; }
    }
  }

  /** Normalising a buffer that is already free of carriage returns, extended by a
      chunk, normalises only the chunk. */
  lemma NormalizeAfterClean(a: string, b: string)
    requires '\r' !in a
    ensures NormalizeNewlines(a + b) == a + NormalizeNewlines(b)
  {
    ReplaceCrLfAfterClean(a, b);
    ReplaceCrAppend(a, ReplaceCrLf(b));
  }

  /** A cut that does not fall between a CR and the LF after it. */
  predicate CleanCut(a: string, b: string) {
    !(|a| > 0 && a[|a| - 1] == '\r' && |b| > 0 && b[0] == '\n')
  }

  /** Dropping a prefix of the left operand of a concatenation. */
  lemma DropAppend(a: string, b: string, k: nat)
    requires k <= |a|
    ensures (a + b)[k..] == a[k..] + b
  {
  }

  /** One step of the CR LF scan on a non-empty text. */
  lemma ReplaceCrLfStep(s: string)
    requires s != []
    ensures ReplaceCrLf(s) ==
      if |s| >= 2 && s[0] == '\r' && s[1] == '\n' then "\n" + ReplaceCrLf(s[2..])
      else [s[0]] + ReplaceCrLf(s[1..])
  {
  }

  lemma {:induction false} ReplaceCrLfAppend(a: string, b: string)
    requires CleanCut(a, b)
    ensures ReplaceCrLf(a + b) == ReplaceCrLf(a) + ReplaceCrLf(b)
    decreases |a|
  {
    if a == [] {
      assert a + b == b;
    } else {
      var ab := a + b;
      ReplaceCrLfStep(ab);
      ReplaceCrLfStep(a);
      if |a| >= 2 && a[0] == '\r' && a[1] == '\n' {
        DropAppend(a, b, 2);
        assert CleanCut(a[2..], b) by { if |a| > 2 { assert a[2..][|a| - 3] == a[|a| - 1]; } }
        ReplaceCrLfAppend(a[2..], b);
        assert ReplaceCrLf(ab) == "\n" + ReplaceCrLf(a[2..] + b);
      } else if |a| == 1 {
        assert ab[1..] == b;
        assert !(|ab| >= 2 && ab[0] == '\r' && ab[1] == '\n') by {
          if |ab| >= 2 { assert ab[1] == b[0]; }
        }
        assert ReplaceCrLf(ab) == [a[0]] + ReplaceCrLf(b);
        assert a[1..] == [];
        assert ReplaceCrLf(a) == [a[0]];
      } else {
        assert ab[0] == a[0] && ab[1] == a[1];
        DropAppend(a, b, 1);
        assert CleanCut(a[1..], b) by { assert a[1..][|a| - 2] == a[|a| - 1]; }
        ReplaceCrLfAppend(a[1..], b);
      }
    }
  }

  /** Normalisation distributes over a concatenation unless the cut splits a CR LF pair. */
  lemma NormalizeAppend(a: string, b: string)
    requires CleanCut(a, b)
    ensures NormalizeNewlines(a + b) == NormalizeNewlines(a) + NormalizeNewlines(b)
  {
    ReplaceCrLfAppend(a, b);
    ReplaceCrAppend(ReplaceCrLf(a), ReplaceCrLf(b));
  }

  /** The number of UTF-16 code units that encode `c`: two for a character
      outside the Basic Multilingual Plane (a surrogate pair), one otherwise. */
  function Utf16Units(c: char): nat {
    if c as int >= 0x1_0000 then 2 else 1
  }

  /** `s.length` in JavaScript: the number of UTF-16 code units of `s`. */
  function Utf16Length(s: string): (n: nat)
    ensures |s| <= n <= 2 * |s|
  {
    if s == [] then 0 else Utf16Length(s[..|s| - 1]) + Utf16Units(s[|s| - 1])
  }

  /** The JavaScript length of a concatenation is the sum of the lengths. */
  lemma {:induction false} Utf16LengthAppend(a: string, b: string)
    ensures Utf16Length(a + b) == Utf16Length(a) + Utf16Length(b)
    decreases |b|
  {
    if b == [] {
      assert a + b == a;
    } else {
      assert (a + b)[..|a + b| - 1] == a + b[..|b| - 1];
      Utf16LengthAppend(a, b[..|b| - 1]);
    }
  }

  /** Text inside the Basic Multilingual Plane has as many code units as characters. */
  lemma {:induction false} Utf16LengthBmp(s: string)
    requires forall i :: 0 <= i < |s| ==> s[i] as int < 0x1_0000
    ensures Utf16Length(s) == |s|
  {
    if s != [] {
      Utf16LengthBmp(s[..|s| - 1]);
    }
  }

  /** An emoji is one character but two code units: the two measures differ. */
  lemma AstralCharCountsTwice()
    ensures |"\U{1F600}"| == 1 && Utf16Length("\U{1F600}") == 2
  {
    assert "\U{1F600}"[..0] == [];
  }

  predicate IsDigit(c: char) {
    '0' <= c <= '9'
  }

  predicate AllDigits(s: string) {
    forall c <- s :: IsDigit(c)
  }

  /** The decimal digit for `d`. */
  function DigitChar(d: nat): (c: char)
    requires d < 10
    ensures IsDigit(c) && c as int - '0' as int == d
  {
    (d + '0' as int) as char
  }

  /** The decimal text of `n`, as a template string `${n}` renders a non-negative integer. */
  function DecimalString(n: nat): (r: string)
    ensures |r| >= 1 && AllDigits(r)
  {
    if n < 10 then [DigitChar(n)] else DecimalString(n / 10) + [DigitChar(n % 10)]
  }

  /** `parseInt(d)` on a non-empty run of decimal digits. */
  function DigitsValue(d: string): nat
    requires AllDigits(d)
  {
    if d == [] then 0
    else
      assert IsDigit(d[|d| - 1]);
      DigitsValue(d[..|d| - 1]) * 10 + (d[|d| - 1] as int - '0' as int)
  }

  /** Reading back the decimal text of a number gives the number. */
  lemma {:induction false} DecimalRoundTrip(n: nat)
    ensures DigitsValue(DecimalString(n)) == n
  {
    if n >= 10 {
      var s := DecimalString(n);
      assert s[..|s| - 1] == DecimalString(n / 10);
      DecimalRoundTrip(n / 10);
    }
  }

  /** Sequence concatenation regrouped, for proofs that would otherwise search for it. */
  lemma SeqAssoc<T>(a: seq<T>, b: seq<T>, c: seq<T>)
    ensures a + b + c == a + (b + c)
  {
  }

  lemma SeqAssoc4<T>(a: seq<T>, b: seq<T>, c: seq<T>, d: seq<T>)
    ensures a + (b + (c + d)) == a + b + c + d
  {
  }

  lemma SeqEmptyRight<T>(a: seq<T>)
    ensures a + [] == a
  {
  }
}
