/** `processMessageWithCitations` (page.tsx lines 96-113): the rewrite that turns
    the numbered citations of an assistant message into clickable spans. Both of
    its `replace` calls scan left to right, try the pattern at each position and
    resume after a match; the functions below are those scans. */
module Citations {
  import opened Text
  import opened Json

  /** The number of decimal digits `s` starts with. */
  function LeadingDigits(s: string): (k: nat)
    ensures k <= |s| && AllDigits(s[..k])
    ensures k == |s| || !IsDigit(s[k])
  {
    if s != [] && IsDigit(s[0]) then
      var k := 1 + LeadingDigits(s[1..]);
      assert s[..k] == [s[0]] + s[1..][..k - 1];
      k
    else 0
  }

  /** The length of the `\[(\d+)\]` match at the start of `s`, or 0 when there is none. */
  function CitationLength(s: string): (c: nat)
    ensures c == 0 || (3 <= c <= |s| && s[0] == '[' && s[c - 1] == ']' && AllDigits(s[1..c - 1]))
  {
    if s == [] || s[0] != '[' then 0
    else
      var d := LeadingDigits(s[1..]);
      if d >= 1 && d + 1 < |s| && s[d + 1] == ']' then
        assert s[1..d + 1] == s[1..][..d];
        d + 2
      else 0
  }

  /** The number of `()` pairs `s` starts with, as the greedy `(\(\))+` takes them. */
  function EmptyParens(s: string): (p: nat)
    ensures 2 * p <= |s|
  {
    if |s| >= 2 && s[0] == '(' && s[1] == ')' then 1 + EmptyParens(s[2..]) else 0
  }

  /** `content.replace(/\[(\d+)\](\(\))+/g, '[$1]')`: a citation followed by empty
      markdown link targets keeps only the citation. Never lengthens the text. */
  function CollapseEmptyLinks(s: string): (r: string)
    ensures |r| <= |s|
    decreases |s|
  {
    if s == [] then []
    else
      var c := CitationLength(s);
      var p := if c > 0 then EmptyParens(s[c..]) else 0;
      if p > 0 then s[..c] + CollapseEmptyLinks(s[c + 2 * p..])
      else [s[0]] + CollapseEmptyLinks(s[1..])
  }

  /** The fixed part of the citation span before its index. */
  const SpanOpen: string := "<span class=\"citation-link\" data-citation=\""
  /** The fixed part between the index and the citation text. */
  const SpanStyle: string := "\" style=\"color: #60a5fa; text-decoration: underline; cursor: pointer; font-weight: 500;\">"
  const SpanClose: string := "</span>"

  /** The span that makes citation text `text` open the retrieval at `index`. */
  function CitationSpan(index: nat, text: string): string {
    SpanOpen + DecimalString(index) + SpanStyle + text + SpanClose
  }

  /** What the replacer returns for citation text `text` numbered `n`. */
  function Replacement(n: nat, text: string, count: nat): string {
    if 1 <= n <= count then CitationSpan(n - 1, text) else text
  }

  /** `cleanContent.replace(/\[(\d+)\]/g, …)` with `count` retrievals: a citation
      `[n]` with 1 <= n <= count becomes a span for index n - 1, every other text
      is kept. */
  function LinkCitations(s: string, count: nat): string
    decreases |s|
  {
    if s == [] then []
    else
      var c := CitationLength(s);
      if c > 0 then
        Replacement(DigitsValue(s[1..c - 1]), s[..c], count) + LinkCitations(s[c..], count)
      else [s[0]] + LinkCitations(s[1..], count)
  }

  /** The rewrite as a whole. A missing, null or empty list of retrievals leaves
      the content as it is, and so does any list when the content holds no `[`. */
  function ProcessMessageWithCitations(content: string, retrievals: Option<seq<RetrievalContent>>): (r: string)
    ensures '[' !in content ==> r == content
  {
    if retrievals.None? || |retrievals.value| == 0 then content
    else
      var r := LinkCitations(CollapseEmptyLinks(content), |retrievals.value|);
      assert '[' !in content ==> r == content by {
        if '[' !in content {
          NoBracketUnchanged(content, |retrievals.value|);
        }
      }
      r
  }

  /** Text without an opening bracket holds no citation: both scans keep it. */
  lemma {:induction false} NoBracketUnchanged(s: string, count: nat)
    requires '[' !in s
    ensures CollapseEmptyLinks(s) == s && LinkCitations(s, count) == s
    decreases |s|
  {
    if s != [] {
      assert s[1..] == s[1..] && forall c <- s[1..] :: c in s;
      NoBracketUnchanged(s[1..], count);
      assert [s[0]] + s[1..] == s;
    }
  }

  /** With no retrieval to point to, the linking scan links no citation; the
      early return for an empty list thus differs from running both scans only
      in skipping the collapse. */
  lemma {:induction false} NoRetrievalsNoLinks(s: string)
    ensures LinkCitations(s, 0) == s
    decreases |s|
  {
    if s != [] {
      var c := CitationLength(s);
      if c > 0 {
        NoRetrievalsNoLinks(s[c..]);
        calc {
          LinkCitations(s, 0);
          Replacement(DigitsValue(s[1..c - 1]), s[..c], 0) + LinkCitations(s[c..], 0);
          s[..c] + s[c..];
          { SplitAt(s, c); }
          s;
        }
      } else {
        NoRetrievalsNoLinks(s[1..]);
        calc {
          LinkCitations(s, 0);
          [s[0]] + LinkCitations(s[1..], 0);
          { assert [s[0]] == s[..1]; }
          s[..1] + s[1..];
          { SplitAt(s, 1); }
          s;
        }
      }
    }
  }

  lemma SplitAt(s: string, c: nat)
    requires c <= |s|
    ensures s[..c] + s[c..] == s
  {
  }

  /** The citation text for the digit run `digits`. */
  function Citation(digits: string): string {
    "[" + digits + "]"
  }

  lemma CitationAtHead(digits: string, rest: string)
    requires digits != [] && AllDigits(digits)
    ensures CitationLength(Citation(digits) + rest) == |digits| + 2
  {
    var s := Citation(digits) + rest;
    assert s[1..] == digits + "]" + rest;
    LeadingDigitsOf(digits, "]" + rest);
    assert s[1..] == digits + ("]" + rest);
  }

  lemma {:induction false} LeadingDigitsOf(digits: string, rest: string)
    requires AllDigits(digits)
    requires rest == [] || !IsDigit(rest[0])
    ensures LeadingDigits(digits + rest) == |digits|
    decreases |digits|
  {
    if digits != [] {
      assert digits[0] in digits;
      assert (digits + rest)[1..] == digits[1..] + rest;
      assert forall c <- digits[1..] :: c in digits;
      LeadingDigitsOf(digits[1..], rest);
    } else {
      assert digits + rest == rest;
    }
  }

  /** `n` empty link targets. */
  function Parens(n: nat): string {
    if n == 0 then [] else "()" + Parens(n - 1)
  }

  lemma {:induction false} EmptyParensOf(n: nat, rest: string)
    requires !(|rest| >= 2 && rest[0] == '(' && rest[1] == ')')
    ensures EmptyParens(Parens(n) + rest) == n
  {
    if n > 0 {
      assert (Parens(n) + rest)[2..] == Parens(n - 1) + rest;
      EmptyParensOf(n - 1, rest);
    } else {
      assert Parens(n) + rest == rest;
    }
  }

  /** A citation followed by one or more empty link targets collapses to the
      citation alone, and the scan resumes after the last target. */
  lemma CollapseCitation(digits: string, n: nat, rest: string)
    requires digits != [] && AllDigits(digits) && n >= 1
    requires !(|rest| >= 2 && rest[0] == '(' && rest[1] == ')')
    ensures CollapseEmptyLinks(Citation(digits) + Parens(n) + rest) == Citation(digits) + CollapseEmptyLinks(rest)
  {
    var s := Citation(digits) + Parens(n) + rest;
    assert s == Citation(digits) + (Parens(n) + rest);
    CitationAtHead(digits, Parens(n) + rest);
    var c := |digits| + 2;
    assert s[c..] == Parens(n) + rest;
    EmptyParensOf(n, rest);
    ParensLength(n);
    assert s[c + 2 * n..] == rest;
    assert s[..c] == Citation(digits);
  }

  lemma {:induction false} ParensLength(n: nat)
    ensures |Parens(n)| == 2 * n
  {
    if n > 0 {
      ParensLength(n - 1);
    }
  }

  /** A citation not followed by an empty link target is kept as it is. */
  lemma CollapseKeepsBareCitation(digits: string, rest: string)
    requires digits != [] && AllDigits(digits)
    requires !(|rest| >= 2 && rest[0] == '(' && rest[1] == ')')
    ensures CollapseEmptyLinks(Citation(digits) + rest) == Citation(digits) + CollapseEmptyLinks(rest)
  {
    CollapseBareBracket(digits, rest);
    DigitsBracketFree(digits);
    CollapseAfterBracketFree(digits + "]", rest);
    CitationThen(digits, CollapseEmptyLinks(rest));
  }

  /** A digit run and its closing bracket hold no opening bracket. */
  lemma DigitsBracketFree(digits: string)
    requires AllDigits(digits)
    ensures '[' !in digits + "]"
  {
    assert forall i | 0 <= i < |digits| :: digits[i] in digits;
  }

  lemma CitationThen(digits: string, t: string)
    ensures "[" + (digits + "]" + t) == Citation(digits) + t
  {
  }

  /** The opening bracket of a bare citation is kept and the scan goes on one
      character later. */
  lemma CollapseBareBracket(digits: string, rest: string)
    requires digits != [] && AllDigits(digits)
    requires !(|rest| >= 2 && rest[0] == '(' && rest[1] == ')')
    ensures CollapseEmptyLinks(Citation(digits) + rest) == "[" + CollapseEmptyLinks(digits + "]" + rest)
  {
    var s := Citation(digits) + rest;
    CitationAtHead(digits, rest);
    CitationParts(digits, rest);
    assert EmptyParens(rest) == 0;
    CollapseNoLink(s);
  }

  /** Text holding no `[` starts no citation: the collapse copies it and goes on
      with what follows. */
  lemma {:induction false} CollapseAfterBracketFree(a: string, rest: string)
    requires '[' !in a
    ensures CollapseEmptyLinks(a + rest) == a + CollapseEmptyLinks(rest)
    decreases |a|
  {
    if a == [] {
      assert a + rest == rest;
    } else {
      assert a == [a[0]] + a[1..];
      HeadThen(a, rest);
      CollapseKeepsChar(a[0], a[1..] + rest);
      CollapseAfterBracketFree(a[1..], rest);
      HeadThen(a, CollapseEmptyLinks(rest));
    }
  }

  /** `a + u` is the first character of `a` followed by the rest of `a` and `u`. */
  lemma HeadThen(a: string, u: string)
    requires a != []
    ensures a + u == [a[0]] + (a[1..] + u)
  {
    assert a == [a[0]] + a[1..];
  }

  /** A character other than `[` starts no citation and is copied. */
  lemma CollapseKeepsChar(ch: char, t: string)
    requires ch != '['
    ensures CollapseEmptyLinks([ch] + t) == [ch] + CollapseEmptyLinks(t)
  {
    var s := [ch] + t;
    assert s[0] == ch && s[1..] == t;
    assert CitationLength(s) == 0;
  }

  /** The pieces of a citation followed by `rest`. */
  lemma CitationParts(digits: string, rest: string)
    ensures var s := Citation(digits) + rest;
      s[0] == '[' && s[1..] == digits + "]" + rest && s[|digits| + 2..] == rest
  {
  }

  /** Where no citation with empty link targets starts, the collapse keeps the
      first character. */
  lemma CollapseNoLink(s: string)
    requires s != []
    requires CitationLength(s) == 0 || EmptyParens(s[CitationLength(s)..]) == 0
    ensures CollapseEmptyLinks(s) == [s[0]] + CollapseEmptyLinks(s[1..])
  {
  }

  /** A citation whose number is between 1 and the number of retrievals becomes
      a span around the unchanged citation text; any other number is left as
      plain text. The scan resumes right after the citation. */
  lemma LinkCitation(digits: string, rest: string, count: nat)
    requires digits != [] && AllDigits(digits)
    ensures LinkCitations(Citation(digits) + rest, count) ==
      Replacement(DigitsValue(digits), Citation(digits), count) + LinkCitations(rest, count)
  {
    var s := Citation(digits) + rest;
    CitationAtHead(digits, rest);
    var c := |digits| + 2;
    assert s[1..c - 1] == digits;
    assert s[..c] == Citation(digits);
    assert s[c..] == rest;
  }

  /** The `data-citation` attribute of the span for citation `[n]` reads back as
      n - 1, an index into the retrievals. */
  lemma CitationIndexReadsBack(n: nat, count: nat)
    requires 1 <= n <= count
    ensures AllDigits(DecimalString(n - 1))
    ensures DigitsValue(DecimalString(n - 1)) == n - 1 < count
  {
    DecimalRoundTrip(n - 1);
  }

  /** With no retrievals, missing or empty, the content is returned as it is;
      running both scans instead would still collapse empty link targets. */
  lemma EarlyReturn(content: string)
    ensures ProcessMessageWithCitations(content, None) == content
    ensures ProcessMessageWithCitations(content, Some([])) == content
    ensures LinkCitations(CollapseEmptyLinks(content), 0) == CollapseEmptyLinks(content)
  {
    NoRetrievalsNoLinks(CollapseEmptyLinks(content));
  }

  /** `[1]()` with no retrievals is shown as written, while the two scans with a
      count of 0 would give `[1]`. */
  lemma EarlyReturnKeepsEmptyLink()
    ensures ProcessMessageWithCitations("[1]()", Some([])) == "[1]()"
    ensures LinkCitations(CollapseEmptyLinks("[1]()"), 0) == "[1]"
  {
    assert "[1]()" == Citation("1") + Parens(1) + [];
    assert Parens(1) == "()" + Parens(0);
    CollapseCitation("1", 1, []);
    assert CollapseEmptyLinks([]) == [];
    assert Citation("1") + [] == "[1]";
    EarlyReturn("[1]()");
  }

  /** With retrievals, a citation followed by any number of empty link targets
      becomes the citation's replacement (a span exactly when 1 <= n <= the
      number of retrievals, else the bare citation), and the rest of the
      message is rewritten on its own. */
  lemma ProcessCitation(digits: string, n: nat, rest: string, rs: seq<RetrievalContent>)
    requires digits != [] && AllDigits(digits) && |rs| > 0
    requires !(|rest| >= 2 && rest[0] == '(' && rest[1] == ')')
    ensures ProcessMessageWithCitations(Citation(digits) + Parens(n) + rest, Some(rs)) ==
      Replacement(DigitsValue(digits), Citation(digits), |rs|) + ProcessMessageWithCitations(rest, Some(rs))
  {
    if n == 0 {
      assert Citation(digits) + Parens(n) + rest == Citation(digits) + rest;
      CollapseKeepsBareCitation(digits, rest);
    } else {
      CollapseCitation(digits, n, rest);
    }
    LinkCitation(digits, CollapseEmptyLinks(rest), |rs|);
  }
}
