/** The metadata merge of the chat page (page.tsx lines 339-356 and 407-425):
    each retrieved snippet of the snapshot is paired with an enrichment entry
    to give one `detailedRetrievals` entry. When some enrichment entry carries
    a `content_id` the pairing is by id, the last entry for an id winning;
    otherwise it is by position. */
module Merge {
  import opened Json

  /** One `detailedRetrievals` entry: `{content_text, page_img, retrievalContent}`. */
  datatype Detailed = Detailed(contentText: string, pageImg: Option<string>, retrievalContent: RetrievalContent)

  /** `meta?.page_img || null` for the entry chosen, or `{}` when there is none. */
  function PageImg(meta: Option<ContentMetadata>): Option<string> {
    if meta.Some? && meta.value.pageImg != "" then Some(meta.value.pageImg) else None
  }

  /** Some enrichment entry carries a `content_id`: the merge pairs by id. */
  predicate AnyId(metas: seq<ContentMetadata>) {
    metas != [] && (AnyId(metas[..|metas| - 1]) || metas[|metas| - 1].contentId != "")
  }

  lemma {:induction false} AnyIdExists(metas: seq<ContentMetadata>)
    ensures AnyId(metas) <==> exists m <- metas :: m.contentId != ""
  {
    if metas != [] {
      var init := metas[..|metas| - 1];
      AnyIdExists(init);
      assert metas == init + [metas[|metas| - 1]];
    }
  }

  /** The entry `metadataMap.get(id)` returns once every entry has been `set`:
      the last one carrying `id`, and none for the empty id, which is never a key. */
  function LastWithId(metas: seq<ContentMetadata>, id: string): (r: Option<ContentMetadata>)
    ensures r.Some? ==> id != "" && r.value in metas && r.value.contentId == id
    ensures r.None? ==> id == "" || forall m <- metas :: m.contentId != id
  {
    if metas == [] then None
    else
      var last := metas[|metas| - 1];
      if last.contentId != "" && last.contentId == id then Some(last)
      else
        var r := LastWithId(metas[..|metas| - 1], id);
        assert metas == metas[..|metas| - 1] + [last];
        r
  }

  /** The enrichment entry paired with the snippet at `index`. */
  function MetaFor(snippet: RetrievalContent, index: nat, metas: seq<ContentMetadata>): Option<ContentMetadata> {
    if AnyId(metas) then LastWithId(metas, snippet.contentId)
    else if index < |metas| then Some(metas[index])
    else None
  }

  /** The merged list: one entry per snippet, in the snapshot's order, whose image
      is always one that some enrichment entry supplied. */
  function Merged(snippets: seq<RetrievalContent>, metas: seq<ContentMetadata>): (r: seq<Detailed>)
    ensures |r| == |snippets|
    ensures forall i :: 0 <= i < |r| ==> r[i].retrievalContent == snippets[i] && r[i].contentText == snippets[i].contentText
    ensures forall i :: 0 <= i < |r| && r[i].pageImg.Some? ==>
      r[i].pageImg.value != "" && exists m :: m in metas && m.pageImg == r[i].pageImg.value
  {
    seq(|snippets|, i requires 0 <= i < |snippets| =>
      Detailed(snippets[i].contentText, PageImg(MetaFor(snippets[i], i, metas)), snippets[i]))
  }

  /** The entries written before any enrichment (page.tsx lines 278-282, 433-438):
      every snippet with no image. */
  function Placeholders(snippets: seq<RetrievalContent>): seq<Detailed> {
    seq(|snippets|, i requires 0 <= i < |snippets| => Detailed(snippets[i].contentText, None, snippets[i]))
  }

  /** The placeholders are the merge with an empty enrichment. */
  lemma PlaceholdersAreEmptyMerge(snippets: seq<RetrievalContent>)
    ensures Placeholders(snippets) == Merged(snippets, [])
  {
  }

  /** `metadataMap.get(id)`, `undefined` being None. */
  function Lookup(metadataMap: map<string, ContentMetadata>, id: string): Option<ContentMetadata> {
    if id in metadataMap then Some(metadataMap[id]) else None
  }

  /** The merge as the page runs it: a `forEach` over the enrichment that fills the
      id map and clears `useIndexMatching`, then a `map` over the snapshot. */
  method MergeMetadata(snippets: seq<RetrievalContent>, metas: seq<ContentMetadata>) returns (merged: seq<Detailed>)
    ensures merged == Merged(snippets, metas)
  {
    var metadataMap: map<string, ContentMetadata> := map[];
    var useIndexMatching := true;
    var k := 0;
    while k < |metas|
      invariant 0 <= k <= |metas|
      invariant useIndexMatching == !AnyId(metas[..k])
      invariant forall id :: Lookup(metadataMap, id) == LastWithId(metas[..k], id)
    {
      var meta := metas[k];
      assert metas[..k + 1][..k] == metas[..k];
      if meta.contentId != "" {
        metadataMap := metadataMap[meta.contentId := meta];
        useIndexMatching := false;
      }
      k := k + 1;
    }
    assert metas[..k] == metas;
    merged := [];
    var index := 0;
    while index < |snippets|
      invariant 0 <= index <= |snippets|
      invariant merged == Merged(snippets[..index], metas)
    {
      var content := snippets[index];
      var meta: Option<ContentMetadata>;
      if useIndexMatching {
        meta := if index < |metas| then Some(metas[index]) else None;
      } else {
        meta := Lookup(metadataMap, content.contentId);
      }
      var img := if meta.Some? && meta.value.pageImg != "" then Some(meta.value.pageImg) else None;
      merged := merged + [Detailed(content.contentText, img, content)];
      index := index + 1;
      assert snippets[..index][..index - 1] == snippets[..index - 1];
    }
    assert snippets[..index] == snippets;
  }

  /** Pairing by id: the snippet takes the image of the last enrichment entry
      carrying its id. */
  lemma MergeByIdLastWins(snippets: seq<RetrievalContent>, metas: seq<ContentMetadata>, i: nat, k: nat)
    requires i < |snippets| && k < |metas|
    requires metas[k].contentId != "" && metas[k].contentId == snippets[i].contentId
    requires forall j :: k < j < |metas| ==> metas[j].contentId != snippets[i].contentId
    ensures Merged(snippets, metas)[i].pageImg == PageImg(Some(metas[k]))
  {
    AnyIdExists(metas);
    assert metas[k] in metas;
    LastWithIdAt(metas, k);
  }

  lemma {:induction false} LastWithIdAt(metas: seq<ContentMetadata>, k: nat)
    requires k < |metas| && metas[k].contentId != ""
    requires forall j :: k < j < |metas| ==> metas[j].contentId != metas[k].contentId
    ensures LastWithId(metas, metas[k].contentId) == Some(metas[k])
    decreases |metas|
  {
    if k < |metas| - 1 {
      var init := metas[..|metas| - 1];
      LastWithIdAt(init, k);
    }
  }

  /** Pairing by id: a snippet no enrichment entry names gets no image. */
  lemma MergeByIdMissing(snippets: seq<RetrievalContent>, metas: seq<ContentMetadata>, i: nat)
    requires i < |snippets|
    requires exists m <- metas :: m.contentId != ""
    requires forall m <- metas :: m.contentId != snippets[i].contentId
    ensures Merged(snippets, metas)[i].pageImg == None
  {
    AnyIdExists(metas);
  }

  /** Pairing by position, when no enrichment entry carries an id. */
  lemma MergeByPosition(snippets: seq<RetrievalContent>, metas: seq<ContentMetadata>, i: nat)
    requires i < |snippets|
    requires forall m <- metas :: m.contentId == ""
    ensures Merged(snippets, metas)[i].pageImg == if i < |metas| then PageImg(Some(metas[i])) else None
  {
    AnyIdExists(metas);
  }

  predicate DistinctIds(metas: seq<ContentMetadata>) {
    forall j, k :: 0 <= j < k < |metas| ==> metas[j].contentId != metas[k].contentId
  }

  lemma LastWithIdDistinct(metas: seq<ContentMetadata>, m: ContentMetadata)
    requires DistinctIds(metas) && m in metas && m.contentId != ""
    ensures LastWithId(metas, m.contentId) == Some(m)
  {
    var k :| 0 <= k < |metas| && metas[k] == m;
    LastWithIdAt(metas, k);
  }

  /** When every enrichment entry carries its own id, the order of the
      enrichment list does not matter. */
  lemma MergeOrderIndependent(snippets: seq<RetrievalContent>, metas: seq<ContentMetadata>, others: seq<ContentMetadata>)
    requires multiset(metas) == multiset(others)
    requires DistinctIds(metas) && DistinctIds(others)
    requires forall m <- metas :: m.contentId != ""
    ensures Merged(snippets, metas) == Merged(snippets, others)
  {
    AnyIdExists(metas);
    AnyIdExists(others);
    assert forall m :: m in metas <==> m in others by {
      forall m ensures m in metas <==> m in others {
        assert m in metas <==> m in multiset(metas);
        assert m in others <==> m in multiset(others);
      }
    }
    if metas == [] {
      assert |others| == |multiset(others)| == 0;
    } else {
      assert metas[0] in others;
      forall i | 0 <= i < |snippets|
        ensures LastWithId(metas, snippets[i].contentId) == LastWithId(others, snippets[i].contentId)
      {
        var id := snippets[i].contentId;
        var r := LastWithId(metas, id);
        if r.Some? {
          LastWithIdDistinct(metas, r.value);
          LastWithIdDistinct(others, r.value);
        }
      }
    }
  }
}
