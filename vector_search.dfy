/**
  core/vector_search.go: the in-memory copy of file_vectors, the dot-product
  similarity and SemanticSearch.

  Vectors are kept as their float32 bit patterns, which is what the blobs hold;
  math.Float32frombits is the parameter `value`, read as a real, so float32
  rounding in the dot product is not modelled.  The embedding model is the
  parameter `embed`, as in the embedding scan.
 */
module VectorSearch {
  import opened Wrappers
  import opened Text
  import opened Db
  import opened Sorting

  /** CachedVector: a file_vectors row with its blob decoded. */
  datatype CachedVector = CachedVector(fileId: int, chunkIndex: int, data: seq<bv32>)

  // ---------------------------------------------------------------------
  // Blob decoding

  /** The words of a blob: floor(len/4) of them, word i read little-endian from bytes
      4i to 4i + 3; one to three trailing bytes are ignored. */
  function Decoded(blob: seq<bv8>): (words: seq<bv32>)
    ensures |words| == |blob| / 4
    ensures forall i | 0 <= i < |words| :: words[i] == LeWord(blob[4 * i], blob[4 * i + 1], blob[4 * i + 2], blob[4 * i + 3])
  {
    seq(|blob| / 4, i requires 0 <= i < |blob| / 4 => LeWord(blob[4 * i], blob[4 * i + 1], blob[4 * i + 2], blob[4 * i + 3]))
  }

  /** The decoding loop of LoadVectorIndex for one blob. */
  method DecodeBlob(blob: seq<bv8>) returns (vec: seq<bv32>)
    ensures vec == Decoded(blob)
  {
    var vecLen := |blob| / 4;
    var buf := new bv32[vecLen];
    var i := 0;
    while i < vecLen
      invariant 0 <= i <= vecLen
      invariant forall j | 0 <= j < i :: buf[j] == Decoded(blob)[j]
    {
      buf[i] := LeWord(blob[4 * i], blob[4 * i + 1], blob[4 * i + 2], blob[4 * i + 3]);
      i := i + 1;
    }
    vec := buf[..];
  }

  /** Decoding what SaveVector encoded gives back the original bit patterns. */
  lemma DecodeEncoded(vector: seq<bv32>)
    ensures Decoded(Encoded(vector)) == vector
  {
    var blob := Encoded(vector);
    forall i | 0 <= i < |vector| ensures Decoded(blob)[i] == vector[i] {
      assert blob[4 * i] == ByteOf(vector[i], 0);
      assert blob[4 * i + 1] == ByteOf(vector[i], 1);
      assert blob[4 * i + 2] == ByteOf(vector[i], 2);
      assert blob[4 * i + 3] == ByteOf(vector[i], 3);
      WordRoundTrip(vector[i]);
    }
  }

  /** Bytes past the last whole word do not change the decoding. */
  lemma DecodeIgnoresTrailingBytes(blob: seq<bv8>)
    ensures Decoded(blob) == Decoded(blob[..4 * (|blob| / 4)])
  {
    var whole := blob[..4 * (|blob| / 4)];
    assert |whole| / 4 == |blob| / 4;
    forall i | 0 <= i < |blob| / 4 ensures Decoded(blob)[i] == Decoded(whole)[i] {
      assert whole[4 * i] == blob[4 * i] && whole[4 * i + 1] == blob[4 * i + 1];
      assert whole[4 * i + 2] == blob[4 * i + 2] && whole[4 * i + 3] == blob[4 * i + 3];
    }
  }

  // ---------------------------------------------------------------------
  // CosineSimilarity

  /** The values the bit patterns stand for. */
  function Values(bits: seq<bv32>, value: bv32 -> real): (xs: seq<real>)
    ensures |xs| == |bits|
  {
    seq(|bits|, i requires 0 <= i < |bits| => value(bits[i]))
  }

  /** The sum of a[i] * b[i] over i < n. */
  function Dot(a: seq<real>, b: seq<real>, n: nat): real
    requires n <= |a| && n <= |b|
  {
    if n == 0 then 0.0 else Dot(a, b, n - 1) + a[n - 1] * b[n - 1]
  }

  /** CosineSimilarity: the dot product (the vectors are normalised), or 0 when the
      lengths differ. */
  function Similarity(a: seq<real>, b: seq<real>): real {
    if |a| != |b| then 0.0 else Dot(a, b, |a|)
  }

  /** The accumulation loop of CosineSimilarity. */
  method CosineSimilarity(a: seq<real>, b: seq<real>) returns (dot: real)
    ensures dot == Similarity(a, b)
    ensures |a| != |b| ==> dot == 0.0
  {
    if |a| != |b| {
      return 0.0;
    }
    dot := 0.0;
    var i := 0;
    while i < |a|
      invariant 0 <= i <= |a|
      invariant dot == Dot(a, b, i)
    {
      dot := dot + a[i] * b[i];
      i := i + 1;
    }
  }

  lemma {:induction false} DotSymmetric(a: seq<real>, b: seq<real>, n: nat)
    requires n <= |a| && n <= |b|
    ensures Dot(a, b, n) == Dot(b, a, n)
  {
    if n > 0 {
      DotSymmetric(a, b, n - 1);
    }
  }

  /** The similarity does not depend on which vector is the query. */
  lemma SimilaritySymmetric(a: seq<real>, b: seq<real>)
    ensures Similarity(a, b) == Similarity(b, a)
  {
    if |a| == |b| {
      DotSymmetric(a, b, |a|);
    }
  }

  // ---------------------------------------------------------------------
  // LoadVectorIndex

  /** The cached form of a stored row. */
  function Cached(row: VectorRow): CachedVector {
    CachedVector(row.fileId, row.chunkIndex, Decoded(row.blob))
  }

  /** The index built from the rows of the query, in row order; a row whose Scan failed
      (None) is skipped. */
  function Indexed(rows: seq<Option<VectorRow>>): (entries: seq<CachedVector>)
    ensures |entries| <= |rows|
  {
    if rows == [] then []
    else
      var last := rows[|rows| - 1];
      Indexed(rows[..|rows| - 1]) + (if last.Some? then [Cached(last.value)] else [])
  }

  /** When every row scans, the index holds every stored vector, decoded, in order. */
  lemma {:induction false} IndexedAllRows(rows: seq<VectorRow>)
    ensures var entries := Indexed(seq(|rows|, k requires 0 <= k < |rows| => Some(rows[k])));
      |entries| == |rows| && forall k | 0 <= k < |rows| :: entries[k] == Cached(rows[k])
    decreases |rows|
  {
    if rows != [] {
      var init := rows[..|rows| - 1];
      IndexedAllRows(init);
      var scanned := seq(|rows|, k requires 0 <= k < |rows| => Some(rows[k]));
      assert scanned[..|rows| - 1] == seq(|init|, k requires 0 <= k < |init| => Some(init[k]));
    }
  }

  /** A vector stored by SaveVector is read back into the index as the same bit patterns. */
  lemma SavedVectorReadsBack(fileId: int, chunkIndex: int, vector: seq<bv32>)
    ensures Cached(VectorRow(fileId, chunkIndex, Encoded(vector))) == CachedVector(fileId, chunkIndex, vector)
  {
    DecodeEncoded(vector);
  }

  /** The global VectorIndex slice. */
  class VectorIndex {
    var entries: seq<CachedVector>

    constructor ()
      ensures entries == []
    {
      entries := [];
    }

    /** LoadVectorIndex.  `rows` is the result of the SELECT: None when the query failed,
        which leaves the index as it was; otherwise the index is reset and refilled. */
    method Load(rows: Option<seq<Option<VectorRow>>>)
      modifies this
      ensures rows.None? ==> entries == old(entries)
      ensures rows.Some? ==> entries == Indexed(rows.value)
    {
      if rows.None? {
        return;
      }
      entries := [];
      var i := 0;
      while i < |rows.value|
        invariant 0 <= i <= |rows.value|
        invariant entries == Indexed(rows.value[..i])
      {
        var row := rows.value[i];
        assert rows.value[..i + 1][..i] == rows.value[..i];
        if row.Some? {
          var vec := DecodeBlob(row.value.blob);
          entries := entries + [CachedVector(row.value.fileId, row.value.chunkIndex, vec)];
        }
        i := i + 1;
      }
      assert rows.value[..i] == rows.value;
    }
  }

  // ---------------------------------------------------------------------
  // SemanticSearch: the best chunk score per file

  const Threshold: real := 0.35
  const TopK: nat := 10
  const SnippetLimit: nat := 200

  datatype Match = Match(fileId: int, score: real)

  function ChunkScore(query: seq<real>, doc: CachedVector, value: bv32 -> real): real {
    Similarity(query, Values(doc.data, value))
  }

  /** fileScores after the loop over the index: a chunk counts only above the threshold, and
      a file keeps a new score only when it beats the one it has. */
  function BestScores(docs: seq<CachedVector>, query: seq<real>, value: bv32 -> real): map<int, real> {
    if docs == [] then map[]
    else
      var m := BestScores(docs[..|docs| - 1], query, value);
      var d := docs[|docs| - 1];
      var s := ChunkScore(query, d, value);
      if s > Threshold && (d.fileId !in m || s > m[d.fileId]) then m[d.fileId := s] else m
  }

  /** Every scored file has a chunk above the threshold that carries exactly its score. */
  lemma {:induction false} BestScoresSound(docs: seq<CachedVector>, query: seq<real>, value: bv32 -> real)
    ensures forall id | id in BestScores(docs, query, value) :: BestScores(docs, query, value)[id] > Threshold
    ensures forall id | id in BestScores(docs, query, value) ::
      exists k | 0 <= k < |docs| :: docs[k].fileId == id && ChunkScore(query, docs[k], value) == BestScores(docs, query, value)[id]
    decreases |docs|
  {
    if docs != [] {
      var init := docs[..|docs| - 1];
      BestScoresSound(init, query, value);
      var before := BestScores(init, query, value);
      var m := BestScores(docs, query, value);
      var d := docs[|docs| - 1];
      var s := ChunkScore(query, d, value);
      var improves := s > Threshold && (d.fileId !in before || s > before[d.fileId]);
      assert m == if improves then before[d.fileId := s] else before;
      forall id | id in m
        ensures m[id] > Threshold
        ensures exists k | 0 <= k < |docs| :: docs[k].fileId == id && ChunkScore(query, docs[k], value) == m[id]
      {
        if improves && id == d.fileId {
          assert docs[|docs| - 1].fileId == id && ChunkScore(query, docs[|docs| - 1], value) == m[id];
        } else {
          assert id in before && m[id] == before[id];
          var k :| 0 <= k < |init| && init[k].fileId == id && ChunkScore(query, init[k], value) == before[id];
          assert docs[k] == init[k];
        }
      }
    }
  }

  /** Every chunk above the threshold has its file scored at least as high: the score kept
      per file is the maximum of its counted chunks. */
  lemma {:induction false} BestScoresMax(docs: seq<CachedVector>, query: seq<real>, value: bv32 -> real)
    ensures forall k | 0 <= k < |docs| && ChunkScore(query, docs[k], value) > Threshold ::
      docs[k].fileId in BestScores(docs, query, value)
      && BestScores(docs, query, value)[docs[k].fileId] >= ChunkScore(query, docs[k], value)
    decreases |docs|
  {
    if docs != [] {
      var init := docs[..|docs| - 1];
      BestScoresMax(init, query, value);
      forall k | 0 <= k < |init| ensures docs[k] == init[k] {
      }
    }
  }

  /** The loop over VectorIndex filling fileScores. */
  method ScoreFiles(docs: seq<CachedVector>, query: seq<real>, value: bv32 -> real) returns (fileScores: map<int, real>)
    ensures fileScores == BestScores(docs, query, value)
  {
    fileScores := map[];
    var i := 0;
    while i < |docs|
      invariant 0 <= i <= |docs|
      invariant fileScores == BestScores(docs[..i], query, value)
    {
      var doc := docs[i];
      assert docs[..i + 1][..i] == docs[..i];
      var score := CosineSimilarity(query, Values(doc.data, value));
      if score > Threshold {
        if doc.fileId !in fileScores || score > fileScores[doc.fileId] {
          fileScores := fileScores[doc.fileId := score];
        }
      }
      i := i + 1;
    }
    assert docs[..i] == docs;
  }

  // ---------------------------------------------------------------------
  // SemanticSearch: matches, ranking and the top ten

  /** A list of matches holding each scored file once, with its score. */
  predicate Lists(matches: seq<Match>, scores: map<int, real>) {
    && |matches| == |scores|
    && (forall m | m in matches :: m.fileId in scores && scores[m.fileId] == m.score)
    && (forall id | id in scores :: Match(id, scores[id]) in matches)
  }

  /** The loop over fileScores building matches, in the map's (arbitrary) iteration order. */
  method CollectMatches(scores: map<int, real>) returns (matches: seq<Match>)
    ensures Lists(matches, scores)
  {
    matches := [];
    var rest := scores.Keys;
    while rest != {}
      invariant rest <= scores.Keys
      invariant forall m | m in matches :: m.fileId in scores && scores[m.fileId] == m.score && m.fileId !in rest
      invariant forall id | id in scores && id !in rest :: Match(id, scores[id]) in matches
      invariant |matches| + |rest| == |scores|
      decreases |rest|
    {
      ghost var some := Pick(rest);
      var id :| id in rest;
      matches := matches + [Match(id, scores[id])];
      RemoveOne(rest, id);
      rest := rest - {id};
    }
  }

  function MatchScore(m: Match): real {
    m.score
  }

  /** sort.Slice(matches, greater score first). */
  method RankMatches(matches: seq<Match>) returns (ranked: seq<Match>)
    ensures multiset(ranked) == multiset(matches)
    ensures Descending(ranked, MatchScore)
  {
    var a := new Match[|matches|](i requires 0 <= i < |matches| => matches[i]);
    assert a[..] == matches;
    SortByKeyDescending(a, MatchScore);
    ranked := a[..];
  }

  /** A permutation of a listing is a listing. */
  lemma ListsPermuted(matches: seq<Match>, ranked: seq<Match>, scores: map<int, real>)
    requires Lists(matches, scores) && multiset(ranked) == multiset(matches)
    ensures Lists(ranked, scores)
  {
    assert |ranked| == |multiset(ranked)| == |multiset(matches)| == |matches|;
    forall m | m in ranked ensures m in matches {
      assert m in multiset(ranked);
    }
    forall id | id in scores ensures Match(id, scores[id]) in ranked {
      assert Match(id, scores[id]) in multiset(matches);
    }
  }

  /** The matches kept before any lookup: at most ten, the first ones of the ranking. */
  function Top(ranked: seq<Match>): (top: seq<Match>)
    ensures |top| <= TopK && top <= ranked
  {
    if |ranked| > TopK then ranked[..TopK] else ranked
  }

  /** Truncation keeps the best: no dropped file scored higher than a kept one. */
  lemma TopIsBest(ranked: seq<Match>, m: Match)
    requires Descending(ranked, MatchScore)
    requires m in ranked && m !in Top(ranked)
    ensures forall t | t in Top(ranked) :: t.score >= m.score
  {
    var j :| 0 <= j < |ranked| && ranked[j] == m;
    assert j >= TopK;
    forall t | t in Top(ranked) ensures t.score >= m.score {
      var i :| 0 <= i < |Top(ranked)| && Top(ranked)[i] == t;
      assert MatchScore(ranked[i]) >= MatchScore(ranked[j]);
    }
  }

  // ---------------------------------------------------------------------
  // SemanticSearch: lookup, date filter and snippet

  /** The row lookup for a match: it fails when the id has no row, and also when the row's
      summary is NULL, since it is scanned into a Go string. */
  function Lookup(files: map<int, FileRow>, id: int): (row: Option<FileRow>)
    ensures row.Some? ==> id in files && row.value == files[id] && row.value.summary.Some?
    ensures row.None? ==> id !in files || files[id].summary.None?
  {
    if id in files && files[id].summary.Some? then Some(files[id]) else None
  }

  /** The date filter: a bound only applies when it is positive. */
  predicate InWindow(modTime: int, minTime: int, maxTime: int) {
    !(minTime > 0 && modTime < minTime) && !(maxTime > 0 && modTime > maxTime)
  }

  /** The summary as shown: up to 200 characters, with "..." when it was cut. */
  function Snippet(summary: string): (s: string)
    ensures |summary| <= SnippetLimit ==> s == summary
    ensures |summary| > SnippetLimit ==> |s| == SnippetLimit + 3 && s == summary[..SnippetLimit] + "..."
    ensures |s| <= SnippetLimit + 3
  {
    if |summary| > SnippetLimit then summary[..SnippetLimit] + "..." else summary
  }

  predicate Kept(m: Match, files: map<int, FileRow>, minTime: int, maxTime: int) {
    var row := Lookup(files, m.fileId);
    row.Some? && InWindow(row.value.modTime, minTime, maxTime)
  }

  function ResultFor(m: Match, files: map<int, FileRow>): SearchResult
    requires Lookup(files, m.fileId).Some?
  {
    var row := files[m.fileId];
    SearchResult(row.path, Snippet(row.summary.value), m.score, "", "")
  }

  /** The results loop over the top matches: a match whose lookup fails or whose file lies
      outside the date window is dropped; the others keep their order. */
  function Presented(top: seq<Match>, files: map<int, FileRow>, minTime: int, maxTime: int): (results: seq<SearchResult>)
    ensures |results| <= |top|
  {
    if top == [] then []
    else
      var m := top[|top| - 1];
      Presented(top[..|top| - 1], files, minTime, maxTime)
        + if Kept(m, files, minTime, maxTime) then [ResultFor(m, files)] else []
  }

  /** Each result comes from a kept match. */
  lemma {:induction false} PresentedSound(top: seq<Match>, files: map<int, FileRow>, minTime: int, maxTime: int)
    ensures forall r | r in Presented(top, files, minTime, maxTime) ::
      exists j | 0 <= j < |top| :: Kept(top[j], files, minTime, maxTime) && r == ResultFor(top[j], files)
    decreases |top|
  {
    if top != [] {
      var init := top[..|top| - 1];
      PresentedSound(init, files, minTime, maxTime);
      forall j | 0 <= j < |init| ensures top[j] == init[j] {
      }
    }
  }

  /** Each kept match has its result. */
  lemma {:induction false} PresentedComplete(top: seq<Match>, files: map<int, FileRow>, minTime: int, maxTime: int)
    ensures forall j | 0 <= j < |top| && Kept(top[j], files, minTime, maxTime) ::
      ResultFor(top[j], files) in Presented(top, files, minTime, maxTime)
    decreases |top|
  {
    if top != [] {
      var init := top[..|top| - 1];
      PresentedComplete(init, files, minTime, maxTime);
      forall j | 0 <= j < |init| ensures top[j] == init[j] {
      }
    }
  }

  function ResultScore(r: SearchResult): real {
    r.score
  }

  /** Filtering keeps the ranking: results from descending matches are descending. */
  lemma {:induction false} PresentedDescending(top: seq<Match>, files: map<int, FileRow>, minTime: int, maxTime: int)
    requires Descending(top, MatchScore)
    ensures Descending(Presented(top, files, minTime, maxTime), ResultScore)
    decreases |top|
  {
    if top != [] {
      var init := top[..|top| - 1];
      var m := top[|top| - 1];
      assert Descending(init, MatchScore);
      PresentedDescending(init, files, minTime, maxTime);
      PresentedSound(init, files, minTime, maxTime);
      var before := Presented(init, files, minTime, maxTime);
      forall r | r in before ensures r.score >= m.score {
        var j :| 0 <= j < |init| && Kept(init[j], files, minTime, maxTime) && r == ResultFor(init[j], files);
        assert MatchScore(top[j]) >= MatchScore(top[|top| - 1]);
      }
      if Kept(m, files, minTime, maxTime) {
        var all := before + [ResultFor(m, files)];
        forall i, j | 0 <= i < j < |all| ensures ResultScore(all[i]) >= ResultScore(all[j]) {
          if j < |before| {
            assert all[i] == before[i] && all[j] == before[j];
          } else {
            assert all[i] in before;
          }
        }
      }
    }
  }

  /** The results loop. */
  method Present(top: seq<Match>, store: Store, minTime: int, maxTime: int) returns (results: seq<SearchResult>)
    ensures results == Presented(top, store.files, minTime, maxTime)
  {
    results := [];
    var i := 0;
    while i < |top|
      invariant 0 <= i <= |top|
      invariant results == Presented(top[..i], store.files, minTime, maxTime)
    {
      var m := top[i];
      assert top[..i + 1][..i] == top[..i];
      var row := Lookup(store.files, m.fileId);
      if row.Some? {
        var modTime := row.value.modTime;
        if !(minTime > 0 && modTime < minTime) && !(maxTime > 0 && modTime > maxTime) {
          var displaySnippet := row.value.summary.value;
          if |displaySnippet| > SnippetLimit {
            displaySnippet := displaySnippet[..SnippetLimit] + "...";
          }
          results := results + [SearchResult(row.value.path, displaySnippet, m.score, "", "")];
        }
      }
      i := i + 1;
    }
    assert top[..i] == top;
  }

  /** SemanticSearch.  The ghost `ranked` is the sorted matches slice: every scored file once,
      greater score first (equal scores in an unspecified order). */
  method SemanticSearch(index: VectorIndex, store: Store, aiReady: bool, query: string,
                        embed: string -> Option<seq<bv32>>, value: bv32 -> real, minTime: int, maxTime: int)
    returns (res: Result<seq<SearchResult>>, ghost ranked: seq<Match>)
    ensures !aiReady || index.entries == [] ==> res.Err?
    ensures aiReady && index.entries != [] && embed(query).None? ==> res.Err?
    ensures aiReady && index.entries != [] && embed(query).Some? ==>
      && Lists(ranked, BestScores(index.entries, Values(embed(query).value, value), value))
      && Descending(ranked, MatchScore)
      && res == Ok(Presented(Top(ranked), store.files, minTime, maxTime))
  {
    ranked := [];
    if !aiReady || |index.entries| == 0 {
      return Err("AI not ready or index empty"), ranked;
    }
    var queryVec := embed(query);
    if queryVec.None? {
      return Err("embedding failed"), ranked;
    }
    var fileScores := ScoreFiles(index.entries, Values(queryVec.value, value), value);
    var matches := CollectMatches(fileScores);
    var sorted := RankMatches(matches);
    ranked := sorted;
    ListsPermuted(matches, ranked, fileScores);
    var top := sorted;
    if |top| > TopK {
      top := top[..TopK];
    }
    var results := Present(top, store, minTime, maxTime);
    res := Ok(results);
  }

  /** What SemanticSearch returns: at most ten results, by non-increasing score, each from a
      file whose best chunk beat the threshold and whose row passes the date filter, with a
      snippet of at most 203 characters. */
  lemma SemanticResults(ranked: seq<Match>, scores: map<int, real>, files: map<int, FileRow>, minTime: int, maxTime: int)
    requires Lists(ranked, scores) && Descending(ranked, MatchScore)
    requires forall id | id in scores :: scores[id] > Threshold
    ensures var results := Presented(Top(ranked), files, minTime, maxTime);
      && |results| <= TopK
      && Descending(results, ResultScore)
      && forall r | r in results :: r.score > Threshold && |r.snippet| <= SnippetLimit + 3
  {
    var top := Top(ranked);
    assert Descending(top, MatchScore);
    PresentedDescending(top, files, minTime, maxTime);
    PresentedSound(top, files, minTime, maxTime);
    forall r | r in Presented(top, files, minTime, maxTime) ensures r.score > Threshold {
      var j :| 0 <= j < |top| && Kept(top[j], files, minTime, maxTime) && r == ResultFor(top[j], files);
      assert top[j] in ranked;
    }
  }
}
