/**
  Phases 2 and 3 of core/indexer.go: the deep scan that fills in missing
  summaries, the word chunker, and the embedding scan that stores one vector
  per long-enough chunk.

  Extraction is described by its inputs (what each file's reader hands back
  and whether the two-second timer fired first); the embedding model is a
  function from a chunk to a vector of float32 bit patterns, or None when it
  fails.  Transactions are not modelled beyond counting their commits.
 */
module DeepScan {
  import opened Wrappers
  import opened Text
  import opened Db
  import opened Extraction

  const CommitEvery: nat := 100

  // ---------------------------------------------------------------------
  // Phase 2: deep scan

  /** A row the deep scan selects: NULL summary and a filename whose extension is on the
      whitelist. */
  predicate IsPending(row: FileRow) {
    row.summary.None? && IsContentReadable(Ext(row.filename))
  }

  ghost function PendingPaths(catalog: map<string, FileRow>): set<string> {
    set p | p in catalog && IsPending(catalog[p])
  }

  /** The pending paths among those already looked at (all but `rest`). */
  ghost function PendingOutside(catalog: map<string, FileRow>, rest: set<string>): set<string> {
    set p | p in catalog && p !in rest && IsPending(catalog[p])
  }

  /** What getContentWithTimeout hands back for a path. */
  function DeepContent(path: string, source: string -> Source, timedOut: string -> bool): string {
    if timedOut(path) then "" else Extracted(path, source(path))
  }

  /** The catalog after the summaries of the given paths have been written, in order. */
  ghost function Summarised(catalog: map<string, FileRow>, paths: seq<string>, source: string -> Source,
                            timedOut: string -> bool): map<string, FileRow>
    decreases |paths|
  {
    if paths == [] then catalog
    else
      var c := Summarised(catalog, paths[..|paths| - 1], source, timedOut);
      var p := paths[|paths| - 1];
      if p in c then c[p := c[p].(summary := Some(DeepContent(p, source, timedOut)))] else c
  }

  lemma SummarisedStep(catalog: map<string, FileRow>, paths: seq<string>, k: nat, source: string -> Source,
                       timedOut: string -> bool)
    requires k < |paths|
    ensures var c := Summarised(catalog, paths[..k], source, timedOut);
      Summarised(catalog, paths[..k + 1], source, timedOut)
        == if paths[k] in c then c[paths[k] := c[paths[k]].(summary := Some(DeepContent(paths[k], source, timedOut)))] else c
  {
    assert paths[..k + 1][..k] == paths[..k];
  }

  /** Writing summaries changes no key, and each written path carries its extracted content;
      every other row is as it was. */
  lemma {:induction false} SummarisedRows(catalog: map<string, FileRow>, paths: seq<string>, source: string -> Source,
                                          timedOut: string -> bool)
    ensures Summarised(catalog, paths, source, timedOut).Keys == catalog.Keys
    ensures forall p | p in catalog ::
      Summarised(catalog, paths, source, timedOut)[p]
        == if p in paths then catalog[p].(summary := Some(DeepContent(p, source, timedOut))) else catalog[p]
    decreases |paths|
  {
    if paths != [] {
      var init := paths[..|paths| - 1];
      SummarisedRows(catalog, init, source, timedOut);
      assert forall p :: p in paths <==> p in init || p == paths[|paths| - 1];
    }
  }

  /** After every pending path has been written, nothing is pending any more. */
  lemma NothingLeftPending(catalog: map<string, FileRow>, pending: seq<string>, source: string -> Source,
                           timedOut: string -> bool)
    requires forall p :: p in pending <==> p in PendingPaths(catalog)
    ensures PendingPaths(Summarised(catalog, pending, source, timedOut)) == {}
  {
    var after := Summarised(catalog, pending, source, timedOut);
    SummarisedRows(catalog, pending, source, timedOut);
    forall p | p in after ensures !IsPending(after[p]) {
      if p !in pending {
        assert p !in PendingPaths(catalog);
      }
    }
  }

  /** The first query of RunDeepScan: SELECT path, filename FROM files WHERE summary IS NULL,
      keeping the rows whose extension passes the whitelist.  Rows come in no particular
      order. */
  method PendingFiles(store: Store) returns (pending: seq<string>)
    requires store.Valid()
    ensures forall p :: p in pending <==> p in PendingPaths(store.catalog)
    ensures |pending| == |PendingPaths(store.catalog)|
  {
    pending := [];
    ghost var seen: set<string> := {};
    var rest := store.pathIndex.Keys;
    while rest != {}
      invariant rest <= store.pathIndex.Keys
      invariant forall p :: p in pending <==> p in seen
      invariant |pending| == |seen|
      invariant seen == PendingOutside(store.catalog, rest)
      decreases |rest|
    {
      var path :| path in rest;
      var row := store.files[store.pathIndex[path]];
      if row.summary.None? && IsContentReadable(Ext(row.filename)) {
        pending := pending + [path];
        seen := seen + {path};
      }
      rest := rest - {path};
    }
    assert PendingOutside(store.catalog, {}) == PendingPaths(store.catalog);
  }

  /** One more processed file completes a batch exactly when the count reaches a multiple
      of 100. */
  lemma CommitStep(n: nat)
    ensures (n + 1) / CommitEvery == n / CommitEvery + (if (n + 1) % CommitEvery == 0 then 1 else 0)
  {
  }

  /** The summary the deep scan writes is always clean text. */
  lemma DeepContentIsClean(path: string, source: string -> Source, timedOut: string -> bool)
    ensures IsClean(DeepContent(path, source, timedOut))
  {
    ExtractedIsClean(path, source(path));
  }

  /** RunDeepScan: every pending row gets the extracted content (empty on timeout or
      failure) as its summary, so no pending row is left; a commit every 100 files and one
      at the end. */
  method RunDeepScan(store: Store, source: string -> Source, timedOut: string -> bool)
    returns (processed: nat, commits: nat)
    requires store.Valid()
    modifies store
    ensures store.Valid()
    ensures processed == |PendingPaths(old(store.catalog))|
    ensures commits == if processed == 0 then 0 else processed / CommitEvery + 1
    ensures store.catalog.Keys == old(store.catalog).Keys
    ensures forall p | p in old(store.catalog) ::
      store.catalog[p] == if p in PendingPaths(old(store.catalog))
        then old(store.catalog)[p].(summary := Some(DeepContent(p, source, timedOut)))
        else old(store.catalog)[p]
    ensures PendingPaths(store.catalog) == {}
    ensures store.vectors == old(store.vectors) && store.extIcons == old(store.extIcons)
  {
    ghost var catalog := store.catalog;
    var pendingFiles := PendingFiles(store);
    var total := |pendingFiles|;
    processed, commits := 0, 0;
    if total == 0 {
      assert PendingPaths(catalog) == {};
      return;
    }
    while processed < total
      invariant processed <= total && store.Valid()
      invariant store.catalog == Summarised(catalog, pendingFiles[..processed], source, timedOut)
      invariant commits == processed / CommitEvery
      invariant store.vectors == old(store.vectors) && store.extIcons == old(store.extIcons)
    {
      var path := pendingFiles[processed];
      var content := GetContentWithTimeout(path, source(path), timedOut(path));
      store.UpdateSummary(path, content);
      CommitStep(processed);
      SummarisedStep(catalog, pendingFiles, processed, source, timedOut);
      processed := processed + 1;
      if processed % CommitEvery == 0 {
        commits := commits + 1;
      }
    }
    commits := commits + 1;
    assert pendingFiles[..processed] == pendingFiles;
    SummarisedRows(catalog, pendingFiles, source, timedOut);
    NothingLeftPending(catalog, pendingFiles, source, timedOut);
  }

  // ---------------------------------------------------------------------
  // chunkText: windows of 300 words, each starting 250 words after the previous one

  const ChunkSize: nat := 300
  const Overlap: nat := 50
  const Stride: nat := ChunkSize - Overlap

  function Max(a: int, b: int): int {
    if a < b then b else a
  }

  /** Window k: words 250k up to 250k + 300 (or the end), joined with single spaces. */
  /** The words of window k: up to ChunkSize words from word Stride * k on. */
  function WindowWords(words: seq<string>, k: nat): seq<string>
    requires Stride * k < |words|
  {
    words[Stride * k .. Min(Stride * k + ChunkSize, |words|)]
  }

  function Window(words: seq<string>, k: nat): string
    requires Stride * k < |words|
  {
    Join(WindowWords(words, k), " ")
  }

  /** The number of windows chunkText produces from n >= 1 words: every start below n, but
      at most maxChunks and at least one. */
  function ChunkCount(n: nat, maxChunks: int): (count: nat)
    ensures n > 0 ==> 1 <= count <= Max(maxChunks, 1)
    ensures forall k | 0 <= k < count :: Stride * k < n
  {
    if n == 0 then 0 else Min(Max(maxChunks, 1), (n + Stride - 1) / Stride)
  }

  /** What chunkText returns: the windows, or the whole text when it holds no word. */
  function Chunked(text: string, maxChunks: int): (chunks: seq<string>)
  {
    var words := Fields(text);
    if |words| == 0 then (if |text| > 0 then [text] else [])
    else seq(ChunkCount(|words|, maxChunks), k requires 0 <= k < ChunkCount(|words|, maxChunks) => Window(words, k))
  }

  /** The stepped loop of chunkText. */
  method ChunkText(text: string, maxChunks: int) returns (chunks: seq<string>)
    ensures chunks == Chunked(text, maxChunks)
  {
    var words := Fields(text);
    chunks := [];
    var i := 0;
    while i < |words|
      invariant i == Stride * |chunks|
      invariant |chunks| < Max(maxChunks, 1)
      invariant forall k | 0 <= k < |chunks| :: Stride * k < |words| && chunks[k] == Window(words, k)
    {
      var end := i + ChunkSize;
      if end > |words| {
        end := |words|;
      }
      var segment := Join(words[i..end], " ");
      chunks := chunks + [segment];
      if |chunks| >= maxChunks {
        break;
      }
      i := i + Stride;
    }
    if |chunks| == 0 && |text| > 0 {
      return [text];
    }
    if |words| > 0 {
      ChunkCountIs(|words|, |chunks|, maxChunks);
    }
  }

  /** The window count read off the loop's exit: the last window starts below n, and either
      the windows reach past the end or the cap was hit. */
  lemma ChunkCountIs(n: nat, c: nat, maxChunks: int)
    requires n > 0 && c >= 1 && Stride * (c - 1) < n && c <= Max(maxChunks, 1)
    requires n <= Stride * c || c == Max(maxChunks, 1)
    ensures c == ChunkCount(n, maxChunks)
  {
    var q := (n + Stride - 1) / Stride;
    assert Stride * (q - 1) < n <= Stride * q;
    if c < q {
      assert Stride * c <= Stride * (q - 1);
    }
  }

  /** Every chunk splits back into exactly the words of its window. */
  lemma ChunkHoldsItsWindow(text: string, maxChunks: int, k: nat)
    requires Fields(text) != [] && k < |Chunked(text, maxChunks)|
    ensures Stride * k < |Fields(text)|
    ensures Fields(Chunked(text, maxChunks)[k]) == WindowWords(Fields(text), k)
  {
    var words := Fields(text);
    var window := WindowWords(words, k);
    assert Chunked(text, maxChunks)[k] == Join(window, [' ']);
    SplitRunsChars(text, IsNonSpace, IsNonSpace);
    assert forall w | w in window :: w in words;
    SplitJoinRoundTrip(window, ' ', IsNonSpace);
  }

  /** With a cap that does not bind, every word of the text lies in some window. */
  lemma ChunksCoverEveryWord(text: string, maxChunks: int, j: nat)
    requires j < |Fields(text)|
    requires maxChunks * Stride >= |Fields(text)|
    ensures var k := j / Stride;
      && k < |Chunked(text, maxChunks)|
      && Stride * k <= j < Min(Stride * k + ChunkSize, |Fields(text)|)
  {
    var n := |Fields(text)|;
    var k := j / Stride;
    var q := (n + Stride - 1) / Stride;
    assert Stride * k <= j < Stride * k + Stride;
    assert k < q;
    assert q <= maxChunks;
  }

  // ---------------------------------------------------------------------
  // Phase 3: embedding scan

  const MinChunkLength: nat := 10

  /** The chunk cap after the setting is clamped: at least one, and one in "simple" mode. */
  function EffectiveMaxChunks(setting: int, strategy: string): (m: int)
    ensures m >= 1
    ensures strategy == "simple" ==> m == 1
    ensures strategy != "simple" ==> m == Max(setting, 1)
  {
    var m := if setting < 1 then 1 else setting;
    if strategy == "simple" then 1 else m
  }

  /** The chunks of one summary: the whole summary in "simple" mode, chunkText otherwise. */
  function ChunksFor(summary: string, strategy: string, maxChunks: int): seq<string> {
    if strategy == "simple" then [summary] else Chunked(summary, maxChunks)
  }

  /** The file_vectors rows stored for chunks 0..n-1 of one file: a chunk shorter than 10 or
      one the model fails on is skipped, and each stored row keeps its chunk's position. */
  function ChunkRows(id: int, chunks: seq<string>, n: nat, embed: string -> Option<seq<bv32>>): seq<VectorRow>
    requires n <= |chunks|
  {
    if n == 0 then []
    else
      var segment := chunks[n - 1];
      ChunkRows(id, chunks, n - 1, embed)
        + if |segment| >= MinChunkLength && embed(segment).Some?
          then [VectorRow(id, n - 1, Encoded(embed(segment).value))]
          else []
  }

  /** The rows stored for one pending file. */
  function FileRows(id: int, summary: string, strategy: string, maxChunks: int,
                    embed: string -> Option<seq<bv32>>): seq<VectorRow>
  {
    var chunks := ChunksFor(summary, strategy, maxChunks);
    ChunkRows(id, chunks, |chunks|, embed)
  }

  /** The rows stored for the pending files, taken in the given order. */
  function EmbeddedRows(order: seq<int>, pending: map<int, string>, strategy: string, maxChunks: int,
                        embed: string -> Option<seq<bv32>>): seq<VectorRow>
    requires forall id | id in order :: id in pending
    decreases |order|
  {
    if order == [] then []
    else
      var id := order[|order| - 1];
      EmbeddedRows(order[..|order| - 1], pending, strategy, maxChunks, embed)
        + FileRows(id, pending[id], strategy, maxChunks, embed)
  }

  lemma EmbeddedRowsStep(order: seq<int>, id: int, pending: map<int, string>, strategy: string, maxChunks: int,
                         embed: string -> Option<seq<bv32>>)
    requires forall i | i in order :: i in pending
    requires id in pending
    ensures forall i | i in order + [id] :: i in pending
    ensures EmbeddedRows(order + [id], pending, strategy, maxChunks, embed)
      == EmbeddedRows(order, pending, strategy, maxChunks, embed) + FileRows(id, pending[id], strategy, maxChunks, embed)
  {
    assert (order + [id])[..|order|] == order;
  }

  /** A stored row exists for chunk i exactly when that chunk is long enough and the model
      embeds it; the row carries the file id, the chunk's own index (no renumbering after
      a skip) and the encoding of its vector. */
  lemma {:induction false} ChunkRowsExact(id: int, chunks: seq<string>, n: nat, embed: string -> Option<seq<bv32>>)
    requires n <= |chunks|
    ensures forall r | r in ChunkRows(id, chunks, n, embed) ::
      && r.fileId == id && 0 <= r.chunkIndex < n
      && |chunks[r.chunkIndex]| >= MinChunkLength && embed(chunks[r.chunkIndex]).Some?
      && r.blob == Encoded(embed(chunks[r.chunkIndex]).value)
    ensures forall i | 0 <= i < n && |chunks[i]| >= MinChunkLength && embed(chunks[i]).Some? ::
      VectorRow(id, i, Encoded(embed(chunks[i]).value)) in ChunkRows(id, chunks, n, embed)
    ensures |ChunkRows(id, chunks, n, embed)| <= n
    decreases n
  {
    if n > 0 {
      ChunkRowsExact(id, chunks, n - 1, embed);
    }
  }

  /** A file never gets more rows than the clamped chunk cap; in "simple" mode at most one,
      for chunk 0. */
  lemma FileRowsBound(id: int, summary: string, setting: int, strategy: string, embed: string -> Option<seq<bv32>>)
    ensures var m := EffectiveMaxChunks(setting, strategy);
      |FileRows(id, summary, strategy, m, embed)| <= m
    ensures strategy == "simple" ==>
      forall r | r in FileRows(id, summary, strategy, EffectiveMaxChunks(setting, strategy), embed) :: r.chunkIndex == 0
  {
    var m := EffectiveMaxChunks(setting, strategy);
    var chunks := ChunksFor(summary, strategy, m);
    ChunkRowsExact(id, chunks, |chunks|, embed);
  }

  /** The inner loop of RunEmbeddingScan over the chunks of one file. */
  method EmbedChunks(store: Store, id: int, chunks: seq<string>, embed: string -> Option<seq<bv32>>)
    requires store.Valid()
    modifies store
    ensures store.Valid()
    ensures store.vectors == old(store.vectors) + ChunkRows(id, chunks, |chunks|, embed)
    ensures store.files == old(store.files) && store.catalog == old(store.catalog)
    ensures store.extIcons == old(store.extIcons)
  {
    var i := 0;
    while i < |chunks|
      invariant i <= |chunks| && store.Valid()
      invariant store.vectors == old(store.vectors) + ChunkRows(id, chunks, i, embed)
      invariant store.files == old(store.files) && store.catalog == old(store.catalog)
      invariant store.extIcons == old(store.extIcons)
    {
      var segment := chunks[i];
      if |segment| >= MinChunkLength {
        var vec := embed(segment);
        if vec.Some? {
          SaveVector(store, id, i, vec.value);
        }
      }
      i := i + 1;
    }
  }

  /** One pending file: its chunks by the strategy, then the inner loop. */
  method EmbedFile(store: Store, id: int, summary: string, strategy: string, maxChunks: int,
                   embed: string -> Option<seq<bv32>>)
    requires store.Valid()
    modifies store
    ensures store.Valid()
    ensures store.vectors == old(store.vectors) + FileRows(id, summary, strategy, maxChunks, embed)
    ensures store.files == old(store.files) && store.catalog == old(store.catalog)
    ensures store.extIcons == old(store.extIcons)
  {
    var chunks: seq<string>;
    if strategy == "simple" {
      chunks := [summary];
    } else {
      chunks := ChunkText(summary, maxChunks);
    }
    EmbedChunks(store, id, chunks, embed);
  }

  /** One iteration of the outer loop of RunEmbeddingScan, tracked against the rows of the
      files handled so far. */
  method EmbedNext(store: Store, id: int, pending: map<int, string>, strategy: string, maxChunks: int,
                   embed: string -> Option<seq<bv32>>, ghost start: seq<VectorRow>, ghost order: seq<int>)
    returns (ghost next: seq<int>)
    requires store.Valid() && id in pending
    requires forall i | i in order :: i in pending
    requires store.vectors == start + EmbeddedRows(order, pending, strategy, maxChunks, embed)
    modifies store
    ensures store.Valid() && next == order + [id]
    ensures forall i | i in next :: i in pending
    ensures store.vectors == start + EmbeddedRows(next, pending, strategy, maxChunks, embed)
    ensures store.files == old(store.files) && store.catalog == old(store.catalog)
    ensures store.extIcons == old(store.extIcons)
  {
    EmbedFile(store, id, pending[id], strategy, maxChunks, embed);
    EmbeddedRowsStep(order, id, pending, strategy, maxChunks, embed);
    AppendAssoc(start, EmbeddedRows(order, pending, strategy, maxChunks, embed),
                FileRows(id, pending[id], strategy, maxChunks, embed));
    next := order + [id];
  }

  /** RunEmbeddingScan: when the model is ready, every file GetFilesNeedingEmbedding selects
      gets its rows, file after file in the (unspecified) order of the selection. */
  method RunEmbeddingScan(store: Store, aiReady: bool, strategy: string, maxChunksSetting: int,
                          embed: string -> Option<seq<bv32>>)
    returns (ghost order: seq<int>)
    requires store.Valid()
    modifies store
    ensures store.Valid()
    ensures store.files == old(store.files) && store.catalog == old(store.catalog)
    ensures store.extIcons == old(store.extIcons)
    ensures !aiReady ==> store.vectors == old(store.vectors)
    ensures aiReady ==> forall id :: id in order <==> id in old(store.FilesNeedingEmbedding())
    ensures aiReady ==> |order| == |old(store.FilesNeedingEmbedding())|
    ensures aiReady ==> store.vectors == old(store.vectors) + EmbeddedRows(order, old(store.FilesNeedingEmbedding()),
                                          strategy, EffectiveMaxChunks(maxChunksSetting, strategy), embed)
  {
    order := [];
    if !aiReady {
      return;
    }
    var pendingFiles := store.FilesNeedingEmbedding();
    var total := |pendingFiles|;
    if total == 0 {
      return;
    }
    var maxChunks := maxChunksSetting;
    if maxChunks < 1 {
      maxChunks := 1;
    }
    if strategy == "simple" {
      maxChunks := 1;
    }
    assert maxChunks == EffectiveMaxChunks(maxChunksSetting, strategy);
    var rest := pendingFiles.Keys;
    ghost var start := store.vectors;
    while rest != {}
      invariant rest <= pendingFiles.Keys && store.Valid()
      invariant forall id | id in order :: id in pendingFiles && id !in rest
      invariant forall id | id in pendingFiles && id !in rest :: id in order
      invariant |order| + |rest| == total
      invariant store.vectors == start + EmbeddedRows(order, pendingFiles, strategy, maxChunks, embed)
      invariant store.files == old(store.files) && store.catalog == old(store.catalog)
      invariant store.extIcons == old(store.extIcons)
      decreases |rest|
    {
      var id :| id in rest;
      order := EmbedNext(store, id, pendingFiles, strategy, maxChunks, embed, start, order);
      RemoveOne(rest, id);
      rest := rest - {id};
    }
  }
}
