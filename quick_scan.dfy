/**
  Phase 1 of core/indexer.go (RunQuickScan) and its helper LoadFileMap.

  The directory walk is an input: the entries filepath.WalkDir would report
  for the root, in order, as if nothing were pruned.  An entry inside a
  directory the scan has pruned is not reported to the callback; the model
  recognises those entries by their path prefix.  Transactions are not
  modelled (every statement takes effect at once); the commits every 2000
  writes are counted.
 */
module QuickScan {
  import opened Wrappers
  import opened Text
  import opened Db

  const BatchSize: nat := 2000

  /** One entry of the walk: modTime is None when d.Info() fails; parent is the cleaned
      parent directory of the entry. */
  datatype WalkEntry = WalkEntry(path: string, name: string, parent: string, isDir: bool, modTime: Option<int>)

  datatype Decision = Skip | Update | Insert

  datatype Stats = Stats(added: nat, updated: nat, skipped: nat, scanned: nat)

  // ---------------------------------------------------------------------
  // Pruning

  predicate IsGlobalJunk(name: string) {
    HasPrefix(name, ".") || name == "node_modules" || name == "$RECYCLE.BIN" || name == "System Volume Information"
  }

  predicate IsRootSystemFolder(name: string) {
    name == "Windows" || name == "Program Files" || name == "Program Files (x86)"
  }

  /** The three skip rules of the walk callback for a directory.  The source compares
      filepath.Clean(parent) with filepath.Clean(root); the model compares the two cleaned
      forms directly: `parent` is cleaned (see WalkEntry) and `root` is the root as
      filepath.Clean leaves it (filepath.Clean itself is not part of this model). */
  predicate ShouldPrune(name: string, path: string, parent: string, root: string) {
    || IsGlobalJunk(name)
    || (IsRootSystemFolder(name) && parent == root)
    || (name == "Packages" && Contains(path, "AppData\\Local\\Packages"))
  }

  predicate InsideDir(path: string, dir: string) {
    HasPrefix(path, dir + "\\")
  }

  /** The entry lies below one of the pruned directories, so the walk never reports it. */
  predicate Hidden(path: string, pruned: seq<string>)
    decreases |pruned|
  {
    pruned != [] && (Hidden(path, pruned[..|pruned| - 1]) || InsideDir(path, pruned[|pruned| - 1]))
  }

  /** Hidden is "below some pruned directory". */
  lemma {:induction false} HiddenBelow(path: string, pruned: seq<string>, k: nat)
    requires k < |pruned| && InsideDir(path, pruned[k])
    ensures Hidden(path, pruned)
    decreases |pruned|
  {
    if k < |pruned| - 1 {
      HiddenBelow(path, pruned[..|pruned| - 1], k);
    }
  }

  /** The pruned directories after the callback has seen entry e. */
  function PrunedAfter(e: WalkEntry, root: string, pruned: seq<string>): seq<string> {
    if !Hidden(e.path, pruned) && e.isDir && ShouldPrune(e.name, e.path, e.parent, root) then pruned + [e.path]
    else pruned
  }

  /** The callback gets as far as the per-file decision for e. */
  predicate IsReachedFile(e: WalkEntry, pruned: seq<string>) {
    !Hidden(e.path, pruned) && !e.isDir && e.modTime.Some?
  }

  /** The files whose modification time the scan compares, in walk order. */
  function Reached(walk: seq<WalkEntry>, root: string, pruned: seq<string>): (files: seq<WalkEntry>)
    ensures forall e | e in files :: !e.isDir && e.modTime.Some?
    decreases |walk|
  {
    if walk == [] then []
    else
      (if IsReachedFile(walk[0], pruned) then [walk[0]] else [])
        + Reached(walk[1..], root, PrunedAfter(walk[0], root, pruned))
  }

  /** A pruned directory hides everything below it. */
  lemma {:induction false} PrunedDirectoryHidesItsContents(walk: seq<WalkEntry>, root: string, pruned: seq<string>, dir: string)
    requires dir in pruned
    ensures forall e | e in Reached(walk, root, pruned) :: !InsideDir(e.path, dir)
    decreases |walk|
  {
    if walk != [] {
      var next := PrunedAfter(walk[0], root, pruned);
      assert dir in next;
      PrunedDirectoryHidesItsContents(walk[1..], root, next, dir);
      var k :| 0 <= k < |pruned| && pruned[k] == dir;
      if IsReachedFile(walk[0], pruned) && InsideDir(walk[0].path, dir) {
        HiddenBelow(walk[0].path, pruned, k);
      }
    }
  }

  // ---------------------------------------------------------------------
  // The per-file decision and its effect

  /** The three-way decision against the loaded path -> mtime map. */
  function Decide(existing: map<string, int>, path: string, modTime: int): (d: Decision)
    ensures d == Skip <==> path in existing && existing[path] == modTime
    ensures d == Update <==> path in existing && existing[path] != modTime
    ensures d == Insert <==> path !in existing
  {
    if path in existing then (if existing[path] == modTime then Skip else Update) else Insert
  }

  /** The row insertStmt writes for a new file (summary and icon NULL). */
  function NewRow(e: WalkEntry): FileRow
    requires e.modTime.Some?
  {
    FileRow(e.path, e.name, Ext(e.name), e.modTime.value, None, None)
  }

  /** The effect on the catalog of the statement the decision selects. */
  ghost function Apply(catalog: map<string, FileRow>, e: WalkEntry, d: Decision): map<string, FileRow>
    requires e.modTime.Some?
  {
    match d
    case Skip => catalog
    case Update =>
      if e.path in catalog then catalog[e.path := catalog[e.path].(modTime := e.modTime.value, summary := None)]
      else catalog
    case Insert => if e.path in catalog then catalog else catalog[e.path := NewRow(e)]
  }

  function Tallied(stats: Stats, d: Decision): Stats {
    match d
    case Skip => stats.(skipped := stats.skipped + 1, scanned := stats.scanned + 1)
    case Update => stats.(updated := stats.updated + 1, scanned := stats.scanned + 1)
    case Insert => stats.(added := stats.added + 1, scanned := stats.scanned + 1)
  }

  /** The closure state of one quick scan: the loaded map it consumes, its counters and the
      directories it has pruned. */
  class Scan {
    const root: string
    var existing: map<string, int>
    var stats: Stats
    var batchCommits: nat
    var pruned: seq<string>

    /** A batch is committed each time the number of writes reaches a multiple of 2000,
        and every scanned file is counted exactly once. */
    ghost predicate Valid()
      reads this
    {
      && batchCommits == (stats.added + stats.updated) / BatchSize
      && stats.scanned == stats.added + stats.updated + stats.skipped
    }

    constructor (root: string, existing: map<string, int>)
      ensures Valid()
      ensures this.root == root && this.existing == existing
      ensures stats == Stats(0, 0, 0, 0) && batchCommits == 0 && pruned == []
    {
      this.root := root;
      this.existing := existing;
      stats := Stats(0, 0, 0, 0);
      batchCommits := 0;
      pruned := [];
    }

    /** The WalkDir callback for one entry. */
    method Visit(store: Store, e: WalkEntry)
      requires Valid() && store.Valid()
      modifies this, store
      ensures Valid() && store.Valid()
      ensures pruned == PrunedAfter(e, root, old(pruned))
      ensures !IsReachedFile(e, old(pruned)) ==>
        existing == old(existing) && stats == old(stats) && store.catalog == old(store.catalog)
      ensures IsReachedFile(e, old(pruned)) ==>
        var d := Decide(old(existing), e.path, e.modTime.value);
        && existing == old(existing) - {e.path}
        && stats == Tallied(old(stats), d)
        && store.catalog == Apply(old(store.catalog), e, d)
      ensures store.vectors == old(store.vectors) && store.extIcons == old(store.extIcons)
    {
      if Hidden(e.path, pruned) {
        return;
      }
      if e.isDir {
        if ShouldPrune(e.name, e.path, e.parent, root) {
          pruned := pruned + [e.path];
        }
        return;
      }
      if e.modTime.None? {
        return;
      }
      Record(store, e);
    }

    /** The per-file part of the callback: the three-way decision and its statement. */
    method Record(store: Store, e: WalkEntry)
      requires Valid() && store.Valid() && e.modTime.Some?
      modifies this, store
      ensures Valid() && store.Valid() && pruned == old(pruned)
      ensures var d := Decide(old(existing), e.path, e.modTime.value);
        && existing == old(existing) - {e.path}
        && stats == Tallied(old(stats), d)
        && store.catalog == Apply(old(store.catalog), e, d)
      ensures store.vectors == old(store.vectors) && store.extIcons == old(store.extIcons)
    {
      var currentModTime := e.modTime.value;
      var d := Decide(existing, e.path, currentModTime);
      if d == Update {
        store.UpdateModTime(e.path, currentModTime);
      } else if d == Insert {
        var _ := store.InsertFile(NewRow(e));
      }
      existing := existing - {e.path};
      Count(d);
    }

    /** The counters for one decision; a write that brings the total number of writes to a
        multiple of 2000 commits the batch. */
    method Count(d: Decision)
      requires Valid()
      modifies this
      ensures Valid() && stats == Tallied(old(stats), d)
      ensures existing == old(existing) && pruned == old(pruned)
    {
      stats := stats.(scanned := stats.scanned + 1);
      match d {
        case Skip =>
          stats := stats.(skipped := stats.skipped + 1);
          return;
        case Update =>
          stats := stats.(updated := stats.updated + 1);
        case Insert =>
          stats := stats.(added := stats.added + 1);
      }
      var writes := stats.added + stats.updated;
      BatchStep(writes - 1);
      if writes % BatchSize == 0 && writes > 0 {
        batchCommits := batchCommits + 1;
      }
    }
  }

  /** One more write crosses a batch boundary exactly when it reaches a multiple of the batch size. */
  lemma BatchStep(n: nat)
    ensures (n + 1) / BatchSize == n / BatchSize + (if (n + 1) % BatchSize == 0 then 1 else 0)
  {
  }

  // ---------------------------------------------------------------------
  // The whole scan as a function of the catalog and the reached files

  /** No two of the files share a path: each one's path is new to the files before it. */
  predicate DistinctPaths(files: seq<WalkEntry>)
    decreases |files|
  {
    files == [] || (DistinctPaths(files[..|files| - 1]) && files[|files| - 1].path !in PathsOf(files[..|files| - 1]))
  }

  /** Distinct paths, stated by positions. */
  lemma {:induction false} DistinctIndices(files: seq<WalkEntry>)
    requires DistinctPaths(files)
    ensures forall a, b | 0 <= a < b < |files| :: files[a].path != files[b].path
    decreases |files|
  {
    if files != [] {
      var init := files[..|files| - 1];
      DistinctIndices(init);
      forall a, b | 0 <= a < b < |files| ensures files[a].path != files[b].path {
        if b == |files| - 1 {
          assert files[a] == init[a];
        } else {
          assert files[a] == init[a] && files[b] == init[b];
        }
      }
    }
  }

  function PathsOf(files: seq<WalkEntry>): set<string> {
    set e | e in files :: e.path
  }

  /** The decision for a file against the catalog as it stood when the scan started. */
  function Classify(catalog: map<string, FileRow>, e: WalkEntry): Decision
    requires e.modTime.Some?
  {
    if e.path !in catalog then Insert
    else if catalog[e.path].modTime == e.modTime.value then Skip
    else Update
  }

  /** The row a scanned file ends with: unchanged when its mtime matches, else carrying the
      new mtime and a NULL summary (a new row also has filename and extension from the walk). */
  function Expected(catalog: map<string, FileRow>, e: WalkEntry): (row: FileRow)
    requires e.modTime.Some?
    ensures row.modTime == e.modTime.value
    ensures Classify(catalog, e) == Skip <==> e.path in catalog && row == catalog[e.path]
    ensures Classify(catalog, e) != Skip ==> row.summary == None
  {
    if e.path in catalog && catalog[e.path].modTime == e.modTime.value then catalog[e.path]
    else if e.path in catalog then catalog[e.path].(modTime := e.modTime.value, summary := None)
    else NewRow(e)
  }

  /** The catalog after the scan has handled the given files. */
  function Reconciled(catalog: map<string, FileRow>, files: seq<WalkEntry>): map<string, FileRow>
    requires forall e | e in files :: e.modTime.Some?
  {
    if files == [] then catalog
    else
      var last := files[|files| - 1];
      Reconciled(catalog, files[..|files| - 1])[last.path := Expected(catalog, last)]
  }

  /** The counters after the scan has handled the given files. */
  function Tally(catalog: map<string, FileRow>, files: seq<WalkEntry>): (stats: Stats)
    requires forall e | e in files :: e.modTime.Some?
    ensures stats.scanned == |files| == stats.added + stats.updated + stats.skipped
  {
    if files == [] then Stats(0, 0, 0, 0)
    else Tallied(Tally(catalog, files[..|files| - 1]), Classify(catalog, files[|files| - 1]))
  }

  /** Rows for paths the scan did not reach are as they were, and rows are never deleted:
      the scanned paths are added to the catalog's keys. */
  lemma ReconciledRows(catalog: map<string, FileRow>, files: seq<WalkEntry>)
    requires forall e | e in files :: e.modTime.Some?
    requires DistinctPaths(files)
    ensures Reconciled(catalog, files).Keys == catalog.Keys + PathsOf(files)
    ensures forall p | p in catalog && p !in PathsOf(files) :: Reconciled(catalog, files)[p] == catalog[p]
    ensures forall e | e in files :: Reconciled(catalog, files)[e.path] == Expected(catalog, e)
  {
    ReconciledOutside(catalog, files);
    ReconciledInside(catalog, files);
  }

  lemma {:induction false} ReconciledOutside(catalog: map<string, FileRow>, files: seq<WalkEntry>)
    requires forall e | e in files :: e.modTime.Some?
    ensures Reconciled(catalog, files).Keys == catalog.Keys + PathsOf(files)
    ensures forall p | p in catalog && p !in PathsOf(files) :: Reconciled(catalog, files)[p] == catalog[p]
    decreases |files|
  {
    if files != [] {
      var init := files[..|files| - 1];
      var last := files[|files| - 1];
      assert forall e | e in init :: e in files;
      ReconciledOutside(catalog, init);
      assert files == init + [last];
      PathsOfAppend(init, last);
    }
  }

  lemma {:induction false} ReconciledInside(catalog: map<string, FileRow>, files: seq<WalkEntry>)
    requires forall e | e in files :: e.modTime.Some?
    requires DistinctPaths(files)
    ensures forall e | e in files :: e.path in Reconciled(catalog, files) && Reconciled(catalog, files)[e.path] == Expected(catalog, e)
    decreases |files|
  {
    if files != [] {
      var init := files[..|files| - 1];
      var last := files[|files| - 1];
      assert forall e | e in init :: e in files;
      ReconciledInside(catalog, init);
      forall e | e in files
        ensures e.path in Reconciled(catalog, files) && Reconciled(catalog, files)[e.path] == Expected(catalog, e)
      {
        if e != last {
          var i :| 0 <= i < |files| && files[i] == e;
          assert i < |files| - 1;
          assert init[i] == e;
          assert e.path in PathsOf(init);
        }
      }
    }
  }

  /** Scanning an unchanged tree again writes nothing: every reached file is then recorded
      with its mtime, so each decision is Skip and the catalog stays as it is. */
  lemma RescanWritesNothing(catalog: map<string, FileRow>, files: seq<WalkEntry>)
    requires forall e | e in files :: e.modTime.Some?
    requires DistinctPaths(files)
    ensures var once := Reconciled(catalog, files);
      Reconciled(once, files) == once && Tally(once, files).added == 0 && Tally(once, files).updated == 0
  {
    var once := Reconciled(catalog, files);
    ReconciledRows(catalog, files);
    assert forall e | e in files :: e.path in once && once[e.path].modTime == e.modTime.value;
    AllSkipped(once, files);
  }

  lemma {:induction false} AllSkipped(catalog: map<string, FileRow>, files: seq<WalkEntry>)
    requires forall e | e in files :: e.modTime.Some? && e.path in catalog && catalog[e.path].modTime == e.modTime.value
    ensures Reconciled(catalog, files) == catalog
    ensures Tally(catalog, files).added == 0 && Tally(catalog, files).updated == 0
    decreases |files|
  {
    if files != [] {
      var init := files[..|files| - 1];
      var last := files[|files| - 1];
      assert forall e | e in init :: e in files;
      AllSkipped(catalog, init);
      assert catalog[last.path := catalog[last.path]] == catalog;
    }
  }

  // ---------------------------------------------------------------------
  // LoadFileMap and RunQuickScan

  lemma ReachedUnfold(walk: seq<WalkEntry>, i: nat, root: string, pruned: seq<string>)
    requires i < |walk|
    ensures Reached(walk[i..], root, pruned)
      == (if IsReachedFile(walk[i], pruned) then [walk[i]] else []) + Reached(walk[i + 1..], root, PrunedAfter(walk[i], root, pruned))
  {
    assert walk[i..][1..] == walk[i + 1..];
  }

  /** A reached entry's path is new to the files handled so far, since the walk never repeats a path. */
  lemma FreshPath(walk: seq<WalkEntry>, i: nat, done: seq<WalkEntry>)
    requires i < |walk| && walk[i].modTime.Some?
    requires DistinctPaths(walk)
    requires forall d | d in done :: d in walk[..i] && d.modTime.Some?
    requires DistinctPaths(done)
    ensures walk[i].path !in PathsOf(done)
    ensures forall d | d in done + [walk[i]] :: d in walk[..i + 1] && d.modTime.Some?
    ensures DistinctPaths(done + [walk[i]])
  {
    DistinctIndices(walk);
    forall d | d in done ensures d.path != walk[i].path {
      var j :| 0 <= j < i && walk[..i][j] == d;
    }
    assert forall d | d in walk[..i] :: d in walk[..i + 1];
    assert (done + [walk[i]])[..|done|] == done;
  }

  /** One reached file moves the scan from the files handled so far to one more. */
  lemma ScanStep(catalog: map<string, FileRow>, done: seq<WalkEntry>, e: WalkEntry, root: string, existing: map<string, int>)
    requires e.modTime.Some? && HasPrefix(e.path, root)
    requires forall d | d in done :: d.modTime.Some?
    requires DistinctPaths(done) && e.path !in PathsOf(done)
    requires existing == Loaded(catalog, root) - PathsOf(done)
    ensures var d := Decide(existing, e.path, e.modTime.value);
      && Apply(Reconciled(catalog, done), e, d) == Reconciled(catalog, done + [e])
      && Tallied(Tally(catalog, done), d) == Tally(catalog, done + [e])
      && existing - {e.path} == Loaded(catalog, root) - PathsOf(done + [e])
  {
    DecideIsClassify(catalog, done, e, root, existing);
    var next := done + [e];
    assert next[..|next| - 1] == done;
    StepCatalog(catalog, done, e);
    PathsOfAppend(done, e);
  }

  /** Against the loaded map, the scan's decision is the one the starting catalog dictates. */
  lemma DecideIsClassify(catalog: map<string, FileRow>, done: seq<WalkEntry>, e: WalkEntry, root: string, existing: map<string, int>)
    requires e.modTime.Some? && HasPrefix(e.path, root)
    requires e.path !in PathsOf(done)
    requires existing == Loaded(catalog, root) - PathsOf(done)
    ensures Decide(existing, e.path, e.modTime.value) == Classify(catalog, e)
  {
    assert e.path in existing <==> e.path in catalog;
  }

  lemma PathsOfAppend(done: seq<WalkEntry>, e: WalkEntry)
    ensures PathsOf(done + [e]) == PathsOf(done) + {e.path}
  {
    assert forall x | x in done + [e] :: x in done || x == e;
    assert e in done + [e];
    assert forall x | x in done :: x in done + [e];
  }

  lemma StepCatalog(catalog: map<string, FileRow>, done: seq<WalkEntry>, e: WalkEntry)
    requires e.modTime.Some?
    requires forall d | d in done :: d.modTime.Some?
    requires e.path !in PathsOf(done)
    ensures Apply(Reconciled(catalog, done), e, Classify(catalog, e)) == Reconciled(catalog, done + [e])
  {
    ReconciledOutside(catalog, done);
    var current := Reconciled(catalog, done);
    var next := done + [e];
    assert next[..|next| - 1] == done;
    assert e.path in current <==> e.path in catalog;
    assert e.path in catalog ==> current[e.path] == catalog[e.path];
    if Classify(catalog, e) == Skip {
      assert current[e.path := current[e.path]] == current;
    }
  }

  /** The rows LoadFileMap selects (path LIKE root%, read as a prefix test). */
  ghost function Loaded(catalog: map<string, FileRow>, root: string): map<string, int> {
    map p | p in catalog && HasPrefix(p, root) :: catalog[p].modTime
  }

  /** The reached files of the walk, split at entry i after one more step. */
  lemma AdvanceReached(walk: seq<WalkEntry>, i: nat, root: string, pruned: seq<string>, done: seq<WalkEntry>)
    requires i < |walk|
    requires Reached(walk, root, []) == done + Reached(walk[i..], root, pruned)
    ensures Reached(walk, root, [])
      == done + (if IsReachedFile(walk[i], pruned) then [walk[i]] else [])
        + Reached(walk[i + 1..], root, PrunedAfter(walk[i], root, pruned))
  {
    ReachedUnfold(walk, i, root, pruned);
    var x := if IsReachedFile(walk[i], pruned) then [walk[i]] else [];
    var rest := Reached(walk[i + 1..], root, PrunedAfter(walk[i], root, pruned));
    AppendAssoc(done, x, rest);
  }

  /** Entries handled before step i were handled before step i + 1. */
  lemma WalkPrefixGrows(walk: seq<WalkEntry>, i: nat, done: seq<WalkEntry>)
    requires i < |walk|
    requires forall d | d in done :: d in walk[..i] && d.modTime.Some?
    ensures forall d | d in done :: d in walk[..i + 1] && d.modTime.Some?
  {
    assert forall d | d in walk[..i] :: d in walk[..i + 1];
  }

  /** The loop body of RunQuickScan: one callback, tracked against the reconciliation of the
      files handled so far. */
  method VisitStep(scan: Scan, store: Store, e: WalkEntry, ghost catalog: map<string, FileRow>, ghost done: seq<WalkEntry>)
    returns (ghost next: seq<WalkEntry>)
    requires scan.Valid() && store.Valid() && HasPrefix(e.path, scan.root)
    requires forall d | d in done :: d.modTime.Some?
    requires DistinctPaths(done) && (IsReachedFile(e, scan.pruned) ==> e.path !in PathsOf(done))
    requires store.catalog == Reconciled(catalog, done)
    requires scan.stats == Tally(catalog, done)
    requires scan.existing == Loaded(catalog, scan.root) - PathsOf(done)
    modifies scan, store
    ensures scan.Valid() && store.Valid()
    ensures next == done + (if IsReachedFile(e, old(scan.pruned)) then [e] else [])
    ensures scan.pruned == PrunedAfter(e, scan.root, old(scan.pruned))
    ensures forall d | d in next :: d.modTime.Some?
    ensures DistinctPaths(next)
    ensures store.catalog == Reconciled(catalog, next)
    ensures scan.stats == Tally(catalog, next)
    ensures scan.existing == Loaded(catalog, scan.root) - PathsOf(next)
    ensures store.vectors == old(store.vectors) && store.extIcons == old(store.extIcons)
  {
    if IsReachedFile(e, scan.pruned) {
      ScanStep(catalog, done, e, scan.root, scan.existing);
      next := done + [e];
      assert forall d | d in next :: d in done || d == e;
      assert next[..|next| - 1] == done;
    } else {
      next := done;
    }
    scan.Visit(store, e);
  }

  /** The RunQuickScan loop invariant after the first i walk entries, `done` being the
      files among them that reached the callback. */
  ghost predicate Walking(scan: Scan, store: Store, walk: seq<WalkEntry>, i: nat, catalog: map<string, FileRow>,
                          done: seq<WalkEntry>, vectors: seq<VectorRow>, extIcons: map<string, Option<string>>)
    reads scan, store
  {
    && i <= |walk|
    && scan.Valid() && store.Valid()
    && Reached(walk, scan.root, []) == done + Reached(walk[i..], scan.root, scan.pruned)
    && (forall d | d in done :: d in walk[..i] && d.modTime.Some?)
    && DistinctPaths(done)
    && store.catalog == Reconciled(catalog, done)
    && scan.stats == Tally(catalog, done)
    && scan.existing == Loaded(catalog, scan.root) - PathsOf(done)
    && store.vectors == vectors && store.extIcons == extIcons
  }

  /** One iteration of the RunQuickScan loop: the walk entry i goes to the callback. */
  method WalkStep(scan: Scan, store: Store, walk: seq<WalkEntry>, i: nat, ghost catalog: map<string, FileRow>, ghost done: seq<WalkEntry>)
    returns (ghost next: seq<WalkEntry>)
    requires i < |walk|
    requires forall e | e in walk :: HasPrefix(e.path, scan.root)
    requires DistinctPaths(walk)
    requires Walking(scan, store, walk, i, catalog, done, store.vectors, store.extIcons)
    modifies scan, store
    ensures Walking(scan, store, walk, i + 1, catalog, next, old(store.vectors), old(store.extIcons))
  {
    AdvanceReached(walk, i, scan.root, scan.pruned, done);
    if IsReachedFile(walk[i], scan.pruned) {
      FreshPath(walk, i, done);
    } else {
      WalkPrefixGrows(walk, i, done);
    }
    assert walk[i] in walk;
    next := VisitStep(scan, store, walk[i], catalog, done);
  }

  /** LoadFileMap: path -> modified_time for every stored path under the root. */
  method LoadFileMap(store: Store, root: string) returns (fileMap: map<string, int>)
    requires store.Valid()
    ensures fileMap == Loaded(store.catalog, root)
  {
    fileMap := map[];
    var rest := store.pathIndex.Keys;
    while rest != {}
      invariant rest <= store.pathIndex.Keys
      invariant fileMap == map p | p in store.pathIndex.Keys - rest && HasPrefix(p, root) :: store.files[store.pathIndex[p]].modTime
      decreases |rest|
    {
      var path :| path in rest;
      if HasPrefix(path, root) {
        fileMap := fileMap[path := store.files[store.pathIndex[path]].modTime];
      }
      rest := rest - {path};
    }
  }

  /** RunQuickScan: every file the walk reaches is reconciled against the stored rows under
      the root.  Paths under the root that the walk does not reach are left alone. */
  method RunQuickScan(store: Store, root: string, walk: seq<WalkEntry>) returns (stats: Stats, batchCommits: nat)
    requires store.Valid()
    requires forall e | e in walk :: HasPrefix(e.path, root)
    requires DistinctPaths(walk)
    modifies store
    ensures store.Valid()
    ensures store.catalog == Reconciled(old(store.catalog), Reached(walk, root, []))
    ensures stats == Tally(old(store.catalog), Reached(walk, root, []))
    ensures batchCommits == (stats.added + stats.updated) / BatchSize
    ensures store.vectors == old(store.vectors) && store.extIcons == old(store.extIcons)
  {
    ghost var catalog := store.catalog;
    var existingFiles := LoadFileMap(store, root);
    var scan := new Scan(root, existingFiles);
    ghost var done: seq<WalkEntry> := [];
    var i := 0;
    while i < |walk|
      invariant 0 <= i <= |walk| && scan.root == root
      invariant Walking(scan, store, walk, i, catalog, done, old(store.vectors), old(store.extIcons))
    {
      done := WalkStep(scan, store, walk, i, catalog, done);
      i := i + 1;
    }
    assert walk[i..] == [];
    assert done + [] == done;
    stats, batchCommits := scan.stats, scan.batchCommits;
  }
}
