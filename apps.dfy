/**
  core/apps.go: the scan of the Start Menu folders for shortcuts and programs.

  The environment (the operating system and the two variables) and the
  directory walk are inputs: `walk(root)` is what filepath.WalkDir reports
  for a root, entries whose error or Info() failed left out.  Each entry
  carries the icon GetAppIconBase64 produced for it.  `txReady` says whether
  the transaction and both statements could be prepared.  Statements take
  effect at once; the commit at the end is not modelled.
 */
module Apps {
  import opened Wrappers
  import opened Text
  import opened Db

  const StartMenu: string := "\\Microsoft\\Windows\\Start Menu\\Programs"

  /** One non-failing entry of the walk, with its modification time and extracted icon. */
  datatype AppEntry = AppEntry(path: string, name: string, isDir: bool, modTime: int, icon: string)

  /** getAppPaths: on Windows, the Start Menu folder under each of ProgramData and APPDATA
      that is set, in that order; nothing elsewhere. */
  function AppPaths(isWindows: bool, programData: string, appData: string): (paths: seq<string>)
    ensures !isWindows ==> paths == []
    ensures isWindows ==> |paths| == (if programData != "" then 1 else 0) + (if appData != "" then 1 else 0)
    ensures isWindows && programData != "" ==> paths[0] == programData + StartMenu
    ensures isWindows && appData != "" ==> paths[|paths| - 1] == appData + StartMenu
  {
    if !isWindows then []
    else
      (if programData != "" then [programData + StartMenu] else [])
      + (if appData != "" then [appData + StartMenu] else [])
  }

  predicate IsAppExtension(ext: string) {
    ext == ".lnk" || ext == ".exe" || ext == ".url"
  }

  /** The lower-cased extension of an entry's name. */
  function AppExt(e: AppEntry): string {
    Lower(Ext(e.name))
  }

  /** The entries the scan acts on: files with an application extension. */
  predicate IsApp(e: AppEntry) {
    !e.isDir && IsAppExtension(AppExt(e))
  }

  /** The summary: the name without the lower-cased extension when it ends in it as written,
      then " Application". */
  function AppSummary(name: string, ext: string): (s: string)
    ensures HasSuffix(name, ext) ==> s == name[..|name| - |ext|] + " Application"
    ensures !HasSuffix(name, ext) ==> s == name + " Application"
  {
    TrimSuffix(name, ext) + " Application"
  }

  /** A name whose extension is not written in lower case keeps it: "X.LNK" gives
      "X.LNK Application". */
  lemma UpperExtensionKept(name: string)
    requires Lower(Ext(name)) != Ext(name)
    ensures AppSummary(name, Lower(Ext(name))) == name + " Application"
  {
  }

  /** A lower-case extension is cut off the name. */
  lemma LowerExtensionTrimmed(name: string)
    requires Lower(Ext(name)) == Ext(name)
    ensures AppSummary(name, Lower(Ext(name))) == name[..|name| - |Ext(name)|] + " Application"
  {
  }

  /** The row inserted for a new application. */
  function AppRow(e: AppEntry): FileRow {
    FileRow(e.path, e.name, AppExt(e), e.modTime, Some(AppSummary(e.name, AppExt(e))), Some(e.icon))
  }

  /** The effect of one entry: a new path is inserted, a stored one has its time, summary
      and icon replaced without comparing times; other entries change nothing. */
  ghost function ApplyApp(catalog: map<string, FileRow>, e: AppEntry): map<string, FileRow> {
    if !IsApp(e) then catalog
    else if e.path !in catalog then catalog[e.path := AppRow(e)]
    else catalog[e.path := catalog[e.path].(modTime := e.modTime, summary := Some(AppSummary(e.name, AppExt(e))), icon := Some(e.icon))]
  }

  ghost function AppsApplied(catalog: map<string, FileRow>, entries: seq<AppEntry>): map<string, FileRow>
  {
    if entries == [] then catalog
    else ApplyApp(AppsApplied(catalog, entries[..|entries| - 1]), entries[|entries| - 1])
  }

  /** The number of successful inserts. */
  ghost function NewApps(catalog: map<string, FileRow>, entries: seq<AppEntry>): nat
  {
    if entries == [] then 0
    else
      var before := AppsApplied(catalog, entries[..|entries| - 1]);
      var e := entries[|entries| - 1];
      NewApps(catalog, entries[..|entries| - 1]) + (if IsApp(e) && e.path !in before then 1 else 0)
  }

  /** The scan keeps every stored path and stores every application path it sees. */
  lemma {:induction false} AppsAppliedKeys(catalog: map<string, FileRow>, entries: seq<AppEntry>)
    ensures catalog.Keys <= AppsApplied(catalog, entries).Keys
    ensures forall k | 0 <= k < |entries| && IsApp(entries[k]) :: entries[k].path in AppsApplied(catalog, entries)
    decreases |entries|
  {
    if entries != [] {
      var init := entries[..|entries| - 1];
      AppsAppliedKeys(catalog, init);
      assert forall k | 0 <= k < |init| :: init[k] == entries[k];
    }
  }

  /** Every path the scan adds is the path of an application it saw. */
  lemma {:induction false} AppsAppliedNew(catalog: map<string, FileRow>, entries: seq<AppEntry>)
    ensures forall p | p in AppsApplied(catalog, entries) && p !in catalog ::
      exists k | 0 <= k < |entries| :: IsApp(entries[k]) && entries[k].path == p
    decreases |entries|
  {
    if entries != [] {
      var init := entries[..|entries| - 1];
      AppsAppliedNew(catalog, init);
      forall p | p in AppsApplied(catalog, entries) && p !in catalog
        ensures exists k | 0 <= k < |entries| :: IsApp(entries[k]) && entries[k].path == p
      {
        if p in AppsApplied(catalog, init) {
          var k :| 0 <= k < |init| && IsApp(init[k]) && init[k].path == p;
          assert entries[k] == init[k];
        } else {
          assert IsApp(entries[|entries| - 1]) && entries[|entries| - 1].path == p;
        }
      }
    }
  }

  /** A stored row that no application entry names is left as it was. */
  lemma {:induction false} AppsAppliedUntouched(catalog: map<string, FileRow>, entries: seq<AppEntry>, p: string)
    requires p in catalog
    requires forall k | 0 <= k < |entries| :: !(IsApp(entries[k]) && entries[k].path == p)
    ensures p in AppsApplied(catalog, entries) && AppsApplied(catalog, entries)[p] == catalog[p]
    decreases |entries|
  {
    if entries != [] {
      var init := entries[..|entries| - 1];
      assert forall k | 0 <= k < |init| :: init[k] == entries[k];
      AppsAppliedUntouched(catalog, init, p);
    }
  }

  /** After the scan each application's row holds the time, summary and icon of its last
      entry, with a lower-case extension when the scan inserted it. */
  lemma {:induction false} AppsAppliedLast(catalog: map<string, FileRow>, entries: seq<AppEntry>, k: nat)
    requires k < |entries| && IsApp(entries[k])
    requires forall j | k < j < |entries| :: entries[j].path != entries[k].path
    ensures entries[k].path in AppsApplied(catalog, entries)
    ensures var row := AppsApplied(catalog, entries)[entries[k].path];
      row.modTime == entries[k].modTime && row.icon == Some(entries[k].icon)
      && row.summary == Some(AppSummary(entries[k].name, AppExt(entries[k])))
    decreases |entries|
  {
    var init := entries[..|entries| - 1];
    var last := entries[|entries| - 1];
    assert AppsApplied(catalog, entries) == ApplyApp(AppsApplied(catalog, init), last);
    if k < |entries| - 1 {
      AppsAppliedLast(catalog, init, k);
      assert init[k] == entries[k];
      ApplyAppOther(AppsApplied(catalog, init), last, entries[k].path);
    } else {
      ApplyAppSelf(AppsApplied(catalog, init), last);
    }
  }

  /** An entry changes no other path's row. */
  lemma ApplyAppOther(catalog: map<string, FileRow>, e: AppEntry, p: string)
    requires p in catalog && e.path != p
    ensures p in ApplyApp(catalog, e) && ApplyApp(catalog, e)[p] == catalog[p]
  {
  }

  /** An application entry leaves its own row with its time, summary and icon. */
  lemma ApplyAppSelf(catalog: map<string, FileRow>, e: AppEntry)
    requires IsApp(e)
    ensures e.path in ApplyApp(catalog, e)
    ensures var row := ApplyApp(catalog, e)[e.path];
      row.modTime == e.modTime && row.icon == Some(e.icon) && row.summary == Some(AppSummary(e.name, AppExt(e)))
  {
  }

  /** Scanning the same entries again adds no application. */
  lemma {:induction false} RescanAddsNothing(catalog: map<string, FileRow>, entries: seq<AppEntry>)
    ensures NewApps(AppsApplied(catalog, entries), entries) == 0
  {
    var after := AppsApplied(catalog, entries);
    AppsAppliedKeys(catalog, entries);
    NoNewWhenPresent(after, entries);
  }

  /** When every application path is already stored, nothing is inserted. */
  lemma {:induction false} NoNewWhenPresent(catalog: map<string, FileRow>, entries: seq<AppEntry>)
    requires forall k | 0 <= k < |entries| && IsApp(entries[k]) :: entries[k].path in catalog
    ensures NewApps(catalog, entries) == 0
    decreases |entries|
  {
    if entries != [] {
      var init := entries[..|entries| - 1];
      NoNewWhenPresent(catalog, init);
      AppsAppliedKeys(catalog, init);
    }
  }

  /** One entry of the walk callback. */
  method VisitApp(store: Store, e: AppEntry) returns (added: bool)
    requires store.Valid()
    modifies store
    ensures store.Valid()
    ensures store.catalog == ApplyApp(old(store.catalog), e)
    ensures added <==> IsApp(e) && e.path !in old(store.catalog)
    ensures store.vectors == old(store.vectors) && store.extIcons == old(store.extIcons)
  {
    added := false;
    if !e.isDir {
      var ext := Lower(Ext(e.name));
      if ext == ".lnk" || ext == ".exe" || ext == ".url" {
        var appSummary := TrimSuffix(e.name, ext) + " Application";
        if e.path !in store.pathIndex {
          var ok := store.InsertFile(FileRow(e.path, e.name, ext, e.modTime, Some(appSummary), Some(e.icon)));
          added := ok;
        } else {
          store.UpdateApp(e.path, e.modTime, appSummary, e.icon);
        }
      }
    }
  }

  /** The entries of every root, root after root. */
  function AllEntries(roots: seq<string>, walk: string -> seq<AppEntry>): seq<AppEntry> {
    if roots == [] then [] else AllEntries(roots[..|roots| - 1], walk) + walk(roots[|roots| - 1])
  }

  /** The store after the entries seen so far, with the count of new applications. */
  ghost predicate Scanned(store: Store, catalog: map<string, FileRow>, seen: seq<AppEntry>, count: nat,
                          vectors: seq<VectorRow>, extIcons: map<string, Option<string>>)
    reads store
  {
    && store.Valid()
    && store.catalog == AppsApplied(catalog, seen) && count == NewApps(catalog, seen)
    && store.vectors == vectors && store.extIcons == extIcons
  }

  /** One turn of the walk, in terms of the entries seen so far. */
  method VisitStep(store: Store, e: AppEntry, ghost catalog: map<string, FileRow>, ghost seen: seq<AppEntry>, count: nat,
                   ghost vectors: seq<VectorRow>, ghost extIcons: map<string, Option<string>>)
    returns (count': nat)
    requires Scanned(store, catalog, seen, count, vectors, extIcons)
    modifies store
    ensures Scanned(store, catalog, seen + [e], count', vectors, extIcons)
  {
    assert (seen + [e])[..|seen|] == seen;
    var added := VisitApp(store, e);
    count' := if added then count + 1 else count;
  }

  /** The walk of one root. */
  method ScanRoot(store: Store, entries: seq<AppEntry>, ghost catalog: map<string, FileRow>, ghost done: seq<AppEntry>, count: nat,
                  ghost vectors: seq<VectorRow>, ghost extIcons: map<string, Option<string>>)
    returns (count': nat)
    requires Scanned(store, catalog, done, count, vectors, extIcons)
    modifies store
    ensures Scanned(store, catalog, done + entries, count', vectors, extIcons)
  {
    count' := count;
    var i := 0;
    assert done + entries[..0] == done;
    while i < |entries|
      invariant 0 <= i <= |entries|
      invariant Scanned(store, catalog, done + entries[..i], count', vectors, extIcons)
    {
      ExtendPrefix(done, entries, i);
      count' := VisitStep(store, entries[i], catalog, done + entries[..i], count', vectors, extIcons);
      i := i + 1;
    }
    assert entries[..i] == entries;
  }

  lemma ExtendPrefix<T>(done: seq<T>, entries: seq<T>, i: nat)
    requires i < |entries|
    ensures done + entries[..i + 1] == (done + entries[..i]) + [entries[i]]
  {
    assert entries[..i + 1] == entries[..i] + [entries[i]];
  }

  /** RunAppScan: nothing happens without a root or without the transaction; otherwise every
      entry of every root is applied and the new applications are counted. */
  method RunAppScan(store: Store, isWindows: bool, programData: string, appData: string,
                    txReady: bool, walk: string -> seq<AppEntry>) returns (count: nat)
    requires store.Valid()
    modifies store
    ensures store.Valid()
    ensures AppPaths(isWindows, programData, appData) == [] || !txReady ==> store.catalog == old(store.catalog) && count == 0
    ensures AppPaths(isWindows, programData, appData) != [] && txReady ==>
      var entries := AllEntries(AppPaths(isWindows, programData, appData), walk);
      store.catalog == AppsApplied(old(store.catalog), entries) && count == NewApps(old(store.catalog), entries)
    ensures store.vectors == old(store.vectors) && store.extIcons == old(store.extIcons)
  {
    count := 0;
    var appPaths := AppPaths(isWindows, programData, appData);
    if |appPaths| == 0 || !txReady {
      return;
    }
    ghost var catalog := store.catalog;
    var r := 0;
    while r < |appPaths|
      invariant 0 <= r <= |appPaths|
      invariant Scanned(store, catalog, AllEntries(appPaths[..r], walk), count, old(store.vectors), old(store.extIcons))
    {
      assert appPaths[..r + 1][..r] == appPaths[..r];
      count := ScanRoot(store, walk(appPaths[r]), catalog, AllEntries(appPaths[..r], walk), count, old(store.vectors), old(store.extIcons));
      r := r + 1;
    }
    assert appPaths[..r] == appPaths;
  }
}
