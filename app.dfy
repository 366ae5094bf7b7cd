/**
  app.go: what the desktop front end asks of the engine.  Search decorates the
  hybrid results (the settings entry, extension icons), OpenFile routes the
  settings entry to the settings screen, and loadExtIcons fills the global
  extension-icon cache.

  Windows, focus and the settings screen itself are user-interface calls and
  are not modelled: OpenFile reports the effects it asks for as a list.
 */
module App {
  import opened Wrappers
  import opened Text
  import opened Db

  const SettingsPath: string := "anything://settings"
  const SettingsSnippet: string := "Configure AI, Indexing, and Hotkeys"
  const SettingsScore: real := 1000.0
  const SettingsExtension: string := ".settings"

  /** The entry that opens the settings screen. */
  const SettingsEntry: SearchResult := SearchResult(SettingsPath, SettingsSnippet, SettingsScore, "", SettingsExtension)

  // ---------------------------------------------------------------------
  // loadExtIcons

  /** Row k of the query result was scanned and holds extension ext. */
  predicate ScannedAt(rows: seq<Option<(string, string)>>, k: int, ext: string) {
    0 <= k < |rows| && rows[k].Some? && rows[k].value.0 == ext
  }

  /** ... and no later scanned row holds ext. */
  predicate LastScannedAt(rows: seq<Option<(string, string)>>, k: int, ext: string) {
    ScannedAt(rows, k, ext) && forall j | k < j < |rows| :: !ScannedAt(rows, j, ext)
  }

  /** The cache after the rows are stored into it in order, rows that failed to scan skipped. */
  function Loaded(cache: map<string, string>, rows: seq<Option<(string, string)>>): map<string, string> {
    if rows == [] then cache
    else
      var before := Loaded(cache, rows[..|rows| - 1]);
      match rows[|rows| - 1]
      case None => before
      case Some(row) => before[row.0 := row.1]
  }

  /** An extension some row scanned maps to the icon of the last such row; any other keeps
      its entry in the cache, or stays absent. */
  lemma {:induction false} LoadedEntry(cache: map<string, string>, rows: seq<Option<(string, string)>>, ext: string)
    ensures (exists k :: ScannedAt(rows, k, ext)) ==>
      ext in Loaded(cache, rows) && exists k :: LastScannedAt(rows, k, ext) && Loaded(cache, rows)[ext] == rows[k].value.1
    ensures (forall k :: !ScannedAt(rows, k, ext)) ==>
      (ext in Loaded(cache, rows) <==> ext in cache) && (ext in cache ==> Loaded(cache, rows)[ext] == cache[ext])
    decreases |rows|
  {
    if rows != [] {
      var init := rows[..|rows| - 1];
      var n := |rows| - 1;
      LoadedEntry(cache, init, ext);
      assert forall k | 0 <= k < n :: ScannedAt(rows, k, ext) == ScannedAt(init, k, ext);
      if !ScannedAt(rows, n, ext) && exists k :: ScannedAt(rows, k, ext) {
        var k :| ScannedAt(rows, k, ext);
        assert ScannedAt(init, k, ext);
        var j :| LastScannedAt(init, j, ext) && Loaded(cache, init)[ext] == init[j].value.1;
        assert LastScannedAt(rows, j, ext);
      }
      if ScannedAt(rows, n, ext) {
        assert LastScannedAt(rows, n, ext);
      }
    }
  }

  /** The global extIconCache. */
  class ExtIconCache {
    var icons: map<string, string>

    constructor()
      ensures icons == map[]
    {
      icons := map[];
    }

    /** loadExtIcons.  `rows` is the result of the SELECT over extension_icons: None when the
        query failed, which leaves the cache as it was; otherwise one entry per row, None for a
        row that could not be scanned. */
    method Load(rows: Option<seq<Option<(string, string)>>>)
      modifies this
      ensures rows.None? ==> icons == old(icons)
      ensures rows.Some? ==> icons == Loaded(old(icons), rows.value)
    {
      if rows.None? {
        return;
      }
      var i := 0;
      while i < |rows.value|
        invariant 0 <= i <= |rows.value|
        invariant icons == Loaded(old(icons), rows.value[..i])
      {
        assert rows.value[..i + 1][..i] == rows.value[..i];
        var row := rows.value[i];
        if row.Some? {
          icons := icons[row.value.0 := row.value.1];
        }
        i := i + 1;
      }
      assert rows.value[..i] == rows.value;
    }
  }

  // ---------------------------------------------------------------------
  // Search

  /** The settings entry is offered when the lower-cased query occurs inside "settings" or
      inside "config" (the query is the substring, not the other way round). */
  predicate OffersSettings(query: string) {
    Contains("settings", Lower(query)) || Contains("config", Lower(query))
  }

  /** A query longer than "settings" never brings up the settings entry, so "open settings"
      does not. */
  lemma LongQueryNoSettings(query: string)
    requires |query| > |"settings"|
    ensures !OffersSettings(query)
  {
    assert |Lower(query)| == |query|;
  }

  /** Every non-empty piece of "settings" or "config", in any case, does. */
  lemma PieceOffersSettings(query: string, word: string, i: nat, j: nat)
    requires word == "settings" || word == "config"
    requires i <= j <= |word| && Lower(query) == word[i..j]
    ensures OffersSettings(query)
  {
    assert OccursAt(word, Lower(query), i);
  }

  /** Icon fill: the result is unchanged except that an empty icon takes the cached icon of
      its lower-cased extension, when there is one. */
  predicate IconFilled(before: SearchResult, after: SearchResult, icons: map<string, string>) {
    && after == before.(iconData := after.iconData)
    && (before.iconData != "" ==> after.iconData == before.iconData)
    && (before.iconData == "" ==>
          after.iconData == (if Lower(before.extension) in icons then icons[Lower(before.extension)] else ""))
  }

  /** Search, on the results HybridSearch returned for the query (its error is ignored):
      nothing for the empty query; otherwise the settings entry first when the query names it,
      then the hybrid results in their order, each with its icon filled from the cache. */
  method Search(query: string, hybrid: seq<SearchResult>, cache: ExtIconCache) returns (results: seq<SearchResult>)
    ensures query == "" ==> results == []
    ensures query != "" ==>
      var shift := if OffersSettings(query) then 1 else 0;
      && |results| == |hybrid| + shift
      && (OffersSettings(query) ==> IconFilled(SettingsEntry, results[0], cache.icons))
      && forall k | 0 <= k < |hybrid| :: IconFilled(hybrid[k], results[k + shift], cache.icons)
  {
    if query == "" {
      return [];
    }
    results := hybrid;
    var lowerQ := Lower(query);
    if Contains("settings", lowerQ) || Contains("config", lowerQ) {
      results := [SettingsEntry] + results;
    }
    ghost var base := results;
    var i := 0;
    while i < |results|
      invariant 0 <= i <= |results| == |base|
      invariant forall k | 0 <= k < i :: IconFilled(base[k], results[k], cache.icons)
      invariant forall k | i <= k < |results| :: results[k] == base[k]
    {
      if results[i].iconData == "" {
        var ext := Lower(results[i].extension);
        if ext in cache.icons {
          results := results[i := results[i].(iconData := cache.icons[ext])];
        }
      }
      i := i + 1;
    }
    if OffersSettings(query) {
      assert forall k | 0 <= k < |hybrid| :: base[k + 1] == hybrid[k];
    }
  }

  // ---------------------------------------------------------------------
  // OpenFile

  datatype Platform = Windows | Darwin | OtherPlatform

  /** What OpenFile asks for, in order. */
  datatype Effect = ShowSettings | IncrementUsage(path: string) | Start(command: seq<string>) | HideWindow

  /** The command that opens a path with its default application: the path is one argument,
      the last one. */
  function OpenCommand(platform: Platform, path: string): (command: seq<string>)
    ensures |command| >= 2 && command[|command| - 1] == path
  {
    match platform
    case Windows => ["cmd", "/c", "start", "", path]
    case Darwin => ["open", path]
    case OtherPlatform => ["xdg-open", path]
  }

  /** OpenFile: the settings entry opens the settings screen and nothing else; any other path
      is counted as used, opened with its default application, and the window is hidden. */
  function OpenFile(path: string, platform: Platform): (effects: seq<Effect>)
    ensures path == SettingsPath <==> ShowSettings in effects
    ensures path == SettingsPath ==> effects == [ShowSettings]
    ensures path != SettingsPath ==>
      && IncrementUsage(path) in effects
      && |effects| == 3 && effects[1].Start? && effects[1].command == OpenCommand(platform, path)
      && effects[|effects| - 1] == HideWindow
  {
    if path == SettingsPath then [ShowSettings]
    else [IncrementUsage(path), Start(OpenCommand(platform, path)), HideWindow]
  }
}
