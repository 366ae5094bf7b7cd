/**
  core/hybrid.go: HybridSearch merges the keyword and the semantic results by
  path, boosts launchers, ranks by the merged score and keeps fifteen.

  The two searches that Go runs in goroutines are run one after the other; an
  error from either only drops that branch's results.  Scores are reals
  (float32 rounding is not modelled).
 */
module Hybrid {
  import opened Wrappers
  import opened Text
  import opened Db
  import opened Sorting
  import Nlp
  import VectorSearch

  const WeightVector: real := 1.0
  const WeightKeyword: real := 1.2
  const BothBonus: real := 0.5
  const LauncherBoost: real := 10.0
  const PrefixBoost: real := 2.0
  const OutputLimit: nat := 15

  /** MergedResult: the result shown, and the score it is ranked by. */
  datatype Merged = Merged(result: SearchResult, finalScore: real)

  // ---------------------------------------------------------------------
  // The merge by path

  /** Every entry is filed under its result's path. */
  predicate KeyedByPath(m: map<string, Merged>) {
    forall p | p in m :: m[p].result.path == p
  }

  /** scoreMap after the keyword loop: each result under its path, at 1.2 times its score;
      a later result with the same path replaces an earlier one. */
  function KeywordEntries(keyword: seq<SearchResult>): (m: map<string, Merged>)
    ensures KeyedByPath(m)
  {
    if keyword == [] then map[]
    else
      var res := keyword[|keyword| - 1];
      KeywordEntries(keyword[..|keyword| - 1])[res.path := Merged(res, res.score * WeightKeyword)]
  }

  /** One turn of the vector loop: a path already present gains the vector score plus the
      bonus, and takes the vector snippet only when that is strictly longer; a new path
      enters at the vector score. */
  function MergeVector(m: map<string, Merged>, res: SearchResult): map<string, Merged> {
    if res.path in m then
      var existing := m[res.path];
      var snippet := if |res.snippet| > |existing.result.snippet| then res.snippet else existing.result.snippet;
      m[res.path := Merged(existing.result.(snippet := snippet), existing.finalScore + res.score * WeightVector + BothBonus)]
    else
      m[res.path := Merged(res, res.score * WeightVector)]
  }

  /** scoreMap after the vector loop. */
  function VectorEntries(m: map<string, Merged>, vector: seq<SearchResult>): map<string, Merged> {
    if vector == [] then m
    else MergeVector(VectorEntries(m, vector[..|vector| - 1]), vector[|vector| - 1])
  }

  lemma {:induction false} VectorEntriesKeyed(m: map<string, Merged>, vector: seq<SearchResult>)
    requires KeyedByPath(m)
    ensures KeyedByPath(VectorEntries(m, vector))
    ensures VectorEntries(m, vector).Keys == m.Keys + PathsOf(vector)
    decreases |vector|
  {
    if vector != [] {
      var init := vector[..|vector| - 1];
      VectorEntriesKeyed(m, init);
      assert vector == init + [vector[|vector| - 1]];
      PathsOfAppend(init, vector[|vector| - 1]);
    }
  }

  function PathsOf(results: seq<SearchResult>): set<string> {
    set r | r in results :: r.path
  }

  lemma PathsOfAppend(results: seq<SearchResult>, r: SearchResult)
    ensures PathsOf(results + [r]) == PathsOf(results) + {r.path}
  {
    assert forall x | x in results + [r] :: x in results || x == r;
    assert r in results + [r];
    assert forall x | x in results :: x in results + [r];
  }

  /** The result in the list for a path, when it has one, with no other result on that path. */
  predicate OnlyAt(results: seq<SearchResult>, i: int, p: string) {
    0 <= i < |results| && results[i].path == p && forall j | 0 <= j < |results| && j != i :: results[j].path != p
  }

  lemma {:induction false} KeywordEntriesAt(keyword: seq<SearchResult>, p: string)
    ensures p in KeywordEntries(keyword) <==> p in PathsOf(keyword)
    ensures forall i | OnlyAt(keyword, i, p) :: KeywordEntries(keyword)[p] == Merged(keyword[i], keyword[i].score * WeightKeyword)
    decreases |keyword|
  {
    if keyword != [] {
      var init := keyword[..|keyword| - 1];
      var last := keyword[|keyword| - 1];
      KeywordEntriesAt(init, p);
      assert keyword == init + [last];
      PathsOfAppend(init, last);
      forall i | OnlyAt(keyword, i, p) ensures KeywordEntries(keyword)[p] == Merged(keyword[i], keyword[i].score * WeightKeyword) {
        if i < |init| {
          assert OnlyAt(init, i, p) by {
            forall j | 0 <= j < |init| && j != i ensures init[j].path != p {
              assert init[j] == keyword[j];
            }
          }
        }
      }
    }
  }

  /** A vector list that never mentions p leaves p's entry alone. */
  lemma {:induction false} VectorEntriesOutside(m: map<string, Merged>, vector: seq<SearchResult>, p: string)
    requires p !in PathsOf(vector)
    ensures p in VectorEntries(m, vector) <==> p in m
    ensures p in m ==> VectorEntries(m, vector)[p] == m[p]
    decreases |vector|
  {
    if vector != [] {
      var init := vector[..|vector| - 1];
      assert vector == init + [vector[|vector| - 1]];
      PathsOfAppend(init, vector[|vector| - 1]);
      VectorEntriesOutside(m, init, p);
    }
  }

  /** The one vector result on p is merged into p's entry, whatever the other results do. */
  lemma {:induction false} VectorEntriesAt(m: map<string, Merged>, vector: seq<SearchResult>, i: nat, p: string)
    requires OnlyAt(vector, i, p)
    ensures p in VectorEntries(m, vector)
    ensures VectorEntries(m, vector)[p] == MergeVector(m, vector[i])[p]
    decreases |vector|
  {
    var init := vector[..|vector| - 1];
    var last := vector[|vector| - 1];
    if i == |vector| - 1 {
      assert p !in PathsOf(init) by {
        forall r | r in init ensures r.path != p {
          var j :| 0 <= j < |init| && init[j] == r;
          assert vector[j] == r;
        }
      }
      VectorEntriesOutside(m, init, p);
    } else {
      assert OnlyAt(init, i, p) by {
        forall j | 0 <= j < |init| && j != i ensures init[j].path != p {
          assert init[j] == vector[j];
        }
      }
      VectorEntriesAt(m, init, i, p);
      assert last.path != p;
    }
  }

  /** The merged entry of a path that each source reports at most once: keyword only at 1.2
      times its score, vector only at its score, both at 1.2 kw + v + 0.5 with the keyword
      result keeping its fields but taking a strictly longer vector snippet. */
  lemma MergedEntry(keyword: seq<SearchResult>, vector: seq<SearchResult>, p: string)
    requires p in PathsOf(keyword) || p in PathsOf(vector)
    ensures var m := VectorEntries(KeywordEntries(keyword), vector);
      && p in m
      && (forall i | OnlyAt(keyword, i, p) && p !in PathsOf(vector) ::
            m[p] == Merged(keyword[i], keyword[i].score * WeightKeyword))
      && (forall j | OnlyAt(vector, j, p) && p !in PathsOf(keyword) ::
            m[p] == Merged(vector[j], vector[j].score * WeightVector))
      && (forall i, j | OnlyAt(keyword, i, p) && OnlyAt(vector, j, p) ::
            var kw, v := keyword[i], vector[j];
            m[p] == Merged(kw.(snippet := if |v.snippet| > |kw.snippet| then v.snippet else kw.snippet),
                           kw.score * WeightKeyword + v.score * WeightVector + BothBonus))
  {
    var kws := KeywordEntries(keyword);
    KeywordEntriesAt(keyword, p);
    VectorEntriesKeyed(kws, vector);
    forall i | OnlyAt(keyword, i, p) && p !in PathsOf(vector)
      ensures VectorEntries(kws, vector)[p] == Merged(keyword[i], keyword[i].score * WeightKeyword)
    {
      assert keyword[i] in keyword;
      VectorEntriesOutside(kws, vector, p);
    }
    forall j | OnlyAt(vector, j, p) && p !in PathsOf(keyword)
      ensures VectorEntries(kws, vector)[p] == Merged(vector[j], vector[j].score * WeightVector)
    {
      VectorEntriesAt(kws, vector, j, p);
    }
    forall i, j | OnlyAt(keyword, i, p) && OnlyAt(vector, j, p)
      ensures var kw, v := keyword[i], vector[j];
        VectorEntries(kws, vector)[p] == Merged(kw.(snippet := if |v.snippet| > |kw.snippet| then v.snippet else kw.snippet),
                                                 kw.score * WeightKeyword + v.score * WeightVector + BothBonus)
    {
      assert keyword[i] in keyword;
      VectorEntriesAt(kws, vector, j, p);
    }
  }

  // ---------------------------------------------------------------------
  // Launcher boost

  predicate IsLauncher(lowerPath: string) {
    HasSuffix(lowerPath, ".lnk") || HasSuffix(lowerPath, ".exe")
  }

  /** The factor the boost loop applies to a path: 10 for a shortcut or executable, 20 when
      its lower-cased base name also starts with the lower-cased query, else 1. */
  function BoostFactor(path: string, cleanQuery: string): (f: real)
    ensures !IsLauncher(Lower(path)) <==> f == 1.0
    ensures f == LauncherBoost <==> IsLauncher(Lower(path)) && !HasPrefix(Base(Lower(path)), Lower(cleanQuery))
    ensures f == LauncherBoost * PrefixBoost <==> IsLauncher(Lower(path)) && HasPrefix(Base(Lower(path)), Lower(cleanQuery))
  {
    var lowerPath := Lower(path);
    if IsLauncher(lowerPath) then
      if HasPrefix(Base(lowerPath), Lower(cleanQuery)) then LauncherBoost * PrefixBoost else LauncherBoost
    else 1.0
  }

  /** scoreMap after the boost loop, related entry by entry to scoreMap before it. */
  predicate IsBoosted(after: map<string, Merged>, before: map<string, Merged>, cleanQuery: string) {
    && after.Keys == before.Keys
    && forall p | p in before :: after[p] == BoostedEntry(p, before[p], cleanQuery)
  }

  /** The body of the boost loop for one entry. */
  method BoostOne(path: string, item: Merged, cleanQuery: string) returns (boosted: Merged)
    ensures boosted == BoostedEntry(path, item, cleanQuery)
  {
    boosted := item;
    var lowerPath := Lower(path);
    if HasSuffix(lowerPath, ".lnk") || HasSuffix(lowerPath, ".exe") {
      boosted := boosted.(finalScore := boosted.finalScore * LauncherBoost);
      var name := Base(lowerPath);
      if HasPrefix(name, Lower(cleanQuery)) {
        boosted := boosted.(finalScore := boosted.finalScore * PrefixBoost);
      }
    } else {
      assert item.finalScore * 1.0 == item.finalScore;
    }
  }

  /** The boost loop, over the keys of scoreMap in arbitrary order. */
  method Boost(scoreMap: map<string, Merged>, cleanQuery: string) returns (boosted: map<string, Merged>)
    ensures IsBoosted(boosted, scoreMap, cleanQuery)
  {
    boosted := scoreMap;
    var rest := scoreMap.Keys;
    while rest != {}
      invariant BoostedOutside(boosted, scoreMap, rest, cleanQuery)
      decreases |rest|
    {
      ghost var some := Pick(rest);
      var path :| path in rest;
      var item := BoostOne(path, boosted[path], cleanQuery);
      BoostStep(boosted, scoreMap, rest, cleanQuery, path, item);
      boosted := boosted[path := item];
      rest := rest - {path};
    }
  }

  /** The boost loop's invariant: the keys still in `rest` are untouched, the others boosted. */
  ghost predicate BoostedOutside(boosted: map<string, Merged>, scoreMap: map<string, Merged>, rest: set<string>,
                                 cleanQuery: string)
  {
    && rest <= scoreMap.Keys && boosted.Keys == scoreMap.Keys
    && (forall p | p in rest :: boosted[p] == scoreMap[p])
    && forall p | p in scoreMap && p !in rest :: boosted[p] == BoostedEntry(p, scoreMap[p], cleanQuery)
  }

  lemma BoostStep(boosted: map<string, Merged>, scoreMap: map<string, Merged>, rest: set<string>, cleanQuery: string,
                  path: string, item: Merged)
    requires BoostedOutside(boosted, scoreMap, rest, cleanQuery) && path in rest
    requires item == BoostedEntry(path, boosted[path], cleanQuery)
    ensures BoostedOutside(boosted[path := item], scoreMap, rest - {path}, cleanQuery)
  {
  }

  /** The boost is a function of scoreMap: two boosted maps of the same map are equal. */
  lemma BoostedUnique(a: map<string, Merged>, b: map<string, Merged>, before: map<string, Merged>, cleanQuery: string)
    requires IsBoosted(a, before, cleanQuery) && IsBoosted(b, before, cleanQuery)
    ensures a == b
  {
    assert forall p | p in a :: a[p] == b[p];
  }

  // ---------------------------------------------------------------------
  // Ranking and the first fifteen

  function FinalScore(x: Merged): real {
    x.finalScore
  }

  /** finalResults: every entry of scoreMap once, in the map's iteration order. */
  predicate Enumerates(list: seq<Merged>, m: map<string, Merged>) {
    && |list| == |m|
    && (forall x | x in list :: x.result.path in m && m[x.result.path] == x)
    && (forall p | p in m :: m[p] in list)
  }

  method CollectEntries(m: map<string, Merged>) returns (list: seq<Merged>)
    requires KeyedByPath(m)
    ensures Enumerates(list, m)
  {
    list := [];
    var rest := m.Keys;
    while rest != {}
      invariant rest <= m.Keys
      invariant forall x | x in list :: x.result.path in m && m[x.result.path] == x && x.result.path !in rest
      invariant forall p | p in m && p !in rest :: m[p] in list
      invariant |list| + |rest| == |m|
      decreases |rest|
    {
      ghost var some := Pick(rest);
      var p :| p in rest;
      list := list + [m[p]];
      RemoveOne(rest, p);
      rest := rest - {p};
    }
  }

  /** sort.Slice(finalResults, greater final score first). */
  method RankEntries(list: seq<Merged>) returns (ranked: seq<Merged>)
    ensures multiset(ranked) == multiset(list)
    ensures Descending(ranked, FinalScore)
  {
    var a := new Merged[|list|](i requires 0 <= i < |list| => list[i]);
    assert a[..] == list;
    SortByKeyDescending(a, FinalScore);
    ranked := a[..];
  }

  lemma EnumeratesPermuted(list: seq<Merged>, ranked: seq<Merged>, m: map<string, Merged>)
    requires Enumerates(list, m) && multiset(ranked) == multiset(list)
    ensures Enumerates(ranked, m)
  {
    assert |ranked| == |multiset(ranked)| == |multiset(list)| == |list|;
    forall x | x in ranked ensures x in list {
      assert x in multiset(ranked);
    }
    forall p | p in m ensures m[p] in ranked {
      assert m[p] in multiset(list);
    }
  }

  /** The output: the shown results of the first fifteen ranked entries. */
  function Output(ranked: seq<Merged>): (out: seq<SearchResult>)
    ensures |out| <= OutputLimit
  {
    var n := if |ranked| < OutputLimit then |ranked| else OutputLimit;
    seq(n, i requires 0 <= i < n => ranked[i].result)
  }

  /** The output loop, breaking at index 15. */
  method TakeOutput(ranked: seq<Merged>) returns (output: seq<SearchResult>)
    ensures output == Output(ranked)
  {
    output := [];
    var i := 0;
    while i < |ranked|
      invariant 0 <= i <= |ranked| && i <= OutputLimit
      invariant output == seq(i, k requires 0 <= k < i => ranked[k].result)
    {
      if i >= OutputLimit {
        break;
      }
      output := output + [ranked[i].result];
      i := i + 1;
    }
  }

  /** The merge and ranking of HybridSearch on the two branches' results (an empty list for a
      branch that failed or did not run).  The ghost `ranked` is the sorted finalResults. */
  method MergeAndRank(cleanQuery: string, keyword: seq<SearchResult>, vector: seq<SearchResult>)
    returns (output: seq<SearchResult>, ghost ranked: seq<Merged>)
    ensures Enumerates(ranked, Ranked(cleanQuery, keyword, vector))
    ensures Descending(ranked, FinalScore)
    ensures output == Output(ranked)
  {
    var scoreMap: map<string, Merged> := map[];
    var i := 0;
    while i < |keyword|
      invariant 0 <= i <= |keyword|
      invariant scoreMap == KeywordEntries(keyword[..i])
    {
      var res := keyword[i];
      assert keyword[..i + 1][..i] == keyword[..i];
      scoreMap := scoreMap[res.path := Merged(res, res.score * WeightKeyword)];
      i := i + 1;
    }
    assert keyword[..i] == keyword;
    ghost var afterKeyword := scoreMap;
    i := 0;
    while i < |vector|
      invariant 0 <= i <= |vector|
      invariant scoreMap == VectorEntries(afterKeyword, vector[..i])
    {
      var res := vector[i];
      assert vector[..i + 1][..i] == vector[..i];
      if res.path in scoreMap {
        var existing := scoreMap[res.path];
        var snippet := existing.result.snippet;
        if |res.snippet| > |existing.result.snippet| {
          snippet := res.snippet;
        }
        scoreMap := scoreMap[res.path := Merged(existing.result.(snippet := snippet),
                                                existing.finalScore + res.score * WeightVector + BothBonus)];
      } else {
        scoreMap := scoreMap[res.path := Merged(res, res.score * WeightVector)];
      }
      i := i + 1;
    }
    assert vector[..i] == vector;
    VectorEntriesKeyed(afterKeyword, vector);
    var boosted := Boost(scoreMap, cleanQuery);
    BoostedRanked(cleanQuery, keyword, vector, boosted);
    var finalResults := CollectEntries(boosted);
    var sorted := RankEntries(finalResults);
    ranked := sorted;
    EnumeratesPermuted(finalResults, ranked, boosted);
    output := TakeOutput(sorted);
  }

  /** One entry after the boost. */
  function BoostedEntry(p: string, x: Merged, cleanQuery: string): Merged {
    x.(finalScore := x.finalScore * BoostFactor(p, cleanQuery))
  }

  /** scoreMap as it is sorted: merged, then boosted. */
  function Ranked(cleanQuery: string, keyword: seq<SearchResult>, vector: seq<SearchResult>): map<string, Merged> {
    var merged := VectorEntries(KeywordEntries(keyword), vector);
    map p | p in merged :: BoostedEntry(p, merged[p], cleanQuery)
  }

  lemma BoostedRanked(cleanQuery: string, keyword: seq<SearchResult>, vector: seq<SearchResult>, boosted: map<string, Merged>)
    requires IsBoosted(boosted, VectorEntries(KeywordEntries(keyword), vector), cleanQuery)
    ensures boosted == Ranked(cleanQuery, keyword, vector)
    ensures KeyedByPath(boosted)
  {
    var merged := VectorEntries(KeywordEntries(keyword), vector);
    var r := Ranked(cleanQuery, keyword, vector);
    assert r.Keys == merged.Keys;
    assert forall p | p in merged :: r[p] == BoostedEntry(p, merged[p], cleanQuery);
    BoostedUnique(boosted, Ranked(cleanQuery, keyword, vector), merged, cleanQuery);
    VectorEntriesKeyed(KeywordEntries(keyword), vector);
    forall p | p in boosted ensures boosted[p].result.path == p {
      assert boosted[p].result == merged[p].result;
    }
  }

  /** What HybridSearch returns: at most fifteen results, in non-increasing final score, one
      per path; no entry left out ranks above one shown. */
  lemma OutputIsTop(ranked: seq<Merged>, m: map<string, Merged>)
    requires Enumerates(ranked, m) && Descending(ranked, FinalScore)
    ensures |Output(ranked)| == if |m| < OutputLimit then |m| else OutputLimit
    ensures forall i | 0 <= i < |Output(ranked)| :: Output(ranked)[i] == ranked[i].result && ranked[i] in m.Values
    ensures forall i, j | 0 <= i < |Output(ranked)| <= j < |ranked| :: ranked[i].finalScore >= ranked[j].finalScore
  {
    forall i | 0 <= i < |Output(ranked)| ensures ranked[i] in m.Values {
      var x := ranked[i];
      assert x in ranked;
      assert m[x.result.path] == x;
    }
    forall i, j | 0 <= i < |Output(ranked)| <= j < |ranked| ensures ranked[i].finalScore >= ranked[j].finalScore {
      assert FinalScore(ranked[i]) >= FinalScore(ranked[j]);
    }
  }

  // ---------------------------------------------------------------------
  // HybridSearch

  /** What the keyword branch contributes: SearchFiles' results, or nothing when it has no
      term to search for or fails. */
  ghost predicate KeywordBranch(keyword: seq<SearchResult>, clean: string, minTime: int, maxTime: int,
                                engine: KeywordQuery -> Option<seq<Option<KeywordRow>>>)
  {
    var terms := QueryTerms(clean);
    var rows := engine(KeywordQueryFor(terms, minTime, maxTime));
    if terms == [] || rows.None? || exists k | 0 <= k < |rows.value| :: rows.value[k].None? then keyword == []
    else |keyword| == |rows.value| && forall k | 0 <= k < |rows.value| :: keyword[k] == Scored(rows.value[k].value)
  }

  /** What the vector branch contributes: SemanticSearch's results when the AI is ready, the
      index is loaded and the query could be embedded, and nothing otherwise. */
  ghost predicate VectorBranch(vector: seq<SearchResult>, vranked: seq<VectorSearch.Match>, aiReady: bool,
                               entries: seq<VectorSearch.CachedVector>, queryVec: Option<seq<bv32>>,
                               value: bv32 -> real, files: map<int, FileRow>, minTime: int, maxTime: int)
  {
    if !aiReady || entries == [] || queryVec.None? then vector == []
    else
      var scores := VectorSearch.BestScores(entries, VectorSearch.Values(queryVec.value, value), value);
      && VectorSearch.Lists(vranked, scores)
      && Descending(vranked, VectorSearch.MatchScore)
      && vector == VectorSearch.Presented(VectorSearch.Top(vranked), files, minTime, maxTime)
  }

  /** The keyword goroutine of HybridSearch, with the error dropped. */
  method KeywordSide(clean: string, minTime: int, maxTime: int,
                     engine: KeywordQuery -> Option<seq<Option<KeywordRow>>>)
    returns (keyword: seq<SearchResult>)
    ensures KeywordBranch(keyword, clean, minTime, maxTime, engine)
  {
    var kres := SearchFiles(clean, minTime, maxTime, engine);
    keyword := if kres.Ok? then kres.value else [];
  }

  /** The vector goroutine of HybridSearch, with the error dropped. */
  method VectorSide(clean: string, minTime: int, maxTime: int, index: VectorSearch.VectorIndex, store: Store,
                    aiReady: bool, embed: string -> Option<seq<bv32>>, value: bv32 -> real)
    returns (vector: seq<SearchResult>, ghost vranked: seq<VectorSearch.Match>)
    ensures VectorBranch(vector, vranked, aiReady, index.entries, embed(clean), value, store.files, minTime, maxTime)
  {
    vector, vranked := [], [];
    if aiReady {
      var vres;
      vres, vranked := VectorSearch.SemanticSearch(index, store, aiReady, clean, embed, value, minTime, maxTime);
      if vres.Ok? {
        vector := vres.value;
      }
    }
  }

  /** HybridSearch: the date phrase is taken out of the query; both branches search the
      cleaned query within the window (the vector branch only when the AI is ready); a branch
      that fails contributes nothing, and the call itself never fails.  `found` is the date
      recogniser's reply and `now` the clock. */
  method HybridSearch(rawQuery: string, found: Option<Nlp.Found>, now: Nlp.DateTime,
                      engine: KeywordQuery -> Option<seq<Option<KeywordRow>>>,
                      index: VectorSearch.VectorIndex, store: Store, aiReady: bool,
                      embed: string -> Option<seq<bv32>>, value: bv32 -> real)
    returns (res: Result<seq<SearchResult>>, ghost keyword: seq<SearchResult>,
             ghost vector: seq<SearchResult>, ghost vranked: seq<VectorSearch.Match>, ghost ranked: seq<Merged>)
    requires found.Some? ==> Nlp.FitsQuery(found.value, rawQuery)
    requires Nlp.ValidDate(now)
    ensures var dq := Nlp.ParseDateQuery(rawQuery, found, now);
      && KeywordBranch(keyword, dq.clean, dq.minTime, dq.maxTime, engine)
      && VectorBranch(vector, vranked, aiReady, index.entries, embed(dq.clean), value, store.files, dq.minTime, dq.maxTime)
      && Enumerates(ranked, Ranked(dq.clean, keyword, vector))
    ensures Descending(ranked, FinalScore)
    ensures res == Ok(Output(ranked))
  {
    var dq := Nlp.ParseDateQuery(rawQuery, found, now);
    var cleanQuery, minTime, maxTime := dq.clean, dq.minTime, dq.maxTime;
    var vectorResults;
    vectorResults, vranked := VectorSide(cleanQuery, minTime, maxTime, index, store, aiReady, embed, value);
    var keywordResults := KeywordSide(cleanQuery, minTime, maxTime, engine);
    keyword, vector := keywordResults, vectorResults;
    var output;
    output, ranked := MergeAndRank(cleanQuery, keywordResults, vectorResults);
    res := Ok(output);
  }
}
