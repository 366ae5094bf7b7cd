/**
  The persistent store of core/db.go.

  The four tables are fields of one `Store` object: `files` keyed by its
  autoincrement rowid together with the UNIQUE index on `path`, the FTS5
  table `files_fts` (which the three triggers keep equal to a projection of
  `files`), the `file_vectors` rows and the `extension_icons` cache.  The
  SQL engine itself is not modelled: each statement the core issues is a
  method whose postcondition is that statement's effect, including the
  trigger it fires.

  The module also holds the little-endian blob encoding of SaveVector and
  the construction of the keyword (FTS) query of SearchFiles.
 */
module Db {
  import opened Wrappers
  import opened Text

  datatype FileRow = FileRow(path: string, filename: string, extension: string, modTime: int,
                             summary: Option<string>, icon: Option<string>)

  /** One row of files_fts: the indexed columns filename and summary, and the unindexed path. */
  datatype FtsRow = FtsRow(filename: string, summary: Option<string>, path: string)

  datatype VectorRow = VectorRow(fileId: int, chunkIndex: int, blob: seq<bv8>)

  function FtsEntry(row: FileRow): FtsRow {
    FtsRow(row.filename, row.summary, row.path)
  }

  /** What the triggers files_ai, files_au and files_ad keep files_fts equal to. */
  function Mirror(files: map<int, FileRow>): map<int, FtsRow> {
    map id | id in files :: FtsEntry(files[id])
  }

  /** The ghost catalog is the path-keyed view of the rows. */
  ghost predicate Catalogues(catalog: map<string, FileRow>, files: map<int, FileRow>, pathIndex: map<string, int>)
    requires forall p | p in pathIndex :: pathIndex[p] in files
  {
    catalog.Keys == pathIndex.Keys && forall p | p in pathIndex :: catalog[p] == files[pathIndex[p]]
  }

  /** Autoincrement ids, the UNIQUE path index as an exact inverse of `files`, the full-text
      table as an exact mirror of `files`, and the path-keyed view. */
  ghost predicate Consistent(files: map<int, FileRow>, pathIndex: map<string, int>, fts: map<int, FtsRow>,
                             catalog: map<string, FileRow>, nextId: int)
  {
    && nextId >= 1
    && (forall id | id in files :: 1 <= id < nextId)
    && (forall p | p in pathIndex :: pathIndex[p] in files && files[pathIndex[p]].path == p)
    && (forall id | id in files :: files[id].path in pathIndex && pathIndex[files[id].path] == id)
    && fts == Mirror(files)
    && Catalogues(catalog, files, pathIndex)
  }

  /** An insert under a fresh id and a fresh path keeps the tables consistent. */
  lemma InsertKeepsConsistent(files: map<int, FileRow>, pathIndex: map<string, int>, fts: map<int, FtsRow>,
                              catalog: map<string, FileRow>, nextId: int, row: FileRow)
    requires Consistent(files, pathIndex, fts, catalog, nextId) && row.path !in pathIndex
    ensures Consistent(files[nextId := row], pathIndex[row.path := nextId], fts[nextId := FtsEntry(row)],
                       catalog[row.path := row], nextId + 1)
  {
    var files', pathIndex' := files[nextId := row], pathIndex[row.path := nextId];
    assert fts[nextId := FtsEntry(row)] == Mirror(files');
    forall p | p in pathIndex'
      ensures catalog[row.path := row][p] == files'[pathIndex'[p]]
    {
      if p != row.path {
        assert pathIndex'[p] == pathIndex[p] != nextId;
      }
    }
  }

  /** Replacing the row stored under a path keeps the tables consistent. */
  lemma RewriteKeepsConsistent(files: map<int, FileRow>, pathIndex: map<string, int>, fts: map<int, FtsRow>,
                               catalog: map<string, FileRow>, nextId: int, row: FileRow)
    requires Consistent(files, pathIndex, fts, catalog, nextId) && row.path in pathIndex
    ensures var id := pathIndex[row.path];
      Consistent(files[id := row], pathIndex, fts[id := FtsEntry(row)], catalog[row.path := row], nextId)
  {
    var id := pathIndex[row.path];
    var files' := files[id := row];
    assert fts[id := FtsEntry(row)] == Mirror(files');
    forall p | p in pathIndex
      ensures catalog[row.path := row][p] == files'[pathIndex[p]]
    {
      if p != row.path {
        assert pathIndex[p] != id;
      }
    }
  }

  /** Deleting the row stored under a path keeps the tables consistent. */
  lemma DeleteKeepsConsistent(files: map<int, FileRow>, pathIndex: map<string, int>, fts: map<int, FtsRow>,
                              catalog: map<string, FileRow>, nextId: int, path: string)
    requires Consistent(files, pathIndex, fts, catalog, nextId) && path in pathIndex
    ensures var id := pathIndex[path];
      Consistent(files - {id}, pathIndex - {path}, fts - {id}, catalog - {path}, nextId)
  {
    var id := pathIndex[path];
    assert fts - {id} == Mirror(files - {id});
    forall p | p in pathIndex - {path}
      ensures (catalog - {path})[p] == (files - {id})[pathIndex[p]]
    {
      assert pathIndex[p] != id;
    }
  }

  /** The selection of GetFilesNeedingEmbedding, row by row. */
  predicate NeedsEmbedding(row: FileRow, id: int, withVectors: set<int>) {
    row.summary.Some? && row.summary.value != "" && id !in withVectors
  }

  /** The ids that own at least one file_vectors row. */
  function VectorIds(vectors: seq<VectorRow>): set<int> {
    set v | v in vectors :: v.fileId
  }

  /** GetFilesNeedingEmbedding: id -> summary for every row with a non-NULL, non-empty
      summary and no file_vectors row. */
  function NeedingEmbedding(files: map<int, FileRow>, vectors: seq<VectorRow>): (pending: map<int, string>)
    ensures pending.Keys <= files.Keys
    ensures forall id | id in pending :: pending[id] != "" && files[id].summary == Some(pending[id])
    ensures forall id | id in files :: id in pending <==> NeedsEmbedding(files[id], id, VectorIds(vectors))
  {
    map id | id in files && NeedsEmbedding(files[id], id, VectorIds(vectors)) :: files[id].summary.value
  }

  /** Storing vector rows takes exactly their file ids out of the selection. */
  lemma NeedingAfterRows(files: map<int, FileRow>, vectors: seq<VectorRow>, rows: seq<VectorRow>)
    ensures NeedingEmbedding(files, vectors + rows) == NeedingEmbedding(files, vectors) - VectorIds(rows)
  {
    assert VectorIds(vectors + rows) == VectorIds(vectors) + VectorIds(rows) by {
      forall v | v in vectors + rows ensures v.fileId in VectorIds(vectors) + VectorIds(rows) {
        if v in vectors {
          assert v.fileId in VectorIds(vectors);
        } else {
          assert v in rows;
        }
      }
      forall v | v in rows ensures v in vectors + rows {
      }
      forall v | v in vectors ensures v in vectors + rows {
      }
    }
  }

  class Store {
    var files: map<int, FileRow>
    var pathIndex: map<string, int>
    var fts: map<int, FtsRow>
    var vectors: seq<VectorRow>
    var extIcons: map<string, Option<string>>
    var nextId: int
    /** The files table seen through its UNIQUE path key. */
    ghost var catalog: map<string, FileRow>

    /** The tables are consistent (see Consistent). */
    ghost predicate Valid()
      reads this
    {
      Consistent(files, pathIndex, fts, catalog, nextId)
    }

    /** GetFilesNeedingEmbedding on the current tables. */
    function FilesNeedingEmbedding(): map<int, string>
      reads this
    {
      NeedingEmbedding(files, vectors)
    }

    /** CREATE TABLE IF NOT EXISTS on a fresh database file. */
    constructor ()
      ensures Valid() && catalog == map[] && vectors == [] && extIcons == map[]
    {
      files, pathIndex, fts, vectors, extIcons, nextId := map[], map[], map[], [], map[], 1;
      catalog := map[];
    }

    /** INSERT INTO files: refused when the path is already present (UNIQUE); the
        trigger files_ai adds the matching files_fts row. */
    method InsertFile(row: FileRow) returns (ok: bool)
      requires Valid()
      modifies this
      ensures Valid()
      ensures ok <==> row.path !in old(catalog)
      ensures catalog == if ok then old(catalog)[row.path := row] else old(catalog)
      ensures ok ==> files == old(files)[old(nextId) := row] && fts == old(fts)[old(nextId) := FtsEntry(row)]
      ensures !ok ==> files == old(files) && fts == old(fts)
      ensures vectors == old(vectors) && extIcons == old(extIcons)
    {
      if row.path in pathIndex {
        return false;
      }
      InsertKeepsConsistent(files, pathIndex, fts, catalog, nextId, row);
      var id := nextId;
      files := files[id := row];
      pathIndex := pathIndex[row.path := id];
      fts := fts[id := FtsEntry(row)];
      nextId := nextId + 1;
      catalog := catalog[row.path := row];
      ok := true;
    }

    /** An UPDATE of the row at `row.path`; the trigger files_au deletes the old
        files_fts row and inserts the new one under the same rowid. */
    method Rewrite(row: FileRow)
      requires Valid()
      modifies this
      ensures Valid()
      ensures catalog == if row.path in old(catalog) then old(catalog)[row.path := row] else old(catalog)
      ensures row.path in old(pathIndex) ==>
        var id := old(pathIndex)[row.path];
        files == old(files)[id := row] && fts == old(fts)[id := FtsEntry(row)]
      ensures row.path !in old(pathIndex) ==> files == old(files) && fts == old(fts)
      ensures pathIndex == old(pathIndex) && nextId == old(nextId)
      ensures vectors == old(vectors) && extIcons == old(extIcons)
    {
      if row.path in pathIndex {
        RewriteKeepsConsistent(files, pathIndex, fts, catalog, nextId, row);
        var id := pathIndex[row.path];
        files := files[id := row];
        fts := fts[id := FtsEntry(row)];
        catalog := catalog[row.path := row];
      }
    }

    /** UPDATE files SET modified_time = ?, summary = NULL WHERE path = ? (quick scan). */
    method UpdateModTime(path: string, modTime: int)
      requires Valid()
      modifies this
      ensures Valid()
      ensures catalog == if path in old(catalog)
        then old(catalog)[path := old(catalog)[path].(modTime := modTime, summary := None)]
        else old(catalog)
      ensures pathIndex == old(pathIndex) && vectors == old(vectors) && extIcons == old(extIcons)
    {
      if path in pathIndex {
        Rewrite(files[pathIndex[path]].(modTime := modTime, summary := None));
      }
    }

    /** UPDATE files SET summary = ? WHERE path = ? (deep scan). */
    method UpdateSummary(path: string, summary: string)
      requires Valid()
      modifies this
      ensures Valid()
      ensures catalog == if path in old(catalog)
        then old(catalog)[path := old(catalog)[path].(summary := Some(summary))]
        else old(catalog)
      ensures pathIndex == old(pathIndex) && vectors == old(vectors) && extIcons == old(extIcons)
    {
      if path in pathIndex {
        Rewrite(files[pathIndex[path]].(summary := Some(summary)));
      }
    }

    /** UPDATE files SET modified_time = ?, summary = ?, icon_data = ? WHERE path = ? (app scan). */
    method UpdateApp(path: string, modTime: int, summary: string, icon: string)
      requires Valid()
      modifies this
      ensures Valid()
      ensures catalog == if path in old(catalog)
        then old(catalog)[path := old(catalog)[path].(modTime := modTime, summary := Some(summary), icon := Some(icon))]
        else old(catalog)
      ensures pathIndex == old(pathIndex) && vectors == old(vectors) && extIcons == old(extIcons)
    {
      if path in pathIndex {
        Rewrite(files[pathIndex[path]].(modTime := modTime, summary := Some(summary), icon := Some(icon)));
      }
    }

    /** DELETE FROM files WHERE path = ?; the trigger files_ad removes the files_fts row.
        Foreign keys are never switched on, so the file's vectors stay. */
    method DeleteFile(path: string)
      requires Valid()
      modifies this
      ensures Valid()
      ensures catalog == old(catalog) - {path}
      ensures path in old(pathIndex) ==> fts == old(fts) - {old(pathIndex)[path]}
      ensures vectors == old(vectors) && extIcons == old(extIcons)
    {
      if path in pathIndex {
        DeleteKeepsConsistent(files, pathIndex, fts, catalog, nextId, path);
        var id := pathIndex[path];
        files := files - {id};
        pathIndex := pathIndex - {path};
        fts := fts - {id};
        catalog := catalog - {path};
      }
    }

    /** INSERT INTO file_vectors; without foreign-key enforcement any file id is accepted. */
    method InsertVector(fileId: int, chunkIndex: int, blob: seq<bv8>)
      requires Valid()
      modifies this
      ensures Valid()
      ensures vectors == old(vectors) + [VectorRow(fileId, chunkIndex, blob)]
      ensures files == old(files) && pathIndex == old(pathIndex) && fts == old(fts)
      ensures extIcons == old(extIcons) && nextId == old(nextId)
      ensures catalog == old(catalog)
      ensures FilesNeedingEmbedding() == old(FilesNeedingEmbedding()) - {fileId}
    {
      NeedingAfterRows(files, vectors, [VectorRow(fileId, chunkIndex, blob)]);
      assert VectorIds([VectorRow(fileId, chunkIndex, blob)]) == {fileId};
      vectors := vectors + [VectorRow(fileId, chunkIndex, blob)];
    }
  }

  /** In a consistent store the full-text table holds exactly one row per file, with that
      file's columns, and the paths a full-text match can return are exactly the catalogued ones. */
  lemma MirrorIsExact(s: Store)
    requires s.Valid()
    ensures s.fts.Keys == s.files.Keys
    ensures forall id | id in s.files ::
      s.fts[id].filename == s.files[id].filename && s.fts[id].summary == s.files[id].summary && s.fts[id].path == s.files[id].path
    ensures forall p :: (exists id | id in s.fts :: s.fts[id].path == p) <==> p in s.catalog
  {
    forall p ensures (exists id | id in s.fts :: s.fts[id].path == p) <==> p in s.catalog {
      if p in s.catalog {
        var id := s.pathIndex[p];
        assert s.fts[id].path == p;
      }
    }
  }

  /** Under the UNIQUE index no two rows share a path, so the store's rows and its
      catalog are in one-to-one correspondence. */
  lemma PathIsUnique(s: Store)
    requires s.Valid()
    ensures forall i, j | i in s.files && j in s.files && s.files[i].path == s.files[j].path :: i == j
    ensures |s.catalog| == |s.files|
  {
    var c := s.catalog;
    assert c.Keys == s.pathIndex.Keys;
    var ids := set p | p in s.pathIndex :: s.pathIndex[p];
    assert ids == s.files.Keys by {
      forall id | id in s.files ensures id in ids {
        assert s.pathIndex[s.files[id].path] == id;
      }
    }
    InjectiveImageSize(s.pathIndex);
  }

  lemma {:induction false} InjectiveImageSize(m: map<string, int>)
    requires forall p, q | p in m && q in m && m[p] == m[q] :: p == q
    ensures |set p | p in m :: m[p]| == |m.Keys|
    decreases |m.Keys|
  {
    if m.Keys != {} {
      var p :| p in m;
      var m' := m - {p};
      InjectiveImageSize(m');
      var img := set q | q in m :: m[q];
      var img' := set q | q in m' :: m'[q];
      forall x | x in img ensures x in img' + {m[p]} {
        var q :| q in m && m[q] == x;
        if q != p { assert q in m'; }
      }
      assert img == img' + {m[p]};
      assert m[p] !in img';
      assert m.Keys == m'.Keys + {p};
    }
  }

  // ---------------------------------------------------------------------
  // SaveVector: the float32 bit patterns of a vector, little-endian, 4 bytes each

  /** Byte k (0 = least significant) of a 32-bit word. */
  function ByteOf(w: bv32, k: nat): bv8
    requires k < 4
  {
    if k == 0 then (w & 0xFF) as bv8
    else if k == 1 then ((w >> 8) & 0xFF) as bv8
    else if k == 2 then ((w >> 16) & 0xFF) as bv8
    else ((w >> 24) & 0xFF) as bv8
  }

  /** binary.LittleEndian.Uint32 of four bytes. */
  function LeWord(b0: bv8, b1: bv8, b2: bv8, b3: bv8): bv32 {
    (b0 as bv32) | ((b1 as bv32) << 8) | ((b2 as bv32) << 16) | ((b3 as bv32) << 24)
  }

  /** Reading back the four bytes of a word gives the word. */
  lemma WordRoundTrip(w: bv32)
    ensures LeWord(ByteOf(w, 0), ByteOf(w, 1), ByteOf(w, 2), ByteOf(w, 3)) == w
  {
  }

  /** The blob SaveVector stores for a vector of bit patterns: word i occupies bytes
      4i to 4i + 3, least significant byte first. */
  function Encoded(vector: seq<bv32>): (blob: seq<bv8>)
    ensures |blob| == 4 * |vector|
    ensures forall i, k | 0 <= i < |vector| && 0 <= k < 4 :: blob[4 * i + k] == ByteOf(vector[i], k)
  {
    var blob := seq(4 * |vector|, j requires 0 <= j < 4 * |vector| => ByteOf(vector[j / 4], j % 4));
    assert forall i, k | 0 <= i < |vector| && 0 <= k < 4 :: blob[4 * i + k] == ByteOf(vector[i], k) by {
      forall i, k | 0 <= i < |vector| && 0 <= k < 4 ensures blob[4 * i + k] == ByteOf(vector[i], k) {
        assert (4 * i + k) / 4 == i && (4 * i + k) % 4 == k;
      }
    }
    blob
  }

  /** A blob holding the bytes of every word in place is the encoding. */
  lemma EncodedByWords(vector: seq<bv32>, blob: seq<bv8>)
    requires |blob| == 4 * |vector|
    requires forall i, k | 0 <= i < |vector| && 0 <= k < 4 :: blob[4 * i + k] == ByteOf(vector[i], k)
    ensures blob == Encoded(vector)
  {
    forall j | 0 <= j < |blob| ensures blob[j] == Encoded(vector)[j] {
      var i, k := j / 4, j % 4;
      assert j == 4 * i + k;
    }
  }

  /** The loop of SaveVector filling byteBuf. */
  method EncodeVector(vector: seq<bv32>) returns (blob: seq<bv8>)
    ensures blob == Encoded(vector)
  {
    var byteBuf := new bv8[4 * |vector|];
    var i := 0;
    while i < |vector|
      invariant 0 <= i <= |vector|
      invariant forall m, k | 0 <= m < i && 0 <= k < 4 :: byteBuf[4 * m + k] == ByteOf(vector[m], k)
    {
      var bits := vector[i];
      byteBuf[4 * i] := ByteOf(bits, 0);
      byteBuf[4 * i + 1] := ByteOf(bits, 1);
      byteBuf[4 * i + 2] := ByteOf(bits, 2);
      byteBuf[4 * i + 3] := ByteOf(bits, 3);
      i := i + 1;
    }
    blob := byteBuf[..];
    EncodedByWords(vector, blob);
  }

  /** SaveVector: encode, then INSERT INTO file_vectors. */
  method SaveVector(store: Store, fileId: int, chunkIndex: int, vector: seq<bv32>)
    requires store.Valid()
    modifies store
    ensures store.Valid()
    ensures store.vectors == old(store.vectors) + [VectorRow(fileId, chunkIndex, Encoded(vector))]
    ensures store.files == old(store.files) && store.pathIndex == old(store.pathIndex)
    ensures store.fts == old(store.fts) && store.extIcons == old(store.extIcons)
    ensures store.nextId == old(store.nextId) && store.catalog == old(store.catalog)
  {
    var byteBuf := EncodeVector(vector);
    store.InsertVector(fileId, chunkIndex, byteBuf);
  }

  // ---------------------------------------------------------------------
  // SearchFiles: query cleaning, the MATCH expression and the SQL text

  predicate IsNotAsciiAlnum(c: char) {
    !IsAsciiAlnum(c)
  }

  /** queryCleaner.ReplaceAllString(q, " "): each maximal run of runes outside
      [A-Za-z0-9] becomes a single space; the other runes are kept. */
  function CleanQuery(q: string): string
    decreases |q|
  {
    if q == [] then []
    else if !IsAsciiAlnum(q[0]) then " " + CleanQuery(q[RunLength(q, IsNotAsciiAlnum)..])
    else
      var n := RunLength(q, IsAsciiAlnum);
      q[..n] + CleanQuery(q[n..])
  }

  /** strings.Fields of the cleaned query. */
  function QueryTerms(q: string): seq<string> {
    Fields(CleanQuery(q))
  }

  /** The search terms are exactly the maximal [A-Za-z0-9] runs of the query, in order. */
  lemma {:induction false} QueryTermsAreAlnumRuns(q: string)
    ensures QueryTerms(q) == SplitRuns(q, IsAsciiAlnum)
    decreases |q|
  {
    if q == [] {
    } else if !IsAsciiAlnum(q[0]) {
      var m := RunLength(q, IsNotAsciiAlnum);
      QueryTermsAreAlnumRuns(q[m..]);
      SkipRejected(q, m, IsAsciiAlnum);
      assert (" " + CleanQuery(q[m..]))[1..] == CleanQuery(q[m..]);
    } else {
      var n := RunLength(q, IsAsciiAlnum);
      var w := q[..n];
      assert w != [] && forall j | 0 <= j < |w| :: IsNonSpace(w[j]);
      if n == |q| {
        assert q[n..] == [];
        RunLengthOfPrefix(w, [], IsNonSpace);
        assert w + [] == w;
        assert CleanQuery(q) == w;
        assert Fields(w) == [w] + SplitRuns([], IsNonSpace);
        assert SplitRuns(q, IsAsciiAlnum) == [w] + SplitRuns([], IsAsciiAlnum);
      } else {
        var m := RunLength(q[n..], IsNotAsciiAlnum);
        var rest := q[n..][m..];
        QueryTermsAreAlnumRuns(rest);
        SkipRejected(q[n..], m, IsAsciiAlnum);
        var tail := " " + CleanQuery(rest);
        assert CleanQuery(q[n..]) == tail;
        assert CleanQuery(q) == w + tail;
        RunLengthOfPrefix(w, tail, IsNonSpace);
        assert tail[1..] == CleanQuery(rest);
        assert SplitRuns(tail, IsNonSpace) == SplitRuns(CleanQuery(rest), IsNonSpace);
        assert Fields(w + tail) == [w] + SplitRuns(tail, IsNonSpace);
        assert SplitRuns(q, IsAsciiAlnum) == [w] + SplitRuns(q[n..], IsAsciiAlnum);
      }
    }
  }

  /** Runes that `keep` rejects at the front do not change the runs. */
  lemma {:induction false} SkipRejected(s: string, m: nat, keep: char -> bool)
    requires m <= |s| && forall i | 0 <= i < m :: !keep(s[i])
    ensures SplitRuns(s, keep) == SplitRuns(s[m..], keep)
    decreases m
  {
    if m > 0 {
      SkipRejected(s[1..], m - 1, keep);
      assert s[1..][m - 1..] == s[m..];
    }
  }

  datatype Arg = TextArg(text: string) | IntArg(n: int)

  datatype KeywordQuery = KeywordQuery(sql: string, args: seq<Arg>)

  const SelectClause := "SELECT f.path, COALESCE(snippet(files_fts, 1, '[', ']', '...', 15), ''), COALESCE(f.icon_data, ''), f.extension, files_fts.rank FROM files_fts JOIN files f ON f.id = files_fts.rowid WHERE files_fts MATCH ? "
  const MinTimeClause := " AND f.modified_time >= ? "
  const MaxTimeClause := " AND f.modified_time <= ? "
  const OrderClause := " ORDER BY files_fts.rank LIMIT 50"
  const KeywordLimit := 50

  /** The loop building contentParts, then the SQL text and its arguments. */
  method BuildKeywordQuery(terms: seq<string>, minTime: int, maxTime: int) returns (q: KeywordQuery)
    ensures q == KeywordQueryFor(terms, minTime, maxTime)
  {
    var contentParts: seq<string> := [];
    var i := 0;
    while i < |terms|
      invariant 0 <= i <= |terms|
      invariant contentParts == Starred(terms, i)
    {
      contentParts := contentParts + [terms[i] + "*"];
      i := i + 1;
    }
    var contentQuery := Join(contentParts, " AND ");
    var baseQuery := SelectClause;
    var args := [TextArg(contentQuery)];
    if minTime > 0 {
      baseQuery := baseQuery + MinTimeClause;
      args := args + [IntArg(minTime)];
    }
    if maxTime > 0 {
      baseQuery := baseQuery + MaxTimeClause;
      args := args + [IntArg(maxTime)];
    }
    baseQuery := baseQuery + OrderClause;
    q := KeywordQuery(baseQuery, args);
  }

  /** The query BuildKeywordQuery produces, as one value: one placeholder argument for the
      MATCH expression, then one per date bound that is set, in the order of the clauses. */
  function KeywordQueryFor(terms: seq<string>, minTime: int, maxTime: int): (q: KeywordQuery)
    ensures |q.args| == 1 + (if minTime > 0 then 1 else 0) + (if maxTime > 0 then 1 else 0)
    ensures q.args[0] == TextArg(Join(Starred(terms, |terms|), " AND "))
    ensures minTime > 0 ==> q.args[1] == IntArg(minTime)
    ensures maxTime > 0 ==> q.args[|q.args| - 1] == IntArg(maxTime)
  {
    KeywordQuery(
      SelectClause + (if minTime > 0 then MinTimeClause else "") + (if maxTime > 0 then MaxTimeClause else "") + OrderClause,
      [TextArg(Join(Starred(terms, |terms|), " AND "))]
        + (if minTime > 0 then [IntArg(minTime)] else []) + (if maxTime > 0 then [IntArg(maxTime)] else []))
  }

  /** The first n terms, each followed by the prefix operator `*`. */
  function Starred(terms: seq<string>, n: nat): (parts: seq<string>)
    requires n <= |terms|
    ensures |parts| == n && forall i | 0 <= i < n :: parts[i] == terms[i] + "*"
  {
    if n == 0 then [] else Starred(terms, n - 1) + [terms[n - 1] + "*"]
  }

  datatype SearchResult = SearchResult(path: string, snippet: string, score: real, iconData: string, extension: string)

  /** A row of the keyword query as scanned: None when rows.Scan fails. */
  datatype KeywordRow = KeywordRow(path: string, snippet: string, iconData: string, extension: string, rank: real)

  function Abs(x: real): real {
    if x < 0.0 then -x else x
  }

  /** The keyword score: FTS5 ranks are negative, better matches more so. */
  function KeywordScore(rank: real): (score: real)
    ensures score >= 0.0
    ensures score == 0.0 <==> rank == 0.0
  {
    Abs(rank) * 1.5
  }

  /** Among negative ranks a better (lower) rank never scores less. */
  lemma KeywordScoreReversesRank(better: real, worse: real)
    requires better <= worse <= 0.0
    ensures KeywordScore(better) >= KeywordScore(worse)
  {
  }

  /** SearchFiles: no query when no term survives cleaning; a failing query or a row that
      cannot be scanned makes the whole call fail; otherwise one result per row, in row order. */
  method SearchFiles(queryText: string, minTime: int, maxTime: int,
                     engine: KeywordQuery -> Option<seq<Option<KeywordRow>>>)
    returns (res: Result<seq<SearchResult>>)
    ensures QueryTerms(queryText) == [] ==> res == Ok([])
    ensures QueryTerms(queryText) != [] ==>
      var rows := engine(KeywordQueryFor(QueryTerms(queryText), minTime, maxTime));
      && (rows.None? ==> res.Err?)
      && (rows.Some? ==> (res.Ok? <==> forall k | 0 <= k < |rows.value| :: rows.value[k].Some?))
      && (res.Ok? ==>
            |res.value| == |rows.value| && forall k | 0 <= k < |rows.value| :: res.value[k] == Scored(rows.value[k].value))
    ensures res.Ok? ==> forall r | r in res.value :: r.score >= 0.0
  {
    var terms := QueryTerms(queryText);
    if |terms| == 0 {
      return Ok([]);
    }
    var q := BuildKeywordQuery(terms, minTime, maxTime);
    var rows := engine(q);
    if rows.None? {
      return Err("keyword query failed");
    }
    var results: seq<SearchResult> := [];
    var i := 0;
    while i < |rows.value|
      invariant 0 <= i <= |rows.value|
      invariant |results| == i
      invariant forall k | 0 <= k < i :: rows.value[k].Some? && results[k] == Scored(rows.value[k].value)
      invariant forall r | r in results :: r.score >= 0.0
    {
      if rows.value[i].None? {
        return Err("row scan failed");
      }
      results := results + [Scored(rows.value[i].value)];
      i := i + 1;
    }
    res := Ok(results);
  }

  function Scored(row: KeywordRow): (r: SearchResult)
    ensures r.score >= 0.0
  {
    SearchResult(row.path, row.snippet, KeywordScore(row.rank), row.iconData, row.extension)
  }
}
