/**
  Content extraction of core/indexer.go: the cleaning engine (cleanText), the
  whitelist of readable extensions, the three readers with their size caps,
  and the timeout-guarded dispatcher.

  The PDF and DOCX libraries are not modelled: a file is described by what
  its library hands back (`Source`), and the two-second race is an input
  saying whether the timer fired first.
 */
module Extraction {
  import opened Wrappers
  import opened Text

  const MaxReadSize: nat := 50 * 1024

  // ---------------------------------------------------------------------
  // Markup mode: tag stripping and entity decoding

  /** xmlTagRegex.ReplaceAllString(s, " ") for the pattern <[^>]*>: a '<' that has a '>'
      somewhere after it starts a match running to the first such '>'; the match becomes
      one space.  A '<' with no '>' after it is kept. */
  function StripTags(s: string): (r: string)
    ensures |r| <= |s|
    decreases |s|
  {
    if s == [] then []
    else if s[0] == '<' && '>' in s[1..] then " " + StripTags(s[1..][FirstIndex(s[1..], '>') + 1..])
    else [s[0]] + StripTags(s[1..])
  }

  /** Stripping never introduces a '>'. */
  lemma {:induction false} StripTagsAddsNoGt(s: string)
    requires '>' !in s
    ensures '>' !in StripTags(s)
    decreases |s|
  {
    if s != [] {
      StripTagsAddsNoGt(s[1..]);
    }
  }

  /** No '<' is followed anywhere later by a '>'. */
  predicate NoTag(r: string) {
    forall i, j | 0 <= i < j < |r| && r[i] == '<' :: r[j] != '>'
  }

  lemma NoTagCons(c: char, t: string)
    requires NoTag(t) && (c == '<' ==> '>' !in t)
    ensures NoTag([c] + t)
  {
    var r := [c] + t;
    forall i, j | 0 <= i < j < |r| && r[i] == '<' ensures r[j] != '>' {
      assert r[j] == t[j - 1];
      if i > 0 {
        assert r[i] == t[i - 1];
      }
    }
  }

  /** After stripping no tag is left: a '<' that survives has no '>' after it. */
  lemma {:induction false} StripTagsLeavesNoTag(s: string)
    ensures NoTag(StripTags(s))
    decreases |s|
  {
    if s == [] {
    } else if s[0] == '<' && '>' in s[1..] {
      var rest := s[1..][FirstIndex(s[1..], '>') + 1..];
      StripTagsLeavesNoTag(rest);
      NoTagCons(' ', StripTags(rest));
    } else {
      StripTagsLeavesNoTag(s[1..]);
      if s[0] == '<' {
        StripTagsAddsNoGt(s[1..]);
      }
      NoTagCons(s[0], StripTags(s[1..]));
    }
  }

  /** The six entity replacements, in the order nbsp, quot, apos, amp, lt, gt. */
  function DecodeEntities(s: string): (r: string)
    ensures |r| <= |s|
  {
    var s1 := ReplaceAll(s, "&nbsp;", " ");
    var s2 := ReplaceAll(s1, "&quot;", "\"");
    var s3 := ReplaceAll(s2, "&apos;", "'");
    var s4 := ReplaceAll(s3, "&amp;", "&");
    var s5 := ReplaceAll(s4, "&lt;", "<");
    ReplaceAll(s5, "&gt;", ">")
  }

  /** What cleanText feeds to its rune loop. */
  function Prepared(raw: string, isXml: bool): (r: string)
    ensures |r| <= |raw|
  {
    if isXml then DecodeEntities(StripTags(raw)) else raw
  }

  // ---------------------------------------------------------------------
  // The rune loop and the final Fields/Join

  /** Printable ASCII, newline and tab pass the rune filter. */
  predicate IsKept(c: char) {
    (32 <= c as int <= 126) || c == '\n' || c == '\t'
  }

  /** The rune loop from a given lastWasSpace flag: kept runes are copied, and a run of
      rejected runes becomes one space unless a space was just written. */
  function Filtered(s: string, lastWasSpace: bool): (r: string)
    ensures |r| <= |s|
    ensures forall i | 0 <= i < |r| :: r[i] == ' ' || IsKept(r[i])
    decreases |s|
  {
    if s == [] then []
    else if IsKept(s[0]) then [s[0]] + Filtered(s[1..], false)
    else if !lastWasSpace then " " + Filtered(s[1..], true)
    else Filtered(s[1..], true)
  }

  /** cleanText(raw, isXml) */
  function Cleaned(raw: string, isXml: bool): string {
    Join(Fields(Filtered(Prepared(raw, isXml), true)), " ")
  }

  predicate IsPrintableAscii(c: char) {
    32 <= c as int <= 126
  }

  /** The shape of every cleaned text: printable ASCII only (so no tab and no newline),
      no space at either end and never two spaces in a row. */
  predicate IsClean(s: string) {
    (forall i | 0 <= i < |s| :: IsPrintableAscii(s[i])) && SingleSpaced(s)
  }

  lemma CleanedIsClean(raw: string, isXml: bool)
    ensures IsClean(Cleaned(raw, isXml))
  {
    var b := Filtered(Prepared(raw, isXml), true);
    JoinFieldsShape(b, IsPrintableAscii);
  }

  /** Cleaning never lengthens the text. */
  lemma CleanedLength(raw: string, isXml: bool)
    ensures |Cleaned(raw, isXml)| <= |raw|
  {
    JoinFieldsLength(Filtered(Prepared(raw, isXml), true), IsNonSpace);
  }

  /** The rune loop is the identity on text whose runes all pass the filter. */
  lemma {:induction false} FilteredKeepsKept(s: string, lastWasSpace: bool)
    requires forall i | 0 <= i < |s| :: IsKept(s[i])
    ensures Filtered(s, lastWasSpace) == s
    decreases |s|
  {
    if s != [] {
      FilteredKeepsKept(s[1..], false);
    }
  }

  /** In plain mode cleaning is idempotent: a clean text is its own cleaning. */
  lemma CleanIsFixedPoint(s: string)
    requires IsClean(s)
    ensures Cleaned(s, false) == s
  {
    FilteredKeepsKept(s, true);
    JoinFieldsOfSingleSpaced(s);
  }

  lemma CleanTwiceIsCleanOnce(raw: string, isXml: bool)
    ensures Cleaned(Cleaned(raw, isXml), false) == Cleaned(raw, isXml)
  {
    CleanedIsClean(raw, isXml);
    CleanIsFixedPoint(Cleaned(raw, isXml));
  }

  /** cleanText: the rune loop with its lastWasSpace flag, then Fields and Join. */
  method CleanText(raw: string, isXml: bool) returns (r: string)
    ensures r == Cleaned(raw, isXml)
    ensures IsClean(r) && |r| <= |raw|
  {
    var s := if isXml then DecodeEntities(StripTags(raw)) else raw;
    var b := "";
    var lastWasSpace := true;
    var i := 0;
    while i < |s|
      invariant 0 <= i <= |s|
      invariant b + Filtered(s[i..], lastWasSpace) == Filtered(s, true)
    {
      var c := s[i];
      FilteredAt(s, i, lastWasSpace, b);
      if IsKept(c) {
        b := b + [c];
        lastWasSpace := false;
      } else if !lastWasSpace {
        b := b + " ";
        lastWasSpace := true;
      }
      i := i + 1;
    }
    assert s[i..] == [];
    assert s == Prepared(raw, isXml);
    assert b == Filtered(Prepared(raw, isXml), true);
    r := Join(Fields(b), " ");
    CleanedIsClean(raw, isXml);
    CleanedLength(raw, isXml);
  }

  /** One turn of the rune loop, seen from the accumulated output b. */
  lemma FilteredAt(s: string, i: nat, lastWasSpace: bool, b: string)
    requires i < |s|
    ensures b + Filtered(s[i..], lastWasSpace) ==
      if IsKept(s[i]) then (b + [s[i]]) + Filtered(s[i + 1..], false)
      else if !lastWasSpace then (b + " ") + Filtered(s[i + 1..], true)
      else b + Filtered(s[i + 1..], true)
  {
    assert s[i..][1..] == s[i + 1..];
    assert s[i..][0] == s[i];
    if IsKept(s[i]) {
      AppendAssoc(b, [s[i]], Filtered(s[i + 1..], false));
    } else if !lastWasSpace {
      AppendAssoc(b, " ", Filtered(s[i + 1..], true));
    }
  }

  /** Each tag becomes its own space, so adjacent tags still separate the words. */
  lemma AdjacentTagsSeparateWords(raw: string)
    requires raw == "A</b><b>B"
    ensures Cleaned(raw, true) == "A B"
  {
    TagsBetweenTwoRunes(raw);
  }

  /** A word rune: printable, not blank, not an ampersand and not a tag bracket. */
  predicate IsPlainRune(c: char) {
    33 <= c as int <= 126 && c != '&' && c != '<' && c != '>'
  }

  /** Two runes separated by a closing and an opening tag clean to the two runes with one space. */
  lemma TagsBetweenTwoRunes(raw: string)
    requires |raw| == 9 && raw[1] == '<' && raw[2] != '>' && raw[3] != '>' && raw[4] == '>'
    requires raw[5] == '<' && raw[6] != '>' && raw[7] == '>'
    requires IsPlainRune(raw[0]) && IsPlainRune(raw[8])
    ensures Cleaned(raw, true) == [raw[0], ' ', raw[8]]
  {
    var a, b := raw[0], raw[8];
    var p := [a, ' ', ' ', b];
    StripTwoTags(raw);
    assert StripTags(raw) == p;
    NoAmpersandNoEntity(p);
    CleanOfKept(raw, true, p);
    FieldsOfTwoRunes(a, b);
  }

  lemma FieldsOfTwoRunes(a: char, b: char)
    requires IsPlainRune(a) && IsPlainRune(b)
    ensures Fields([a, ' ', ' ', b]) == [[a], [b]]
  {
    var s := [a, ' ', ' ', b];
    assert RunLength(s, IsNonSpace) == 1 by {
      assert RunLength(s[1..], IsNonSpace) == 0;
    }
    assert s[..1] == [a] && s[1..] == [' ', ' ', b];
    assert Fields([' ', ' ', b]) == Fields([' ', b]) by { assert [' ', ' ', b][1..] == [' ', b]; }
    assert Fields([' ', b]) == Fields([b]) by { assert [' ', b][1..] == [b]; }
    assert Fields([b]) == [[b]] by {
      assert IsNonSpace(b);
      assert RunLength([b][1..], IsNonSpace) == 0;
      assert RunLength([b], IsNonSpace) == 1;
      assert [b][..1] == [b] && [b][1..] == [];
      assert SplitRuns([], IsNonSpace) == [];
    }
  }

  /** When every prepared rune passes the filter, cleaning is Fields and Join of the prepared text. */
  lemma CleanOfKept(raw: string, isXml: bool, p: string)
    requires Prepared(raw, isXml) == p
    requires forall i | 0 <= i < |p| :: IsKept(p[i])
    ensures Cleaned(raw, isXml) == Join(Fields(p), " ")
  {
    FilteredKeepsKept(p, true);
  }

  /** A rune, a three-rune tag, a two-rune tag, a rune: the two tags become two spaces. */
  lemma StripTwoTags(raw: string)
    requires |raw| == 9 && raw[0] != '<' && raw[1] == '<' && raw[2] != '>' && raw[3] != '>' && raw[4] == '>'
    requires raw[5] == '<' && raw[6] != '>' && raw[7] == '>' && raw[8] != '<'
    ensures StripTags(raw) == [raw[0]] + "  " + [raw[8]]
  {
    var tail := raw[8..];
    assert tail == [raw[8]];
    NoTagIsUnchanged(tail);
    var second := raw[5..];
    StripTagAt(second, 1);
    assert second[3..] == tail;
    var first := raw[1..];
    StripTagAt(first, 2);
    assert first[4..] == second;
  }

  /** A tag of k runes between '<' and the first '>' becomes one space. */
  lemma StripTagAt(s: string, k: nat)
    requires k + 1 < |s| && s[0] == '<' && s[k + 1] == '>'
    requires forall j | 1 <= j <= k :: s[j] != '>'
    ensures StripTags(s) == " " + StripTags(s[k + 2..])
  {
    var u := s[1..];
    FirstIndexAt(u, '>', k);
    assert u[k] == '>';
    assert '>' in u;
    assert u[k + 1..] == s[k + 2..];
  }

  lemma {:induction false} FirstIndexAt(u: string, c: char, k: nat)
    requires k < |u| && u[k] == c && forall j | 0 <= j < k :: u[j] != c
    ensures c in u && FirstIndex(u, c) == k
  {
    if k > 0 {
      FirstIndexAt(u[1..], c, k - 1);
    }
  }

  /** Entities are decoded once, in a fixed order, so "&amp;lt;" decodes to "<". */
  lemma AmpersandDecodedBeforeLessThan(s: string)
    requires s == "&amp;lt;"
    ensures Cleaned(s, true) == "<"
  {
    assert '<' !in s;
    NoTagIsUnchanged(s);
    DecodeExample(s);
    CleanSingleRune(s, true, '<');
  }

  /** Text that prepares to one printable non-blank rune cleans to that rune. */
  lemma CleanSingleRune(raw: string, isXml: bool, c: char)
    requires Prepared(raw, isXml) == [c] && 33 <= c as int <= 126
    ensures Cleaned(raw, isXml) == [c]
  {
    FilteredKeepsKept([c], true);
    assert RunLength([c], IsNonSpace) == 1;
    assert [c][..1] == [c] && [c][1..] == [];
    assert !IsSpace(c);
    assert SplitRuns([], IsNonSpace) == [];
    assert Fields([c]) == [[c]];
  }

  lemma DecodeExample(s: string)
    requires s == "&amp;lt;"
    ensures DecodeEntities(s) == "<"
  {
    NoEarlierEntity(s);
    AmpersandStep(s);
    LessThanStep("&lt;");
    assert ReplaceAll("<", "&gt;", ">") == "<";
  }

  /** None of nbsp, quot and apos matches. */
  lemma NoEarlierEntity(s: string)
    requires s == "&amp;lt;"
    ensures ReplaceAll(ReplaceAll(ReplaceAll(s, "&nbsp;", " "), "&quot;", "\""), "&apos;", "'") == s
  {
    assert s[1..] == "amp;lt;";
    assert '&' !in s[1..];
    assert s[..6] == "&amp;l";
    OnlyLeadingAmpersand(s, "&nbsp;", " ");
    OnlyLeadingAmpersand(s, "&quot;", "\"");
    OnlyLeadingAmpersand(s, "&apos;", "'");
  }

  lemma AmpersandStep(s: string)
    requires s == "&amp;lt;"
    ensures ReplaceAll(s, "&amp;", "&") == "&lt;"
  {
    assert s[..5] == "&amp;";
    assert s[5..] == "lt;";
    ReplaceAllAbsent("lt;", "&amp;", "&");
  }

  lemma LessThanStep(s: string)
    requires s == "&lt;"
    ensures ReplaceAll(s, "&lt;", "<") == "<"
  {
    assert s[..4] == "&lt;";
    assert s[4..] == [];
  }

  /** A text whose only occurrence of the pattern's first rune is at its start, and which
      does not start with the pattern, is left as it is. */
  lemma OnlyLeadingAmpersand(s: string, pattern: string, replacement: string)
    requires pattern != [] && |s| >= |pattern| && s[..|pattern|] != pattern && pattern[0] !in s[1..]
    ensures ReplaceAll(s, pattern, replacement) == s
  {
    ReplaceAllAbsent(s[1..], pattern, replacement);
    assert [s[0]] + s[1..] == s;
  }

  /** A pattern whose first rune does not occur in the text is never replaced. */
  lemma {:induction false} ReplaceAllAbsent(s: string, pattern: string, replacement: string)
    requires pattern != [] && pattern[0] !in s
    ensures ReplaceAll(s, pattern, replacement) == s
    decreases |s|
  {
    if |s| >= |pattern| {
      assert s[..|pattern|][0] == s[0];
      ReplaceAllAbsent(s[1..], pattern, replacement);
      assert [s[0]] + s[1..] == s;
    }
  }

  lemma {:induction false} NoTagIsUnchanged(s: string)
    requires '<' !in s
    ensures StripTags(s) == s
    decreases |s|
  {
    if s != [] {
      NoTagIsUnchanged(s[1..]);
    }
  }

  lemma NoAmpersandNoEntity(s: string)
    requires '&' !in s
    ensures DecodeEntities(s) == s
  {
    ReplaceAllAbsent(s, "&nbsp;", " ");
    ReplaceAllAbsent(s, "&quot;", "\"");
    ReplaceAllAbsent(s, "&apos;", "'");
    ReplaceAllAbsent(s, "&amp;", "&");
    ReplaceAllAbsent(s, "&lt;", "<");
    ReplaceAllAbsent(s, "&gt;", ">");
  }

  // ---------------------------------------------------------------------
  // Whitelist and progress-line truncation

  const ReadableExtensions: set<string> := {".txt", ".rtf", ".pdf", ".docx"}

  /** isContentReadable */
  predicate IsContentReadable(ext: string) {
    Lower(ext) in ReadableExtensions
  }

  /** Equality up to ASCII case, an independent statement of "compared case-insensitively". */
  predicate EqualFold(a: string, b: string) {
    |a| == |b| && forall i | 0 <= i < |a| :: LowerChar(a[i]) == LowerChar(b[i])
  }

  lemma LowerIsEqualFold(a: string, b: string)
    requires Lower(b) == b
    ensures Lower(a) == b <==> EqualFold(a, b)
  {
    if EqualFold(a, b) {
      assert forall i | 0 <= i < |a| :: Lower(a)[i] == LowerChar(b[i]) == Lower(b)[i];
    }
  }

  /** Exactly .txt, .rtf, .pdf and .docx are readable, in any letter case. */
  lemma ContentReadableExactly(ext: string)
    ensures IsContentReadable(ext) <==>
      EqualFold(ext, ".txt") || EqualFold(ext, ".rtf") || EqualFold(ext, ".pdf") || EqualFold(ext, ".docx")
  {
    LowerIsEqualFold(ext, ".txt");
    LowerIsEqualFold(ext, ".rtf");
    LowerIsEqualFold(ext, ".pdf");
    LowerIsEqualFold(ext, ".docx");
  }

  /** truncateString: at most num runes of the text, then "..." when something was cut. */
  function TruncateString(s: string, num: nat): (r: string)
    ensures |s| <= num ==> r == s
    ensures |s| > num ==> |r| == num + 3 && HasPrefix(s, r[..num]) && HasSuffix(r, "...")
  {
    if |s| > num then s[..num] + "..." else s
  }

  // ---------------------------------------------------------------------
  // Readers

  /** What the file's parser yields: Plain is the bytes of the file from its start, Docx the
      document XML, Pdf one entry per page (None for a null page); Unopenable when the
      parser reports an error or panics. */
  datatype Source = Unopenable | Plain(data: string) | Docx(xml: string) | Pdf(pages: seq<Option<string>>)

  function Min(a: int, b: int): int {
    if a < b then a else b
  }

  predicate IsMarkupExtension(ext: string) {
    ext == ".xml" || ext == ".html" || ext == ".htm" || ext == ".svg"
  }

  /** readTextContent: one read of at most MaxReadSize, markup mode for .xml/.html/.htm/.svg. */
  function ReadTextContent(path: string, data: string): string {
    Cleaned(data[..Min(|data|, MaxReadSize)], IsMarkupExtension(Lower(Ext(path))))
  }

  /** readDocxContent: the document XML capped at MaxReadSize, cleaned in markup mode. */
  function ReadDocxContent(xml: string): string {
    Cleaned(xml[..Min(|xml|, MaxReadSize)], true)
  }

  /** The PDF page loop from page index i: a non-null page adds its text and a space, and the
      loop stops once the buffer exceeds MaxReadSize. */
  function PdfBuffer(pages: seq<Option<string>>, i: nat, limit: nat, buf: string): string
    requires limit <= |pages|
    decreases limit - i
  {
    if i >= limit then buf
    else if pages[i].None? then PdfBuffer(pages, i + 1, limit, buf)
    else
      var b := buf + pages[i].value + " ";
      if |b| > MaxReadSize then b else PdfBuffer(pages, i + 1, limit, b)
  }

  /** The text gathered from at most the first five pages. */
  function PdfText(pages: seq<Option<string>>): string {
    PdfBuffer(pages, 0, Min(5, |pages|), "")
  }

  /** Pages after the fifth are never read. */
  lemma PdfIgnoresLaterPages(pages: seq<Option<string>>, more: seq<Option<string>>)
    requires |pages| >= 5
    ensures PdfText(pages + more) == PdfText(pages)
  {
    PdfBufferPrefix(pages, more, 0, "");
  }

  lemma {:induction false} PdfBufferPrefix(pages: seq<Option<string>>, more: seq<Option<string>>, i: nat, buf: string)
    requires |pages| >= 5
    ensures PdfBuffer(pages + more, i, 5, buf) == PdfBuffer(pages, i, 5, buf)
    decreases 5 - i
  {
    if i < 5 {
      assert (pages + more)[i] == pages[i];
      PdfBufferPrefix(pages, more, i + 1, buf);
      if pages[i].Some? {
        PdfBufferPrefix(pages, more, i + 1, buf + pages[i].value + " ");
      }
    }
  }

  /** Once past the cap no further page is appended: the buffer exceeds MaxReadSize by at
      most one page and its trailing space. */
  lemma {:induction false} PdfBufferBound(pages: seq<Option<string>>, i: nat, limit: nat, buf: string, longest: nat)
    requires limit <= |pages| && |buf| <= MaxReadSize
    requires forall k | 0 <= k < |pages| && pages[k].Some? :: |pages[k].value| <= longest
    ensures |PdfBuffer(pages, i, limit, buf)| <= MaxReadSize + longest + 1
    decreases limit - i
  {
    if i < limit {
      if pages[i].None? {
        PdfBufferBound(pages, i + 1, limit, buf, longest);
      } else {
        var b := buf + pages[i].value + " ";
        if |b| <= MaxReadSize {
          PdfBufferBound(pages, i + 1, limit, b, longest);
        }
      }
    }
  }

  /** readPdfContent: the page loop, then cleaning in plain mode. */
  method ReadPdfContent(pages: seq<Option<string>>) returns (r: string)
    ensures r == Cleaned(PdfText(pages), false)
  {
    var buf := "";
    var limit := 5;
    if |pages| < limit {
      limit := |pages|;
    }
    var i := 0;
    while i < limit
      invariant 0 <= i <= limit <= |pages| && limit == Min(5, |pages|)
      invariant PdfBuffer(pages, i, limit, buf) == PdfText(pages)
    {
      if pages[i].Some? {
        buf := buf + pages[i].value + " ";
        if |buf| > MaxReadSize {
          break;
        }
      }
      i := i + 1;
    }
    r := CleanText(buf, false);
  }

  /** What the reader chosen by the lower-cased extension returns when it finishes. */
  function Extracted(path: string, source: Source): string {
    var ext := Lower(Ext(path));
    if ext == ".pdf" then (if source.Pdf? then Cleaned(PdfText(source.pages), false) else "")
    else if ext == ".docx" then (if source.Docx? then ReadDocxContent(source.xml) else "")
    else if source.Plain? then ReadTextContent(path, source.data)
    else ""
  }

  /** getContentWithTimeout: the extracted content, or "" when the timer fires first. */
  method GetContentWithTimeout(path: string, source: Source, timedOut: bool) returns (content: string)
    ensures content == if timedOut then "" else Extracted(path, source)
    ensures IsClean(content)
    ensures Lower(Ext(path)) != ".pdf" ==> |content| <= MaxReadSize
  {
    if timedOut {
      return "";
    }
    var ext := Lower(Ext(path));
    if ext == ".pdf" {
      if source.Pdf? {
        content := ReadPdfContent(source.pages);
      } else {
        content := "";
      }
    } else if ext == ".docx" {
      content := if source.Docx? then ReadDocxContent(source.xml) else "";
    } else {
      content := if source.Plain? then ReadTextContent(path, source.data) else "";
    }
    ExtractedIsClean(path, source);
  }

  /** Whatever a reader returns is clean, and the text and DOCX readers stay within the cap. */
  lemma ExtractedIsClean(path: string, source: Source)
    ensures IsClean(Extracted(path, source))
    ensures Lower(Ext(path)) != ".pdf" ==> |Extracted(path, source)| <= MaxReadSize
  {
    var ext := Lower(Ext(path));
    if ext == ".pdf" {
      if source.Pdf? {
        CleanedIsClean(PdfText(source.pages), false);
      }
    } else if ext == ".docx" {
      if source.Docx? {
        CleanedIsClean(source.xml[..Min(|source.xml|, MaxReadSize)], true);
        CleanedLength(source.xml[..Min(|source.xml|, MaxReadSize)], true);
      }
    } else if source.Plain? {
      var data := source.data[..Min(|source.data|, MaxReadSize)];
      CleanedIsClean(data, IsMarkupExtension(ext));
      CleanedLength(data, IsMarkupExtension(ext));
    }
  }
}
