/**
  core/icons.go: the icons and thumbnails shown next to results.

  The Windows shell, the geticon library, image decoding and PNG/base64
  encoding are inputs: each is given as the image (or the text) it produced,
  or None when it failed.  What is modelled is the choice between them, the
  thumbnail geometry with its nearest-neighbour sampling, and the BGRA to
  RGBA conversion of the shell's bitmaps.
 */
module Icons {
  import opened Wrappers
  import opened Text

  const ImageExts: seq<string> := [".jpg", ".jpeg", ".png", ".gif", ".bmp", ".webp", ".tiff", ".tif", ".ico"]
  const VideoExts: seq<string> := [".mp4", ".avi", ".mkv", ".mov", ".wmv", ".flv", ".webm", ".m4v", ".mpg", ".mpeg"]
  const MaxThumb: nat := 256
  const DataUriPrefix: string := "data:image/png;base64,"

  /** isImageFile: a case-insensitive match against the image extensions. */
  predicate IsImageFile(ext: string) {
    Lower(ext) in ImageExts
  }

  /** isVideoFile: a case-insensitive match against the video extensions. */
  predicate IsVideoFile(ext: string) {
    Lower(ext) in VideoExts
  }

  /** No extension is both an image and a video. */
  lemma ImageAndVideoDisjoint(ext: string)
    ensures !(IsImageFile(ext) && IsVideoFile(ext))
  {
  }

  lemma LowerIdempotent(s: string)
    ensures Lower(Lower(s)) == Lower(s)
  {
  }

  /** Case does not matter: ".JPG" is an image like ".jpg". */
  lemma ExtensionCaseIgnored(ext: string)
    ensures IsImageFile(ext) == IsImageFile(Lower(ext)) && IsVideoFile(ext) == IsVideoFile(Lower(ext))
  {
    LowerIdempotent(ext);
  }

  // ---------------------------------------------------------------------
  // Thumbnails

  /** An RGBA colour. */
  datatype Pixel = Pixel(r: bv8, g: bv8, b: bv8, a: bv8)

  /** A decoded image, row by row. */
  datatype Image = Image(width: nat, height: nat, rows: seq<seq<Pixel>>)

  predicate WellFormed(img: Image) {
    |img.rows| == img.height && forall y | 0 <= y < img.height :: |img.rows[y]| == img.width
  }

  /** short * 256 / long: the other side of a thumbnail whose long side became 256.  It is
      the exact proportion rounded down, and exceeds neither the short side nor 256. */
  function Scaled(short: nat, long: nat): (s: nat)
    requires short <= long && long > MaxThumb
    ensures s <= short && s <= MaxThumb
    ensures s * long <= short * MaxThumb < (s + 1) * long
  {
    var q := (short * MaxThumb) / long;
    assert q * long <= short * MaxThumb < q * long + long;
    assert (q + 1) * long == q * long + long;
    MulLeMono(short, short, MaxThumb, long);
    MulLeCancel(q, short, long);
    MulLeMono(short, long, MaxThumb, MaxThumb);
    MulLeCancel(q, MaxThumb, long);
    q
  }

  lemma MulLeMono(a: nat, b: nat, c: nat, d: nat)
    requires a <= b && c <= d
    ensures a * c <= b * d
  {
  }

  lemma MulLeCancel(a: nat, b: nat, c: nat)
    requires c > 0 && a * c <= b * c
    ensures a <= b
  {
  }

  /** The size of the thumbnail of a w by h image larger than 256 on some side: the longer
      side (the height on a tie) becomes 256, the other is scaled in proportion. */
  function ThumbSize(w: nat, h: nat): (size: (nat, nat))
    requires w > MaxThumb || h > MaxThumb
    ensures size.0 <= MaxThumb && size.1 <= MaxThumb && size.0 <= w && size.1 <= h
    ensures w > h ==> size.0 == MaxThumb && size.1 == Scaled(h, w)
    ensures w <= h ==> size.1 == MaxThumb && size.0 == Scaled(w, h)
  {
    if w > h then (MaxThumb, Scaled(h, w)) else (Scaled(w, h), MaxThumb)
  }

  /** The nearest source coordinate of output coordinate i when n outputs sample m inputs. */
  function Nearest(i: nat, m: nat, n: nat): (s: nat)
    requires i < n && m > 0
    ensures s < m
  {
    NearestBelow(i, m, n);
    (i * m) / n
  }

  lemma NearestBelow(i: nat, m: nat, n: nat)
    requires i < n && m > 0
    ensures (i * m) / n < m
  {
    var q := (i * m) / n;
    assert q * n <= i * m;
    MulLeMono(i + 1, n, m, m);
    assert (i + 1) * m == i * m + m;
    assert n * m == m * n;
    MulLtCancel(q, m, n);
  }

  lemma MulLtCancel(a: nat, b: nat, c: nat)
    requires c > 0 && a * c < b * c
    ensures a < b
  {
  }

  /** The rows built so far sample the image: pixel (x, k) of a newW by newH thumbnail is
      source pixel (Nearest(x), Nearest(k)). */
  ghost predicate SampledRows(img: Image, rows: seq<seq<Pixel>>, newW: nat, newH: nat)
    requires WellFormed(img) && newW <= img.width && |rows| <= newH <= img.height
  {
    forall k | 0 <= k < |rows| ::
      && |rows[k]| == newW
      && forall x | 0 <= x < newW ::
           rows[k][x] == img.rows[Nearest(k, img.height, newH)][Nearest(x, img.width, newW)]
  }

  /** A thumbnail that is a nearest-neighbour sample of the image. */
  ghost predicate Samples(thumb: Image, img: Image)
    requires WellFormed(img)
  {
    && thumb.width <= img.width && thumb.height <= img.height && |thumb.rows| == thumb.height
    && SampledRows(img, thumb.rows, thumb.width, thumb.height)
  }

  /** One row of the thumbnail: pixel x samples source column x * w / newW. */
  method ThumbnailRow(img: Image, srcRow: nat, newW: nat) returns (row: seq<Pixel>)
    requires WellFormed(img) && srcRow < img.height && newW <= img.width
    ensures |row| == newW
    ensures forall x | 0 <= x < newW :: row[x] == img.rows[srcRow][Nearest(x, img.width, newW)]
  {
    row := [];
    var x := 0;
    while x < newW
      invariant 0 <= x <= newW && |row| == x
      invariant forall k | 0 <= k < x :: row[k] == img.rows[srcRow][Nearest(k, img.width, newW)]
    {
      var srcX := (x * img.width) / newW;
      NearestBelow(x, img.width, newW);
      row := row + [img.rows[srcRow][srcX]];
      x := x + 1;
    }
  }

  /** The resampling loops of GetImageThumbnail. */
  method Resample(img: Image, newW: nat, newH: nat) returns (thumb: Image)
    requires WellFormed(img) && newW <= img.width && newH <= img.height
    ensures thumb.width == newW && thumb.height == newH && WellFormed(thumb) && Samples(thumb, img)
  {
    var rows: seq<seq<Pixel>> := [];
    var y := 0;
    while y < newH
      invariant 0 <= y <= newH && |rows| == y
      invariant SampledRows(img, rows, newW, newH)
    {
      var srcY := (y * img.height) / newH;
      NearestBelow(y, img.height, newH);
      var row := ThumbnailRow(img, srcY, newW);
      rows := rows + [row];
      y := y + 1;
    }
    thumb := Image(newW, newH, rows);
  }

  /** GetImageThumbnail: a decoding failure is an error; an image at most 256 on both sides is
      returned as it is; any other is resampled by nearest neighbour to ThumbSize, so that
      every thumbnail fits in 256 by 256. */
  method GetImageThumbnail(decoded: Option<Image>) returns (thumb: Result<Image>)
    requires decoded.Some? ==> WellFormed(decoded.value)
    ensures decoded.None? <==> thumb.Err?
    ensures thumb.Ok? ==> WellFormed(thumb.value) && thumb.value.width <= MaxThumb && thumb.value.height <= MaxThumb
    ensures decoded.Some? && decoded.value.width <= MaxThumb && decoded.value.height <= MaxThumb ==>
      thumb == Ok(decoded.value)
    ensures decoded.Some? && (decoded.value.width > MaxThumb || decoded.value.height > MaxThumb) ==>
      && thumb.Ok?
      && (thumb.value.width, thumb.value.height) == ThumbSize(decoded.value.width, decoded.value.height)
      && Samples(thumb.value, decoded.value)
  {
    if decoded.None? {
      return Err("image: unknown format");
    }
    var img := decoded.value;
    var width, height := img.width, img.height;
    if width <= MaxThumb && height <= MaxThumb {
      return Ok(img);
    }
    var newWidth, newHeight;
    if width > height {
      newWidth := MaxThumb;
      newHeight := (height * MaxThumb) / width;
    } else {
      newHeight := MaxThumb;
      newWidth := (width * MaxThumb) / height;
    }
    assert (newWidth, newHeight) == ThumbSize(width, height);
    var resized := Resample(img, newWidth, newHeight);
    thumb := Ok(resized);
  }

  // ---------------------------------------------------------------------
  // The shell's bitmaps

  /** The first n pixels of pix are those of buffer with the first and third bytes (blue and
      red) exchanged; the second and fourth (green and alpha) are kept. */
  ghost predicate SwizzledUpTo(pix: seq<bv8>, buffer: seq<bv8>, n: nat)
    requires |pix| == |buffer| && 4 * n <= |buffer|
  {
    forall p | 0 <= p < n ::
      && pix[4 * p] == buffer[4 * p + 2] && pix[4 * p + 1] == buffer[4 * p + 1]
      && pix[4 * p + 2] == buffer[4 * p] && pix[4 * p + 3] == buffer[4 * p + 3]
  }

  /** The conversion loop of getIconFromShell and GetExtensionIconBase64: pixel (x, y) sits at
      offset (y * width + x) * 4 in both buffers; blue and red trade places. */
  method BgraToRgba(buffer: seq<bv8>, width: nat, height: nat) returns (pix: array<bv8>)
    requires |buffer| == width * height * 4
    ensures fresh(pix) && pix.Length == |buffer|
    ensures SwizzledUpTo(pix[..], buffer, width * height)
  {
    pix := new bv8[width * height * 4];
    ghost var area := width * height;
    ghost var rowStart := 0;
    var y := 0;
    while y < height
      invariant 0 <= y <= height && rowStart == y * width && rowStart <= area
      invariant SwizzledUpTo(pix[..], buffer, rowStart)
    {
      RowInside(y, width, height, rowStart);
      ConvertRow(pix, buffer, y, width, rowStart);
      rowStart := rowStart + width;
      y := y + 1;
    }
  }

  /** The inner loop of the conversion: row y, whose first pixel is rowStart = y * width. */
  method ConvertRow(pix: array<bv8>, buffer: seq<bv8>, y: nat, width: nat, ghost rowStart: nat)
    requires pix.Length == |buffer| && rowStart == y * width && 4 * (rowStart + width) <= |buffer|
    requires SwizzledUpTo(pix[..], buffer, rowStart)
    modifies pix
    ensures SwizzledUpTo(pix[..], buffer, rowStart + width)
  {
    var x := 0;
    while x < width
      invariant 0 <= x <= width
      invariant SwizzledUpTo(pix[..], buffer, rowStart + x)
    {
      var offset := (y * width + x) * 4;
      ConvertPixel(pix, buffer, offset, rowStart + x);
      x := x + 1;
    }
  }

  /** The body of the conversion loop: the pixel at offset = 4 * p is copied with blue and
      red exchanged, extending the converted prefix by one pixel. */
  method ConvertPixel(pix: array<bv8>, buffer: seq<bv8>, offset: nat, ghost p: nat)
    requires pix.Length == |buffer| && offset == 4 * p && offset + 4 <= |buffer|
    requires SwizzledUpTo(pix[..], buffer, p)
    modifies pix
    ensures SwizzledUpTo(pix[..], buffer, p + 1)
  {
    ghost var before := pix[..];
    var b := buffer[offset];
    var g := buffer[offset + 1];
    var r := buffer[offset + 2];
    var a := buffer[offset + 3];
    pix[offset] := r;
    pix[offset + 1] := g;
    pix[offset + 2] := b;
    pix[offset + 3] := a;
    SwizzleStep(before, pix[..], buffer, p);
  }

  /** Writing pixel p's four bytes extends the converted prefix by one pixel. */
  lemma SwizzleStep(before: seq<bv8>, after: seq<bv8>, buffer: seq<bv8>, p: nat)
    requires |before| == |after| == |buffer| && 4 * p + 4 <= |buffer|
    requires SwizzledUpTo(before, buffer, p)
    requires forall i | 0 <= i < 4 * p :: after[i] == before[i]
    requires after[4 * p] == buffer[4 * p + 2] && after[4 * p + 1] == buffer[4 * p + 1]
    requires after[4 * p + 2] == buffer[4 * p] && after[4 * p + 3] == buffer[4 * p + 3]
    ensures SwizzledUpTo(after, buffer, p + 1)
  {
  }

  /** Row y of a width by height image, starting at pixel rowStart = y * width, lies inside it
      and the next row starts at (y + 1) * width. */
  lemma RowInside(y: nat, width: nat, height: nat, rowStart: nat)
    requires y < height && rowStart == y * width
    ensures rowStart + width == (y + 1) * width <= width * height
  {
    MulLeMono(y + 1, height, width, width);
  }

  /** The conversion is its own inverse: swapping blue and red again restores the buffer. */
  lemma SwizzleInvolution(pix: seq<bv8>, buffer: seq<bv8>, n: nat)
    requires |pix| == |buffer| == 4 * n && SwizzledUpTo(pix, buffer, n)
    ensures SwizzledUpTo(buffer, pix, n)
  {
  }

  // ---------------------------------------------------------------------
  // GetAppIconBase64

  /** Where an icon can come from. */
  datatype Source = Thumbnail | Shell | GetIcon

  /** The order the sources are tried in, by lower-cased extension. */
  function SourcesFor(ext: string): (order: seq<Source>)
    ensures 1 <= |order| <= 2
  {
    if IsImageFile(ext) then [Thumbnail, Shell]
    else if IsVideoFile(ext) then [Shell]
    else if ext == ".lnk" || ext == ".exe" then [Shell, GetIcon]
    else [GetIcon, Shell]
  }

  /** The first source in the order that yields an image. */
  function FirstImage(order: seq<Source>, attempt: Source -> Option<Image>): (img: Option<Image>)
    ensures img.Some? <==> exists k | 0 <= k < |order| :: attempt(order[k]).Some?
    ensures img.Some? ==> exists k | 0 <= k < |order| ::
      && attempt(order[k]) == img
      && forall j | 0 <= j < k :: attempt(order[j]).None?
  {
    if order == [] then None
    else if attempt(order[0]).Some? then attempt(order[0])
    else
      var rest := FirstImage(order[1..], attempt);
      assert forall k | 1 <= k < |order| :: order[k] == order[1..][k - 1];
      if rest.Some? then
        ghost var k :| 0 <= k < |order[1..]| && attempt(order[1..][k]) == rest && forall j | 0 <= j < k :: attempt(order[1..][j]).None?;
        assert attempt(order[k + 1]) == rest;
        rest
      else rest
  }

  /** GetAppIconBase64: "" when the path cannot be made absolute or does not exist, when no
      source yields an image, or when encoding fails; otherwise the PNG data URI of the first
      image in the extension's order. */
  function AppIcon(absolute: bool, exists_: bool, path: string, attempt: Source -> Option<Image>,
                   encode: Image -> Option<string>): (uri: string)
    ensures uri == "" || HasPrefix(uri, DataUriPrefix)
    ensures uri != "" <==> absolute && exists_ && FirstImage(SourcesFor(Lower(Ext(path))), attempt).Some?
                           && encode(FirstImage(SourcesFor(Lower(Ext(path))), attempt).value).Some?
  {
    if !absolute || !exists_ then ""
    else
      var img := FirstImage(SourcesFor(Lower(Ext(path))), attempt);
      if img.None? then ""
      else
        match encode(img.value)
        case None => ""
        case Some(text) =>
          assert (DataUriPrefix + text)[..|DataUriPrefix|] == DataUriPrefix;
          DataUriPrefix + text
  }

  /** Shortcuts and programs try the shell before geticon; documents the other way round;
      images try their own thumbnail first. */
  lemma DispatchOrder(ext: string)
    ensures IsImageFile(ext) ==> SourcesFor(ext) == [Thumbnail, Shell]
    ensures !IsImageFile(ext) && IsVideoFile(ext) ==> SourcesFor(ext) == [Shell]
    ensures !IsImageFile(ext) && !IsVideoFile(ext) && (ext == ".lnk" || ext == ".exe") ==> SourcesFor(ext) == [Shell, GetIcon]
    ensures !IsImageFile(ext) && !IsVideoFile(ext) && ext != ".lnk" && ext != ".exe" ==> SourcesFor(ext) == [GetIcon, Shell]
  {
  }

  /** GetExtensionIconBase64: "" for no extension or when the shell has no icon for it. */
  function ExtensionIcon(ext: string, shellIcon: Option<Image>, encode: Image -> Option<string>): (uri: string)
    ensures ext == "" ==> uri == ""
    ensures uri == "" || HasPrefix(uri, DataUriPrefix)
    ensures uri != "" <==> ext != "" && shellIcon.Some? && encode(shellIcon.value).Some?
  {
    if ext == "" || shellIcon.None? then ""
    else
      match encode(shellIcon.value)
      case None => ""
      case Some(text) =>
        assert (DataUriPrefix + text)[..|DataUriPrefix|] == DataUriPrefix;
        DataUriPrefix + text
  }
}
