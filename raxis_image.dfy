/**
 * Reading a Rigaku RAXIS image: the header block is decoded, the pixel
 * counts are looked up in it, the pixels are taken from the tail of the
 * file as unsigned 16-bit values in the file's byte order, arranged in rows
 * of "X Pixels" columns, and every value with the top bit set is replaced by
 * its signed reading scaled by the photomultiplier ratio.
 *
 * Floats are not modelled bit by bit: `floatOf` is the reading of four
 * bytes, most significant first, as a number, and pixel values are reals.
 */
module RaxisImage {
  import opened Bytes
  import opened Results
  import opened RaxisLayout
  import opened RaxisHeader
  import opened RaxisKeys

  const XPixels := "X Pixels"
  const YPixels := "Y Pixels"
  const PhotomultiplierRatio := "Photomultiplier Ratio"

  /** The `struct` prefix that selects a byte order. */
  function Prefix(order: ByteOrder): char
  {
    if order == BigEndian then '>' else '<'
  }

  /** The byte order a `struct` prefix selects; only '<' and '>' are modelled. */
  function OrderOf(endian: char): (order: ByteOrder)
    requires endian == '<' || endian == '>'
    ensures Prefix(order) == endian
  {
    if endian == '<' then LittleEndian else BigEndian
  }

  function HostOrder(hostLittle: bool): ByteOrder
  {
    if hostLittle then LittleEndian else BigEndian
  }

  /** Whether values stored with prefix `endian` must be byte swapped after
      reading them in host order; no answer for any other prefix. */
  function SwapNeeded(endian: char, hostLittle: bool): (r: Option<bool>)
    ensures r.None? <==> endian != '<' && endian != '>'
    ensures r.Some? ==> (r.value <==> OrderOf(endian) != HostOrder(hostLittle))
  {
    if (endian == '<' && hostLittle) || (endian == '>' && !hostLittle) then Some(false)
    else if (endian == '>' && hostLittle) || (endian == '<' && !hostLittle) then Some(true)
    else None
  }

  /** The bytes read for the pixels: the last `size` bytes of the file. A
      size larger than the file makes the seek fail, which is only logged,
      so the read starts at the beginning and takes the whole file; a
      negative size seeks past the end and reads nothing. */
  function PixelBlock(file: seq<byte>, size: int): (block: seq<byte>)
    ensures |block| == if size <= 0 then 0 else if size <= |file| then size else |file|
    ensures block == file[|file| - |block|..]
  {
    if size <= 0 then [] else if size <= |file| then file[|file| - size..] else file
  }

  /** The unsigned values of the elements read in host order. */
  function NativeValues(els: seq<seq<byte>>, hostLittle: bool): (vs: seq<nat>)
    ensures |vs| == |els|
    ensures forall i :: 0 <= i < |els| ==> vs[i] == UnsignedValue(els[i], HostOrder(hostLittle))
  {
    seq(|els|, i requires 0 <= i < |els| => UnsignedValue(els[i], HostOrder(hostLittle)))
  }

  /** The pixels of the block: unsigned 16-bit values read in host order,
      byte swapped when the file's prefix asks for it. */
  function PixelValues(block: seq<byte>, endian: char, hostLittle: bool): (px: seq<nat>)
    requires |block| % 2 == 0
    ensures |px| == |block| / 2
  {
    var els := Chunks(block, 2);
    if SwapNeeded(endian, hostLittle) == Some(true) then NativeValues(ByteSwapped(els), hostLittle)
    else NativeValues(els, hostLittle)
  }

  /** Whatever the host, the pixels are the 2-byte values of the block read
      in the file's byte order. */
  lemma PixelsInFileOrder(block: seq<byte>, order: ByteOrder, hostLittle: bool)
    requires |block| % 2 == 0
    ensures var px := PixelValues(block, Prefix(order), hostLittle);
      |px| == |block| / 2 &&
      forall i :: 0 <= i < |px| ==> px[i] == UnsignedValue(block[2 * i .. 2 * i + 2], order) && px[i] < 65536
  {
    var px := PixelValues(block, Prefix(order), hostLittle);
    var els := Chunks(block, 2);
    ChunksAt(block, 2);
    forall i | 0 <= i < |px|
      ensures px[i] == UnsignedValue(block[2 * i .. 2 * i + 2], order) && px[i] < 65536
    {
      assert els[i] == block[i * 2 .. i * 2 + 2];
      assert i * 2 == 2 * i;
      if order != HostOrder(hostLittle) {
        SwapOppositeOrder(els[i], order);
      }
      assert Pow256(2) == 65536;
    }
  }

  /** The sign-bit correction of one pixel: a value with the top bit set is
      read as a signed 16-bit value and scaled by the ratio. */
  function Corrected(v: real, ratio: real): real
  {
    if v >= 32768.0 then (v - 65536.0) * ratio else v
  }

  /** The pixel a corrected value came from, for a positive ratio. */
  function Uncorrected(x: real, ratio: real): real
    requires ratio > 0.0
  {
    if x < 0.0 then x / ratio + 65536.0 else x
  }

  /** With a positive ratio the correction makes exactly the values with the
      top bit set negative, leaves the others alone, and can be undone. */
  lemma CorrectionInvertible(v: real, ratio: real)
    requires 0.0 <= v < 65536.0 && ratio > 0.0
    ensures Corrected(v, ratio) < 0.0 <==> v >= 32768.0
    ensures v < 32768.0 ==> Corrected(v, ratio) == v
    ensures Uncorrected(Corrected(v, ratio), ratio) == v
  {
    if v >= 32768.0 {
      var d := v - 65536.0;
      assert d < 0.0;
      assert d * ratio < 0.0;
      assert (d * ratio) / ratio == d;
    }
  }

  /** The corrected pixels, in order. */
  function CorrectAll(xs: seq<real>, ratio: real): (r: seq<real>)
    ensures |r| == |xs|
    ensures forall i :: 0 <= i < |xs| ==> r[i] == Corrected(xs[i], ratio)
  {
    seq(|xs|, i requires 0 <= i < |xs| => Corrected(xs[i], ratio))
  }

  function Reals(px: seq<nat>): (r: seq<real>)
    ensures |r| == |px|
    ensures forall i :: 0 <= i < |px| ==> r[i] == px[i] as real
  {
    seq(|px|, i requires 0 <= i < |px| => px[i] as real)
  }

  /** How a uint16 array keeps an integer stored into it: modulo 2^16, the
      unchecked in-place cast of numpy before 1.10. */
  function StoreUint16(x: int): (u: nat)
    ensures u < 65536 && (x - u) % 65536 == 0
  {
    x % 65536
  }

  /** `data[di] -= 2**16` as the reader writes it: the difference is stored
      back into the uint16 array. */
  function AsWrittenSubtract(v: nat): nat
  {
    StoreUint16(v - 65536)
  }

  /** `data[di] *= sf` as the reader writes it: the scaled value is stored
      back into the uint16 array, truncated to an integer and kept modulo
      2^16 (C leaves the conversion of an out-of-range float undefined; the
      model takes the usual wrap-around). */
  function AsWrittenScale(u: nat, ratio: real): nat
  {
    StoreUint16((u as real * ratio).Floor)
  }

  /** The correction as the reader writes it, one uint16 pixel at a time. */
  function AsWrittenCorrection(v: nat, ratio: real): (u: nat)
    requires v < 65536
    ensures u < 65536
  {
    if v >= 32768 then AsWrittenScale(AsWrittenSubtract(v), ratio) else v
  }

  /** The subtraction is lost: a pixel with the top bit set is scaled as it
      was and stays a non-negative uint16, while the intended correction
      makes it negative (40000 with ratio 0.5 gives 20000 instead of -12768). */
  lemma AsWrittenLosesSign(v: nat, ratio: real)
    requires 32768 <= v < 65536 && ratio > 0.0
    ensures AsWrittenCorrection(v, ratio) == AsWrittenScale(v, ratio)
    ensures Corrected(v as real, ratio) < 0.0
    ensures v == 40000 && ratio == 0.5 ==>
      AsWrittenCorrection(v, ratio) == 20000 && Corrected(v as real, ratio) == -12768.0
  {
    assert AsWrittenSubtract(v) == v by { assert v - 65536 + 65536 == v; }
    CorrectionInvertible(v as real, ratio);
    if v == 40000 && ratio == 0.5 {
      assert v as real * ratio == 20000.0;
      assert AsWrittenScale(v, ratio) == 20000;
    }
  }

  /** The shape numpy's `reshape` gives `count` elements for the requested
      (rows, cols): both given and multiplying to `count`, or one of them
      negative, the unknown one, inferred from the other, which must not be
      zero and must divide `count`; anything else is refused. */
  datatype Shape = Shape(rows: nat, cols: nat)

  function Reshape(count: nat, rows: int, cols: int): (s: Option<Shape>)
    ensures s.Some? ==> s.value.rows * s.value.cols == count
    ensures s.Some? && rows >= 0 ==> s.value.rows == rows
    ensures s.Some? && cols >= 0 ==> s.value.cols == cols
    ensures rows >= 0 && cols >= 0 ==> (s.Some? <==> rows * cols == count)
    ensures rows < 0 && cols >= 0 ==> (s.Some? <==> cols != 0 && count % cols == 0)
    ensures cols < 0 && rows >= 0 ==> (s.Some? <==> rows != 0 && count % rows == 0)
    ensures rows < 0 && cols < 0 ==> s.None?
  {
    if rows >= 0 && cols >= 0 then
      if rows * cols == count then Some(Shape(rows, cols)) else None
    else if rows < 0 && cols > 0 && count % cols == 0 then
      Some(Shape(count / cols, cols))
    else if cols < 0 && rows > 0 && count % rows == 0 then
      Some(Shape(rows, count / rows))
    else None
  }

  /** A grid of pixels kept row after row. */
  datatype Raster = Raster(rows: nat, cols: nat, pixels: seq<real>)
  {
    predicate Valid()
    {
      rows * cols == |pixels|
    }
  }

  lemma RowMajorIndex(rows: nat, cols: nat, r: nat, c: nat)
    requires r < rows && c < cols
    ensures r * cols + c < rows * cols
  {
    assert (r + 1) * cols <= rows * cols;
  }

  /** The pixel in row `r` and column `c`. */
  function At(raster: Raster, r: nat, c: nat): real
    requires raster.Valid() && r < raster.rows && c < raster.cols
  {
    RowMajorIndex(raster.rows, raster.cols, r, c);
    raster.pixels[r * raster.cols + c]
  }

  /** A pixel count as stored in the header; both are 4-byte integer
      fields, so the other case does not occur (see `RaxisLayout.ReaderKinds`). */
  function Dim(v: Value): int
  {
    if v.Long? then v.n else 0
  }

  /** The photomultiplier ratio as stored in the header; it is a float
      field, so the other case does not occur (see `RaxisLayout.ReaderKinds`). */
  function Ratio(v: Value, floatOf: seq<byte> -> real): real
  {
    if v.Float? then floatOf(v.bits) else 0.0
  }

  /** Why an image cannot be read: the header block ends inside a field, a
      key the reader looks up is absent, the pixel block has an odd length,
      or its elements do not fill the requested shape. */
  datatype RaxisError =
    | HeaderTruncated(field: nat)
    | MissingKey(key: string)
    | OddBlock(length: nat)
    | BadShape(count: nat, rows: int, cols: int)

  /** A read image: the header, "X Pixels" as dim1, "Y Pixels" as dim2, and
      the corrected pixels with dim2 rows of dim1 columns. */
  datatype RaxisDecoded = RaxisDecoded(header: map<string, Value>, dim1: int, dim2: int, raster: Raster)

  /** The pixels the counts `dim1` ("X Pixels") and `dim2` ("Y Pixels")
      select: the block at the tail of the file, in file order, reshaped
      into dim2 rows of dim1 columns, before any correction. */
  function RawRaster(file: seq<byte>, order: ByteOrder, hostLittle: bool, dim1: int, dim2: int)
    : (r: Result<Raster, RaxisError>)
    ensures r.Success? ==> r.value.Valid()
  {
    var block := PixelBlock(file, dim2 * dim1 * 2); // 2 bytes per uint16 pixel
    if |block| % 2 != 0 then Failure(OddBlock(|block|))
    else
      var count := |block| / 2;
      var shape := Reshape(count, dim2, dim1);
      if shape.None? then Failure(BadShape(count, dim2, dim1))
      else
        var px := PixelValues(block, Prefix(order), hostLittle);
        Success(Raster(shape.value.rows, shape.value.cols, Reals(px)))
  }

  /** The raster the reader keeps: the raw raster with every pixel corrected
      by the photomultiplier ratio, which is looked up only after the reshape. */
  function ReadPixels(file: seq<byte>, order: ByteOrder, hostLittle: bool, dim1: int, dim2: int, ratio: Option<real>)
    : (r: Result<Raster, RaxisError>)
    ensures r.Success? ==> r.value.Valid()
  {
    match RawRaster(file, order, hostLittle, dim1, dim2)
    case Failure(e) => Failure(e)
    case Success(raw) =>
      if ratio.None? then Failure(MissingKey(PhotomultiplierRatio))
      else Success(Raster(raw.rows, raw.cols, CorrectAll(raw.pixels, ratio.value)))
  }

  function HeaderRatio(header: map<string, Value>, floatOf: seq<byte> -> real): Option<real>
  {
    if PhotomultiplierRatio in header then Some(Ratio(header[PhotomultiplierRatio], floatOf)) else None
  }

  /** What the reader makes of a decoded header: the pixel counts from
      "X Pixels" and "Y Pixels", then the raster. */
  function DecodeFromHeader(file: seq<byte>, order: ByteOrder, hostLittle: bool, floatOf: seq<byte> -> real,
                            header: map<string, Value>)
    : (r: Result<RaxisDecoded, RaxisError>)
    ensures r.Success? ==> r.value.raster.Valid() && r.value.header == header
  {
    if XPixels !in header then Failure(MissingKey(XPixels))
    else if YPixels !in header then Failure(MissingKey(YPixels))
    else
      var dim1 := Dim(header[XPixels]);
      var dim2 := Dim(header[YPixels]);
      match ReadPixels(file, order, hostLittle, dim1, dim2, HeaderRatio(header, floatOf))
      case Failure(e) => Failure(e)
      case Success(raster) => Success(RaxisDecoded(header, dim1, dim2, raster))
  }

  /** The image a RAXIS file holds, or the first error the reader meets. */
  function DecodeRaxis(file: seq<byte>, order: ByteOrder, hostLittle: bool, floatOf: seq<byte> -> real)
    : (r: Result<RaxisDecoded, RaxisError>)
    ensures r.Success? ==> r.value.raster.Valid()
  {
    match DecodeHeader(HeaderBlock(file), order)
    case Failure(e) => Failure(HeaderTruncated(e.field))
    case Success(values) => DecodeFromHeader(file, order, hostLittle, floatOf, HeaderMap(values))
  }


  /** Field `p` is among the decoded values exactly when the block reaches
      the end of that field, and is then its value at its layout offset. */
  lemma DecodedField(raw: seq<byte>, order: ByteOrder, p: nat)
    requires DecodeHeader(raw, order).Success? && p < FieldCount - 1
    ensures var values := DecodeHeader(raw, order).value;
      (|values| > p <==> |raw| >= Offset(p + 1)) &&
      (|values| > p ==> Fits(raw, p) && values[p] == FieldAt(raw, order, p))
  {
    var n := |DecodeHeader(raw, order).value|;
    DecodedValues(raw, order);
    RemainderIsLast();
    if n < FieldCount {
      if n <= p {
        OffsetMonotone(n, p);
      } else {
        OffsetMonotone(p + 1, n);
      }
    } else {
      OffsetMonotone(p + 1, FieldCount - 1);
    }
  }

  /** Field 44 was decoded exactly when the block reaches byte 772, and it
      is the 4-byte integer at byte 768. */
  lemma XPixelsBytes(raw: seq<byte>, order: ByteOrder)
    requires DecodeHeader(raw, order).Success?
    ensures var values := DecodeHeader(raw, order).value;
      (|values| > 44 <==> |raw| >= 772) &&
      (|values| > 44 ==> values[44] == Long(Int32Value(raw[768..772], order)))
  {
    DecodedField(raw, order, 44);
    if |DecodeHeader(raw, order).value| > 44 {
      Int32FieldAt(raw, order, 44);
    }
    ReaderKinds();
    LayoutTo44();
    LayoutTo45();
  }

  /** "X Pixels" is present exactly when the header block reaches byte 772, and
      holds the 4-byte integer at byte 768. */
  lemma XPixelsField(raw: seq<byte>, order: ByteOrder)
    requires DecodeHeader(raw, order).Success?
    ensures var header := HeaderMap(DecodeHeader(raw, order).value);
      (XPixels in header <==> |raw| >= 772) &&
      (XPixels in header ==> header[XPixels] == Long(Int32Value(raw[768..772], order)))
  {
    ReaderEntries(DecodeHeader(raw, order).value);
    XPixelsBytes(raw, order);
  }

  /** Field 45 was decoded exactly when the block reaches byte 776, and it
      is the 4-byte integer at byte 772. */
  lemma YPixelsBytes(raw: seq<byte>, order: ByteOrder)
    requires DecodeHeader(raw, order).Success?
    ensures var values := DecodeHeader(raw, order).value;
      (|values| > 45 <==> |raw| >= 776) &&
      (|values| > 45 ==> values[45] == Long(Int32Value(raw[772..776], order)))
  {
    DecodedField(raw, order, 45);
    if |DecodeHeader(raw, order).value| > 45 {
      Int32FieldAt(raw, order, 45);
    }
    ReaderKinds();
    LayoutTo45();
    LayoutTo46();
  }

  /** "Y Pixels" is present exactly when the header block reaches byte 776, and
      holds the 4-byte integer at byte 772. */
  lemma YPixelsField(raw: seq<byte>, order: ByteOrder)
    requires DecodeHeader(raw, order).Success?
    ensures var header := HeaderMap(DecodeHeader(raw, order).value);
      (YPixels in header <==> |raw| >= 776) &&
      (YPixels in header ==> header[YPixels] == Long(Int32Value(raw[772..776], order)))
  {
    ReaderEntries(DecodeHeader(raw, order).value);
    YPixelsBytes(raw, order);
  }

  /** Field 52 was decoded exactly when the block reaches byte 804, and it
      is the float at byte 800. */
  lemma RatioBytes(raw: seq<byte>, order: ByteOrder)
    requires DecodeHeader(raw, order).Success?
    ensures var values := DecodeHeader(raw, order).value;
      (|values| > 52 <==> |raw| >= 804) &&
      (|values| > 52 ==> values[52] == Float(MostSignificantFirst(raw[800..804], order)))
  {
    DecodedField(raw, order, 52);
    if |DecodeHeader(raw, order).value| > 52 {
      Float32FieldAt(raw, order, 52);
    }
    ReaderKinds();
    LayoutTo52();
    LayoutTo53();
  }

  /** "Photomultiplier Ratio" is present exactly when the header block reaches byte 804, and
      holds the float at byte 800. */
  lemma RatioField(raw: seq<byte>, order: ByteOrder)
    requires DecodeHeader(raw, order).Success?
    ensures var header := HeaderMap(DecodeHeader(raw, order).value);
      (PhotomultiplierRatio in header <==> |raw| >= 804) &&
      (PhotomultiplierRatio in header ==> header[PhotomultiplierRatio] == Float(MostSignificantFirst(raw[800..804], order)))
  {
    ReaderEntries(DecodeHeader(raw, order).value);
    RatioBytes(raw, order);
  }

  /** A long enough file's header block holds the file's first 1400 bytes. */
  lemma BlockBytes(file: seq<byte>)
    requires |file| >= MinHeaderLength
    ensures |HeaderBlock(file)| == MinHeaderLength
    ensures HeaderBlock(file)[768..772] == file[768..772]
    ensures HeaderBlock(file)[772..776] == file[772..776]
    ensures HeaderBlock(file)[800..804] == file[800..804]
  {
  }

  /** The header of a file of at least 1400 bytes decodes, and the reader's
      entries hold the integers at bytes 768 and 772 and the float at byte
      800 of the file. */
  lemma FullHeader(file: seq<byte>, order: ByteOrder)
    requires |file| >= MinHeaderLength
    ensures DecodeHeader(HeaderBlock(file), order).Success?
    ensures var header := HeaderMap(DecodeHeader(HeaderBlock(file), order).value);
      XPixels in header && header[XPixels] == Long(Int32Value(file[768..772], order)) &&
      YPixels in header && header[YPixels] == Long(Int32Value(file[772..776], order)) &&
      PhotomultiplierRatio in header &&
      header[PhotomultiplierRatio] == Float(MostSignificantFirst(file[800..804], order))
  {
    var raw := HeaderBlock(file);
    LayoutTo111();
    DecodeSucceeds(raw, order);
    BlockBytes(file);
    XPixelsField(raw, order);
    YPixelsField(raw, order);
    RatioField(raw, order);
  }

  /** Pixel counts x and y that are not negative and whose n = y*x pixels
      fit in the file give y rows of x columns: pixel k, in row-major order,
      is the corrected 2-byte value at byte 2*k of the last 2*n bytes, read
      in the file's byte order. */
  lemma TailRaster(file: seq<byte>, order: ByteOrder, hostLittle: bool, x: int, y: int, n: nat, ratio: real)
    requires 0 <= x && 0 <= y && n == y * x && n * 2 <= |file|
    ensures var r := ReadPixels(file, order, hostLittle, x, y, Some(ratio));
      r.Success? && r.value.rows == y && r.value.cols == x && |r.value.pixels| == n
    ensures var block := file[|file| - n * 2..];
      var pixels := ReadPixels(file, order, hostLittle, x, y, Some(ratio)).value.pixels;
      forall k :: 0 <= k < n ==>
        pixels[k] == Corrected(UnsignedValue(block[2 * k .. 2 * k + 2], order) as real, ratio)
  {
    TailBlockRaster(file, order, hostLittle, x, y, n, ratio);
    TailPixels(file[|file| - n * 2..], n, order, hostLittle, ratio);
  }

  /** The pixels of a block of 2*n bytes, each the corrected 2-byte value at its place. */
  lemma TailPixels(block: seq<byte>, n: nat, order: ByteOrder, hostLittle: bool, ratio: real)
    requires |block| == n * 2
    ensures var corrected := CorrectAll(Reals(PixelValues(block, Prefix(order), hostLittle)), ratio);
      |corrected| == n &&
      forall k :: 0 <= k < n ==>
        corrected[k] == Corrected(UnsignedValue(block[2 * k .. 2 * k + 2], order) as real, ratio)
  {
    assert |block| % 2 == 0 && |block| / 2 == n;
    PixelsInFileOrder(block, order, hostLittle);
  }

  /** With such pixel counts the raster is read from the last 2*y*x bytes. */
  lemma TailBlockRaster(file: seq<byte>, order: ByteOrder, hostLittle: bool, x: int, y: int, n: nat, ratio: real)
    requires 0 <= x && 0 <= y && n == y * x && n * 2 <= |file|
    ensures |file[|file| - n * 2..]| == n * 2 && (n * 2) % 2 == 0
    ensures ReadPixels(file, order, hostLittle, x, y, Some(ratio)) ==
      Success(Raster(y, x, CorrectAll(Reals(PixelValues(file[|file| - n * 2..], Prefix(order), hostLittle)), ratio)))
  {
    assert PixelBlock(file, y * x * 2) == file[|file| - n * 2..];
    assert Reshape(n, y, x) == Some(Shape(y, x));
  }

  /** Pixel counts that are not negative but ask for more bytes than the
      file has make the read fail: the whole file is read instead, and it is
      too short for the shape (or has an odd length). */
  lemma OversizeFails(file: seq<byte>, order: ByteOrder, hostLittle: bool, x: int, y: int, ratio: Option<real>)
    requires 0 <= x && 0 <= y && y * x * 2 > |file|
    ensures var r := ReadPixels(file, order, hostLittle, x, y, ratio);
      r.Failure? && (r.error.OddBlock? || r.error.BadShape?) &&
      (|file| % 2 != 0 ==> r.error.OddBlock?) && (|file| % 2 == 0 ==> r.error.BadShape?)
  {
    var n := y * x;
    assert PixelBlock(file, n * 2) == file;
  }

  /** Once the header gives the pixel counts, the file decodes as its pixels do. */
  lemma DecodeWithDims(file: seq<byte>, order: ByteOrder, hostLittle: bool, floatOf: seq<byte> -> real, x: int, y: int)
    requires DecodeHeader(HeaderBlock(file), order).Success?
    requires var header := HeaderMap(DecodeHeader(HeaderBlock(file), order).value);
      XPixels in header && header[XPixels] == Long(x) && YPixels in header && header[YPixels] == Long(y)
    ensures var header := HeaderMap(DecodeHeader(HeaderBlock(file), order).value);
      var r := DecodeRaxis(file, order, hostLittle, floatOf);
      var p := ReadPixels(file, order, hostLittle, x, y, HeaderRatio(header, floatOf));
      (r.Success? <==> p.Success?) &&
      (p.Failure? ==> r.error == p.error) &&
      (p.Success? ==> r.value == RaxisDecoded(header, x, y, p.value))
  {
  }

  /** A file of at least 1400 bytes whose pixel counts x ("X Pixels", the
      integer at byte 768) and y ("Y Pixels", at byte 772) are not negative
      and whose 2*y*x pixel bytes fit in it reads as y rows of x columns of
      the corrected 2-byte values at the tail of the file, scaled by the
      float at byte 800. */
  lemma FullFile(file: seq<byte>, order: ByteOrder, hostLittle: bool, floatOf: seq<byte> -> real, x: int, y: int, n: nat)
    requires |file| >= MinHeaderLength
    requires x == Int32Value(file[768..772], order) && y == Int32Value(file[772..776], order)
    requires 0 <= x && 0 <= y && n == y * x && n * 2 <= |file|
    ensures var r := DecodeRaxis(file, order, hostLittle, floatOf);
      r.Success? && r.value.dim1 == x && r.value.dim2 == y &&
      r.value.raster.rows == y && r.value.raster.cols == x
    ensures var block := file[|file| - n * 2..];
      var ratio := floatOf(MostSignificantFirst(file[800..804], order));
      var r := DecodeRaxis(file, order, hostLittle, floatOf);
      forall k :: 0 <= k < n ==>
        r.value.raster.pixels[k] == Corrected(UnsignedValue(block[2 * k .. 2 * k + 2], order) as real, ratio)
  {
    var ratio := floatOf(MostSignificantFirst(file[800..804], order));
    FullHeader(file, order);
    var header := HeaderMap(DecodeHeader(HeaderBlock(file), order).value);
    assert HeaderRatio(header, floatOf) == Some(ratio);
    DecodeWithDims(file, order, hostLittle, floatOf, x, y);
    TailRaster(file, order, hostLittle, x, y, n, ratio);
  }

  /** Correcting a raster pixel by pixel corrects each of its cells. */
  lemma AtCorrected(raw: Raster, ratio: real, r: nat, c: nat)
    requires raw.Valid() && r < raw.rows && c < raw.cols
    ensures At(Raster(raw.rows, raw.cols, CorrectAll(raw.pixels, ratio)), r, c) == Corrected(At(raw, r, c), ratio)
  {
    RowMajorIndex(raw.rows, raw.cols, r, c);
  }

  /** Reads the raw raster of `file` into a new grid, or gives the error
      `RawRaster` gives. */
  method LoadRaster(file: seq<byte>, endian: char, hostLittle: bool, dim1: int, dim2: int)
    returns (grid: array2?<real>, err: Option<RaxisError>)
    requires endian == '<' || endian == '>'
    ensures var r := RawRaster(file, OrderOf(endian), hostLittle, dim1, dim2);
      (err.None? <==> r.Success?) &&
      (err.Some? ==> err.value == r.error && grid == null) &&
      (r.Success? ==>
        grid != null && fresh(grid) &&
        grid.Length0 == r.value.rows && grid.Length1 == r.value.cols &&
        forall i, j :: 0 <= i < grid.Length0 && 0 <= j < grid.Length1 ==> grid[i, j] == At(r.value, i, j))
  {
    var block := PixelBlock(file, dim2 * dim1 * 2); // 2 bytes per uint16 pixel
    if |block| % 2 != 0 {
      return null, Some(OddBlock(|block|));
    }
    var count := |block| / 2;
    var shape := Reshape(count, dim2, dim1);
    if shape.None? {
      return null, Some(BadShape(count, dim2, dim1));
    }
    var raster := Raster(shape.value.rows, shape.value.cols, Reals(PixelValues(block, endian, hostLittle)));
    grid := new real[raster.rows, raster.cols]((r, c) requires 0 <= r < raster.rows && 0 <= c < raster.cols =>
      At(raster, r, c));
    err := None;
  }

  /** Reads the pixels of `file` into a new grid and corrects them in place
      with the ratio, once the ratio is known to be present; otherwise gives
      the error `ReadPixels` gives. */
  method LoadImage(file: seq<byte>, endian: char, hostLittle: bool, dim1: int, dim2: int, ratio: Option<real>)
    returns (grid: array2?<real>, err: Option<RaxisError>)
    requires endian == '<' || endian == '>'
    ensures var r := ReadPixels(file, OrderOf(endian), hostLittle, dim1, dim2, ratio);
      (err.None? <==> r.Success?) &&
      (err.Some? ==> err.value == r.error) &&
      (r.Success? ==>
        grid != null && fresh(grid) &&
        grid.Length0 == r.value.rows && grid.Length1 == r.value.cols &&
        forall i, j :: 0 <= i < grid.Length0 && 0 <= j < grid.Length1 ==> grid[i, j] == At(r.value, i, j))
  {
    grid, err := LoadRaster(file, endian, hostLittle, dim1, dim2);
    if err.Some? {
      return;
    }
    if ratio.None? {
      return grid, Some(MissingKey(PhotomultiplierRatio));
    }
    ghost var raw := RawRaster(file, OrderOf(endian), hostLittle, dim1, dim2).value;
    CorrectInPlace(grid, ratio.value);
    forall i, j | 0 <= i < grid.Length0 && 0 <= j < grid.Length1
      ensures grid[i, j] == At(Raster(raw.rows, raw.cols, CorrectAll(raw.pixels, ratio.value)), i, j)
    {
      AtCorrected(raw, ratio.value, i, j);
    }
  }

  /** Applies the overflow correction to every pixel of `a`, in place. */
  method CorrectInPlace(a: array2<real>, ratio: real)
    modifies a
    ensures forall i, j :: 0 <= i < a.Length0 && 0 <= j < a.Length1 ==> a[i, j] == Corrected(old(a[i, j]), ratio)
  {
    forall i, j | 0 <= i < a.Length0 && 0 <= j < a.Length1 {
      a[i, j] := Corrected(a[i, j], ratio);
    }
  }

  /** A RAXIS image object: the decoded header, the pixel counts, the pixel grid, the element type, and the byte order
      prefix of the file, which only '<' and '>' select here. */
  class RaxisImage {
    var header: map<string, Value>
    var dim1: int
    var dim2: int
    var data: array2?<real>
    var bytecode: string
    var endianness: char

    predicate Valid()
      reads this
    {
      endianness == '<' || endianness == '>'
    }

    /** A fresh object: no header, no pixels, uint16 elements, big-endian. */
    constructor()
      ensures Valid()
      ensures header == map[] && dim1 == 0 && dim2 == 0 && data == null
      ensures bytecode == "uint16" && endianness == '>'
    {
      header := map[];
      dim1, dim2 := 0, 0;
      data := null;
      bytecode := "uint16";
      endianness := '>';
    }

    /** Decodes the header block of `file` into `header`, field by field in
        layout order, stopping after the remainder field or where a field
        ends exactly at the end of the block. When the block ends inside a
        field the error names it and `header` keeps the fields before it. */
    method ReadHeader(file: seq<byte>) returns (err: Option<HeaderError>)
      requires Valid()
      modifies this
      ensures Valid() && endianness == old(endianness)
      ensures dim1 == old(dim1) && dim2 == old(dim2) && data == old(data) && bytecode == old(bytecode)
      ensures var raw := HeaderBlock(file);
        var d := Walk(raw, OrderOf(endianness), 0, 0, []);
        |d.values| <= FieldCount && header == HeaderMap(d.values) &&
        (err.None? <==> DecodeHeader(raw, OrderOf(endianness)).Success?) &&
        (err.None? ==> header == HeaderMap(DecodeHeader(raw, OrderOf(endianness)).value)) &&
        (err.Some? ==> err.value == DecodeHeader(raw, OrderOf(endianness)).error)
    {
      var values;
      values, err := ReadFields(HeaderBlock(file), OrderOf(endianness));
      header := HeaderMap(values);
    }

    /** The object holds the decoded image `d`. */
    predicate Holds(d: RaxisDecoded)
      reads this, data
    {
      header == d.header && dim1 == d.dim1 && dim2 == d.dim2 && bytecode == "uint16" &&
      data != null && data.Length0 == d.raster.rows && data.Length1 == d.raster.cols &&
      d.raster.Valid() &&
      forall i, j :: 0 <= i < data.Length0 && 0 <= j < data.Length1 ==> data[i, j] == At(d.raster, i, j)
    }

    /** The part of the reader after the header: the pixel counts from
        "X Pixels" and "Y Pixels", then the last `dim2 * dim1` uint16 pixels
        of the file in file order, as a `dim2` by `dim1` grid whose overflowed
        pixels are corrected by the photomultiplier ratio. Ends up as
        `DecodeFromHeader` describes, or with its error and no new grid.
        Each count is stored as soon as it is looked up, and the element
        type once both are, whether or not the pixels are then read. */
    method ReadData(file: seq<byte>, hostLittle: bool, floatOf: seq<byte> -> real) returns (err: Option<RaxisError>)
      requires Valid()
      modifies this
      ensures Valid() && endianness == old(endianness) && header == old(header)
      ensures var r := DecodeFromHeader(file, OrderOf(endianness), hostLittle, floatOf, header);
        (err.None? <==> r.Success?) &&
        (err.Some? ==> err.value == r.error && data == old(data)) &&
        (r.Success? ==> fresh(data) && Holds(r.value))
      ensures CountsStored(old(dim1), old(dim2), old(bytecode))
    {
      if XPixels !in header {
        return Some(MissingKey(XPixels));
      }
      dim1 := Dim(header[XPixels]);
      if YPixels !in header {
        return Some(MissingKey(YPixels));
      }
      dim2 := Dim(header[YPixels]);
      bytecode := "uint16";
      var ratio := HeaderRatio(header, floatOf);
      var grid;
      grid, err := LoadImage(file, endianness, hostLittle, dim1, dim2, ratio);
      if err.None? {
        data := grid;
      }
    }

    /** The counts and the element type after the reader's lookups, from
        `dim1`, `dim2` and `bytecode` as they were before: "X Pixels" is
        stored when present, and "Y Pixels" and uint16 only when both are. */
    predicate CountsStored(dim1Before: int, dim2Before: int, bytecodeBefore: string)
      reads this
    {
      (XPixels in header ==> dim1 == Dim(header[XPixels])) &&
      (XPixels !in header ==> dim1 == dim1Before) &&
      (XPixels in header && YPixels in header ==> dim2 == Dim(header[YPixels]) && bytecode == "uint16") &&
      (XPixels !in header || YPixels !in header ==> dim2 == dim2Before && bytecode == bytecodeBefore)
    }

    /** Reads a RAXIS file: the header, then the image. The object ends up
        holding what `DecodeRaxis` gives, or the error is the one
        `DecodeRaxis` gives and no new grid is stored. Either way `header`
        holds the fields decoded before the block ended; when the header
        is cut short the counts and the element type are left as they were. */
    method Read(file: seq<byte>, hostLittle: bool, floatOf: seq<byte> -> real) returns (err: Option<RaxisError>)
      requires Valid()
      modifies this
      ensures Valid() && endianness == old(endianness)
      ensures var r := DecodeRaxis(file, OrderOf(endianness), hostLittle, floatOf);
        (err.None? <==> r.Success?) &&
        (err.Some? ==> err.value == r.error && data == old(data)) &&
        (r.Success? ==> fresh(data) && Holds(r.value))
      ensures var d := Walk(HeaderBlock(file), OrderOf(endianness), 0, 0, []);
        |d.values| <= FieldCount && header == HeaderMap(d.values)
      ensures var h := DecodeHeader(HeaderBlock(file), OrderOf(endianness));
        (h.Failure? ==> dim1 == old(dim1) && dim2 == old(dim2) && bytecode == old(bytecode)) &&
        (h.Success? ==> CountsStored(old(dim1), old(dim2), old(bytecode)))
    {
      var herr := ReadHeader(file);
      ghost var h := DecodeHeader(HeaderBlock(file), OrderOf(endianness));
      if herr.Some? {
        return Some(HeaderTruncated(herr.value.field));
      }
      assert h.Success?;
      err := ReadData(file, hostLittle, floatOf);
    }
  }
}
