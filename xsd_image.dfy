/**
 * The XSDataImage reader: from the fields the header reader keeps to the
 * decoded payload, its checksum, its element type and the reshaped grid.
 */
module XsdImage {
  import opened Bytes
  import opened Results
  import opened IntText
  import Base16
  import opened XsdDocument

  /** A numpy element type, by name and width in bytes. */
  datatype ElementType = ElementType(name: string, width: nat)

  const Int32: ElementType := ElementType("int32", 4)
  const Float64: ElementType := ElementType("float64", 8)

  /** The code the reader calls and this model does not see: numpy's dtype
      table (None where `np.dtype` raises TypeError), the base64 and base32
      decoders of the standard library (None where they raise) and the hex
      digest of `hashlib.md5`. */
  datatype Library = Library(
    dtypes: string -> Option<ElementType>,
    b64decode: string -> Option<seq<byte>>,
    b32decode: string -> Option<seq<byte>>,
    md5hex: seq<byte> -> string)

  /** The element type the reader settles on, its `bpp`, and the warning. */
  datatype Resolved = Resolved(etype: ElementType, bpp: nat, warnings: seq<Warning>)

  /** `np.dtype(dtype)`: float64 when there is no dtype, the table's type when
      it knows the name, and otherwise int32 with `bpp` set to 32 and a warning. */
  function Resolve(dtype: Option<string>, dtypes: string -> Option<ElementType>): (r: Resolved)
  {
    match dtype
    case None => Resolved(Float64, Float64.width, [])
    case Some(name) =>
      match dtypes(name)
      case Some(t) => Resolved(t, t.width, [])
      case None => Resolved(Int32, 32, [DefaultElementType(name)])
  }

  /** The three cases of the element type. */
  lemma ResolveCases(dtype: Option<string>, dtypes: string -> Option<ElementType>)
    ensures var r := Resolve(dtype, dtypes);
      (dtype.None? ==> r.etype == Float64 && r.bpp == 8 && r.warnings == []) &&
      (dtype.Some? && dtypes(dtype.value).Some? ==>
        r.etype == dtypes(dtype.value).value && r.bpp == r.etype.width && r.warnings == []) &&
      (dtype.Some? && dtypes(dtype.value).None? ==>
        r.etype == Int32 && r.bpp == 32 && r.warnings == [DefaultElementType(dtype.value)])
  {
  }

  datatype Coding = Base64 | Base32 | Base16Coding

  /** The decoder the `coding` field selects: base64 for anything but
      "base32" and "base16", including no coding at all. */
  function CodingOf(coding: Option<string>): (c: Coding)
    ensures c == Base32 <==> coding == Some("base32")
    ensures c == Base16Coding <==> coding == Some("base16")
  {
    if coding == Some("base64") then Base64
    else if coding == Some("base32") then Base32
    else if coding == Some("base16") then Base16Coding
    else Base64
  }

  /** The warning logged for a coding the reader does not recognise. */
  function CodingWarnings(coding: Option<string>): (w: seq<Warning>)
    ensures w == [] <==> coding in {Some("base64"), Some("base32"), Some("base16")}
  {
    if coding == Some("base64") || coding == Some("base32") || coding == Some("base16") then []
    else [UnknownCoding(coding)]
  }

  /** The decoded payload, or None where the decoder raises (no payload text
      at all included). */
  function Payload(lib: Library, coding: Option<string>, rawData: Option<string>): Option<seq<byte>>
  {
    match rawData
    case None => None
    case Some(text) =>
      match CodingOf(coding)
      case Base64 => lib.b64decode(text)
      case Base32 => lib.b32decode(text)
      case Base16Coding => Base16.Decode(text)
  }

  /** An unknown coding decodes exactly as base64 does. */
  lemma UnknownCodingIsBase64(lib: Library, coding: Option<string>, rawData: Option<string>)
    requires CodingWarnings(coding) != []
    ensures Payload(lib, coding, rawData) == Payload(lib, Some("base64"), rawData)
  {
  }

  /** Python truth of the `md5` field: present and not empty. */
  predicate Truthy(md5: Option<string>)
  {
    md5.Some? && md5.value != ""
  }

  /** `exp_size`: the product of the dimensions. */
  function Product(dims: seq<int>): int
  {
    if dims == [] then 1 else Product(dims[..|dims| - 1]) * dims[|dims| - 1]
  }

  lemma {:induction false} ProductConcat(a: seq<int>, b: seq<int>)
    ensures Product(a + b) == Product(a) * Product(b)
  {
    if b != [] {
      var n := |b|;
      assert (a + b)[..|a + b| - 1] == a + b[..n - 1];
      assert (a + b)[|a + b| - 1] == b[n - 1];
      ProductConcat(a, b[..n - 1]);
      calc {
        Product(a + b);
        Product(a + b[..n - 1]) * b[n - 1];
        (Product(a) * Product(b[..n - 1])) * b[n - 1];
        Product(a) * (Product(b[..n - 1]) * b[n - 1]);
        Product(a) * Product(b);
      }
    } else {
      assert a + b == a;
    }
  }

  lemma {:induction false} ProductNonNegative(dims: seq<int>)
    requires forall i :: 0 <= i < |dims| ==> dims[i] >= 0
    ensures Product(dims) >= 0
  {
    if dims != [] {
      ProductNonNegative(dims[..|dims| - 1]);
    }
  }

  /** Dimensions none of which is negative, as naturals. */
  function AsNats(dims: seq<int>): (r: seq<nat>)
    requires forall i :: 0 <= i < |dims| ==> dims[i] >= 0
    ensures r == dims
  {
    seq(|dims|, i requires 0 <= i < |dims| => dims[i])
  }

  /** The position of the first negative dimension. */
  function FirstNegative(dims: seq<int>): (i: nat)
    requires exists j :: 0 <= j < |dims| && dims[j] < 0
    ensures i < |dims| && dims[i] < 0
    ensures forall j :: 0 <= j < i ==> dims[j] >= 0
  {
    if dims[0] < 0 then 0 else 1 + FirstNegative(dims[1..])
  }

  /** numpy's `reshape` of `count` elements to `dims`: every dimension given,
      or exactly one negative dimension, the unknown one, whose extent is
      inferred from the others. */
  function Reshape(count: nat, dims: seq<int>): (r: Option<seq<nat>>)
    ensures r.Some? ==> |r.value| == |dims| && Product(r.value) == count
    ensures r.Some? ==> forall i :: 0 <= i < |dims| && dims[i] >= 0 ==> r.value[i] == dims[i]
    ensures (forall i :: 0 <= i < |dims| ==> dims[i] >= 0) ==> (r.Some? <==> Product(dims) == count)
  {
    if forall i :: 0 <= i < |dims| ==> dims[i] >= 0 then
      if Product(dims) == count then Some(AsNats(dims)) else None
    else
      var u := FirstNegative(dims);
      if forall j :: u < j < |dims| ==> dims[j] >= 0 then Infer(count, dims, u)
      else None
  }

  /** The extent of the one unknown dimension `u`: the count divided by the
      product of the others, which must divide it and not be zero. */
  function Infer(count: nat, dims: seq<int>, u: nat): (r: Option<seq<nat>>)
    requires u < |dims| && dims[u] < 0
    requires forall j :: 0 <= j < |dims| && j != u ==> dims[j] >= 0
    ensures r.Some? ==> |r.value| == |dims| && Product(r.value) == count
    ensures r.Some? ==> forall i :: 0 <= i < |dims| && dims[i] >= 0 ==> r.value[i] == dims[i]
  {
    var others := dims[..u] + dims[u + 1..];
    assert forall j :: 0 <= j < |others| ==> others[j] == dims[if j < u then j else j + 1];
    ProductNonNegative(others);
    var known := Product(others);
    if known == 0 || count % known != 0 then None
    else
      InferredProduct(dims, u, count / known);
      Some(AsNats(dims[u := count / known]))
  }

  lemma InferredProduct(dims: seq<int>, u: nat, v: nat)
    requires u < |dims|
    ensures Product(dims[u := v]) == Product(dims[..u] + dims[u + 1..]) * v
  {
    var filled := dims[u := v];
    assert filled == dims[..u] + [v] + dims[u + 1..];
    ProductConcat(dims[..u] + [v], dims[u + 1..]);
    ProductConcat(dims[..u], [v]);
    ProductConcat(dims[..u], dims[u + 1..]);
  }

  /** What `read` makes of the fields: the first two dimensions, the element
      type, the elements of the decoded payload in host byte order, the shape. */
  datatype Grid = Grid(
    dim1: int, dim2: int, etype: ElementType, bpp: nat,
    shape: seq<nat>, elements: seq<seq<byte>>, warnings: seq<Warning>)

  /** The reshaped elements of a payload, in host byte order. */
  datatype Elements = Elements(shape: seq<nat>, elements: seq<seq<byte>>)

  /** `read` from the size check on, for elements of type `etype`: the
      decoding, the checksum, the cut into elements, the reshape and the swap
      to host order on a big-endian host. */
  function DecodePayload(f: Fields, etype: ElementType, lib: Library, hostLittle: bool)
    : (r: Result<Elements, XsdError>)
  {
    var expected := Product(f.dims);
    if Some(expected) != f.size then Failure(SizeMismatch(expected, f.size))
    else
      match Payload(lib, f.coding, f.rawData)
      case None => Failure(PayloadUndecodable)
      case Some(bytes) =>
        if Truthy(f.md5) && lib.md5hex(bytes) != f.md5.value then Failure(ChecksumMismatch)
        else if etype.width == 0 || |bytes| % etype.width != 0 then
          Failure(BadPayloadLength(|bytes|, etype.width))
        else
          var count := |bytes| / etype.width;
          match Reshape(count, f.dims)
          case None => Failure(BadShape(count, f.dims))
          case Some(shape) =>
            var els := Chunks(bytes, etype.width);
            Success(Elements(shape, if hostLittle then els else ByteSwapped(els)))
  }

  /** The warning logged on the way through `DecodePayload`: the coding's,
      once the size check has passed. */
  function PayloadWarnings(f: Fields): seq<Warning>
  {
    if Some(Product(f.dims)) != f.size then [] else CodingWarnings(f.coding)
  }

  /** The part of `read` after the header: the dimension check, the element
      type, then `DecodePayload`. */
  function DecodeFields(f: Fields, lib: Library, hostLittle: bool): (r: Result<Grid, XsdError>)
  {
    if |f.dims| < 2 then Failure(MissingDimensions)
    else
      var resolved := Resolve(f.dtype, lib.dtypes);
      match DecodePayload(f, resolved.etype, lib, hostLittle)
      case Failure(e) => Failure(e)
      case Success(p) =>
        Success(Grid(f.dims[0], f.dims[1], resolved.etype, resolved.bpp, p.shape, p.elements,
                     resolved.warnings + CodingWarnings(f.coding)))
  }

  /** A whole XSDataImage document: the header reader, then `DecodeFields`. */
  function DecodeXsd(doc: seq<Node>, prior: Option<int>, lib: Library, hostLittle: bool)
    : (r: Result<(Header, Grid), XsdError>)
  {
    match ReadDocument(doc, prior)
    case Failure(e) => Failure(e)
    case Success(h) =>
      match DecodeFields(h.fields, lib, hostLittle)
      case Failure(e) => Failure(e)
      case Success(g) => Success((h, g))
  }

  /** A big-endian host reads the same image as a little-endian one, with
      the bytes of every element reversed. */
  lemma HostEndianness(f: Fields, lib: Library)
    ensures DecodeFields(f, lib, false).Success? <==> DecodeFields(f, lib, true).Success?
    ensures DecodeFields(f, lib, true).Success? ==>
      var g := DecodeFields(f, lib, true).value;
      DecodeFields(f, lib, false).value == g.(elements := ByteSwapped(g.elements)) &&
      ByteSwapped(DecodeFields(f, lib, false).value.elements) == g.elements
  {
    if DecodeFields(f, lib, true).Success? {
      ByteSwappedTwice(DecodeFields(f, lib, true).value.elements);
    }
  }

  /** `read` gives an image exactly when there are two dimensions, the size
      is their product, the payload decodes, its checksum (when one is given)
      matches, its length is a whole number of elements and these fill the
      dimensions. */
  lemma DecodeAccepts(f: Fields, lib: Library, hostLittle: bool)
    ensures DecodeFields(f, lib, hostLittle).Success? <==>
      |f.dims| >= 2 && f.size == Some(Product(f.dims)) &&
      Payload(lib, f.coding, f.rawData).Some? &&
      var bytes := Payload(lib, f.coding, f.rawData).value;
      var width := Resolve(f.dtype, lib.dtypes).etype.width;
      (Truthy(f.md5) ==> lib.md5hex(bytes) == f.md5.value) &&
      width > 0 && |bytes| % width == 0 && Reshape(|bytes| / width, f.dims).Some?
  {
  }

  /** The product of two dimensions. */
  lemma ProductPair(rows: int, cols: int)
    ensures Product([rows, cols]) == rows * cols
  {
    assert [rows, cols][..1] == [rows];
    assert [rows][..0] == [];
    assert Product([rows]) == rows;
  }

  /** Reshaping to dimensions none of which is negative and whose product is
      the count keeps the dimensions. */
  lemma ReshapeKeeps(count: nat, dims: seq<int>)
    requires forall i :: 0 <= i < |dims| ==> dims[i] >= 0
    requires Product(dims) == count
    ensures Reshape(count, dims) == Some(dims)
  {
    var r := Reshape(count, dims);
    assert r.Some?;
    assert r.value == dims;
  }

  /** Fields that pass every check of `read` decode to the payload's
      elements, with the dimensions as the shape. */
  lemma DecodesTo(f: Fields, lib: Library, hostLittle: bool, data: seq<byte>, etype: ElementType)
    requires |f.dims| >= 2 && forall i :: 0 <= i < |f.dims| ==> f.dims[i] >= 0
    requires Resolve(f.dtype, lib.dtypes) == Resolved(etype, etype.width, [])
    requires CodingWarnings(f.coding) == [] && Payload(lib, f.coding, f.rawData) == Some(data)
    requires Truthy(f.md5) ==> lib.md5hex(data) == f.md5.value
    requires etype.width > 0 && |data| % etype.width == 0 && |data| / etype.width == Product(f.dims)
    requires f.size == Some(Product(f.dims))
    ensures var els := Chunks(data, etype.width);
      DecodeFields(f, lib, hostLittle) ==
        Success(Grid(f.dims[0], f.dims[1], etype, etype.width, AsNats(f.dims),
                     if hostLittle then els else ByteSwapped(els), []))
  {
    ProductNonNegative(f.dims);
    ReshapeKeeps(|data| / etype.width, f.dims);
    var els := Chunks(data, etype.width);
    assert DecodePayload(f, etype, lib, hostLittle) ==
      Success(Elements(AsNats(f.dims), if hostLittle then els else ByteSwapped(els)));
    var resolved := Resolve(f.dtype, lib.dtypes);
    assert resolved.warnings + CodingWarnings(f.coding) == [];
  }

  /** An image written as int32 elements in base16, with its size and
      optionally its checksum, is read back as those elements, row by row,
      with no warning. */
  lemma Base16RoundTrip(data: seq<byte>, rows: nat, cols: nat, lib: Library, checksum: bool, hostLittle: bool)
    requires |data| == rows * cols * 4
    requires lib.dtypes("int32") == Some(Int32)
    ensures var f := Fields([rows, cols], Some(rows * cols), Some("int32"), Some("base16"),
                            Some(Base16.Encode(data)), if checksum then Some(lib.md5hex(data)) else None);
      var els := Chunks(data, 4);
      DecodeFields(f, lib, hostLittle) ==
        Success(Grid(rows, cols, Int32, 4, [rows, cols], if hostLittle then els else ByteSwapped(els), []))
  {
    var f := Fields([rows, cols], Some(rows * cols), Some("int32"), Some("base16"),
                    Some(Base16.Encode(data)), if checksum then Some(lib.md5hex(data)) else None);
    Base16.DecodeEncode(data);
    ProductPair(rows, cols);
    assert |data| % 4 == 0 && |data| / 4 == rows * cols;
    DecodesTo(f, lib, hostLittle, data, Int32);
  }

  /** numpy infers at most one dimension: with two negative dimensions the
      reshape fails. */
  lemma ReshapeOneUnknown(count: nat, dims: seq<int>, i: nat, j: nat)
    requires i < j < |dims| && dims[i] < 0 && dims[j] < 0
    ensures Reshape(count, dims) == None
  {
    var u := FirstNegative(dims);
    assert u <= i;
    if u < i {
      assert dims[i] < 0;
    } else {
      assert dims[j] < 0;
    }
  }

  /** With one negative dimension, whatever its value, the reshape succeeds
      exactly when the product of the others is not zero and divides the
      count, and the unknown dimension is then the count divided by it. */
  lemma ReshapeInfers(count: nat, dims: seq<int>, u: nat)
    requires u < |dims| && dims[u] < 0
    requires forall j :: 0 <= j < |dims| && j != u ==> dims[j] >= 0
    ensures var known := Product(dims[..u] + dims[u + 1..]);
      Reshape(count, dims).Some? <==> known != 0 && count % known == 0
    ensures var known := Product(dims[..u] + dims[u + 1..]);
      Reshape(count, dims).Some? ==> known != 0 && Reshape(count, dims).value[u] == count / known
  {
    assert FirstNegative(dims) == u;
  }

  /** The warnings `read` logs after the header for fields `f`: the element
      type's, then those of `DecodePayload`. */
  function DataWarnings(f: Fields, lib: Library): seq<Warning>
  {
    if |f.dims| < 2 then [] else Resolve(f.dtype, lib.dtypes).warnings + PayloadWarnings(f)
  }

  /** A decoded image carries exactly the warnings logged on the way. */
  lemma GridWarnings(f: Fields, lib: Library, hostLittle: bool)
    requires DecodeFields(f, lib, hostLittle).Success?
    ensures DecodeFields(f, lib, hostLittle).value.warnings == DataWarnings(f, lib)
  {
  }

  /** The `exp_size` loop. */
  method ExpectedSize(dims: seq<int>) returns (expected: int)
    ensures expected == Product(dims)
  {
    expected := 1;
    for i := 0 to |dims|
      invariant expected == Product(dims[..i])
    {
      assert dims[..i + 1][..i] == dims[..i];
      expected := expected * dims[i];
    }
    assert dims[..|dims|] == dims;
  }

  /** `np.fromstring`: a fresh array of the payload's elements of `width` bytes. */
  method FromBytes(bytes: seq<byte>, width: nat) returns (a: array<seq<byte>>)
    requires width > 0 && |bytes| % width == 0
    ensures fresh(a) && a[..] == Chunks(bytes, width)
  {
    var els := Chunks(bytes, width);
    a := new seq<byte>[|els|](i requires 0 <= i < |els| => els[i]);
    assert a[..] == els;
  }

  /** `byteswap(inplace=True)`: every element's bytes reversed where it lies. */
  method SwapInPlace(a: array<seq<byte>>)
    modifies a
    ensures a[..] == ByteSwapped(old(a[..]))
  {
    forall i | 0 <= i < a.Length {
      a[i] := Reverse(a[i]);
    }
  }

  /** `DecodePayload` as `read` runs it: a fresh element array, swapped in
      place on a big-endian host, and the warning logged on the way. */
  method LoadPayload(f: Fields, etype: ElementType, lib: Library, hostLittle: bool)
    returns (a: array?<seq<byte>>, shape: seq<nat>, logged: seq<Warning>, err: Option<XsdError>)
    ensures logged == PayloadWarnings(f)
    ensures var r := DecodePayload(f, etype, lib, hostLittle);
      (err.None? <==> r.Success?) && (err.Some? ==> err.value == r.error && a == null) &&
      (r.Success? ==> a != null && fresh(a) && a[..] == r.value.elements && shape == r.value.shape)
  {
    a, shape, logged := null, [], [];
    var expected := ExpectedSize(f.dims);
    if Some(expected) != f.size {
      return null, [], [], Some(SizeMismatch(expected, f.size));
    }
    logged := CodingWarnings(f.coding);
    var decoded := Payload(lib, f.coding, f.rawData);
    if decoded.None? {
      return null, [], logged, Some(PayloadUndecodable);
    }
    var bytes := decoded.value;
    if Truthy(f.md5) && lib.md5hex(bytes) != f.md5.value {
      return null, [], logged, Some(ChecksumMismatch);
    }
    if etype.width == 0 || |bytes| % etype.width != 0 {
      return null, [], logged, Some(BadPayloadLength(|bytes|, etype.width));
    }
    var count := |bytes| / etype.width;
    var reshaped := Reshape(count, f.dims);
    if reshaped.None? {
      return null, [], logged, Some(BadShape(count, f.dims));
    }
    var els := FromBytes(bytes, etype.width);
    if !hostLittle {
      SwapInPlace(els);
    }
    return els, reshaped.value, logged, None;
  }

  /** The image object: the attributes the header reader sets, the ones
      `read` derives from them, the element array and the log of warnings. */
  class XsdImage {
    var header: map<string, string>
    var fields: Fields
    var dim1: int
    var dim2: int
    var bytecode: ElementType
    var bpp: nat
    var data: array?<seq<byte>>
    var shape: seq<nat>
    var warnings: seq<Warning>

    /** A fresh image: no dimensions, no coding, nothing read. */
    constructor ()
      ensures header == map[] && fields == Fields([], None, None, None, None, None)
      ensures data == null && warnings == []
    {
      header := map[];
      fields := Fields([], None, None, None, None, None);
      dim1, dim2 := 0, 0;
      bytecode := Float64;
      bpp := 0;
      data := null;
      shape := [];
      warnings := [];
    }

    /** The object holds the decoded image `g`. */
    predicate Holds(g: Grid)
      reads this, data
    {
      dim1 == g.dim1 && dim2 == g.dim2 && bytecode == g.etype && bpp == g.bpp &&
      shape == g.shape && data != null && data[..] == g.elements
    }

    /** `_readheader`: the shape, size, dtype, coding, data and md5sum loops.
        When a shape element has no text the reader stops there, with the
        dimensions read so far and the other attributes as they were. */
    method ReadHeader(doc: seq<Node>) returns (err: Option<XsdError>)
      modifies this
      ensures var r := ReadDocument(doc, old(fields.size));
        (err.None? <==> r.Success?) && (err.Some? ==> err.value == r.error) &&
        (r.Success? ==> fields == r.value.fields && warnings == old(warnings) + r.value.warnings)
      ensures var scan := ScanShapes(Select(doc, "shape"));
        err.Some? ==>
          fields == old(fields).(dims := scan.dims) && warnings == old(warnings) + scan.warnings
      ensures header == old(header) && dim1 == old(dim1) && dim2 == old(dim2)
      ensures bytecode == old(bytecode) && bpp == old(bpp) && data == old(data) && shape == old(shape)
    {
      var h, ok := ReadHeaderFields(doc, fields.size);
      warnings := warnings + h.warnings;
      if !ok {
        fields := fields.(dims := h.fields.dims);
        return Some(ShapeWithoutText);
      }
      fields := h.fields;
      return None;
    }

    /** `read` after the header: the dimensions, the element type, the size
        check, the decoding, the checksum, the element array and, on a
        big-endian host, the byte swap in place. The attributes set before a
        check fails stay set; the array and the shape change only on success. */
    method ReadData(lib: Library, hostLittle: bool) returns (err: Option<XsdError>)
      modifies this
      ensures var r := DecodeFields(fields, lib, hostLittle);
        (err.None? <==> r.Success?) &&
        (err.Some? ==> err.value == r.error && data == old(data) && shape == old(shape)) &&
        (r.Success? ==> fresh(data) && Holds(r.value))
      ensures |fields.dims| >= 2 ==>
        var resolved := Resolve(fields.dtype, lib.dtypes);
        dim1 == fields.dims[0] && dim2 == fields.dims[1] &&
        bytecode == resolved.etype && bpp == resolved.bpp
      ensures |fields.dims| < 2 ==>
        dim1 == old(dim1) && dim2 == old(dim2) && bytecode == old(bytecode) && bpp == old(bpp)
      ensures warnings == old(warnings) + DataWarnings(fields, lib)
      ensures fields == old(fields) && header == old(header)
    {
      if |fields.dims| < 2 {
        return Some(MissingDimensions);
      }
      dim1, dim2 := fields.dims[0], fields.dims[1];
      var resolved := Resolve(fields.dtype, lib.dtypes);
      bytecode, bpp := resolved.etype, resolved.bpp;
      var a, reshaped, logged;
      a, reshaped, logged, err := LoadPayload(fields, bytecode, lib, hostLittle);
      warnings := warnings + resolved.warnings + logged;
      if err.None? {
        data, shape := a, reshaped;
      }
    }

    /** `read`: the header is emptied, then the header reader and the rest
        of `read` run over the document, starting from the size held before. */
    method Read(doc: seq<Node>, lib: Library, hostLittle: bool) returns (err: Option<XsdError>)
      modifies this
      ensures header == map[]
      ensures var r := DecodeXsd(doc, old(fields.size), lib, hostLittle);
        (err.None? <==> r.Success?) &&
        (err.Some? ==> err.value == r.error && data == old(data) && shape == old(shape)) &&
        (r.Success? ==> fields == r.value.0.fields && fresh(data) && Holds(r.value.1) &&
                        warnings == old(warnings) + r.value.0.warnings + r.value.1.warnings)
      ensures var r := ReadDocument(doc, old(fields.size));
        var scan := ScanShapes(Select(doc, "shape"));
        r.Failure? ==>
          fields == old(fields).(dims := scan.dims) && warnings == old(warnings) + scan.warnings &&
          dim1 == old(dim1) && dim2 == old(dim2) && bytecode == old(bytecode) && bpp == old(bpp)
      ensures var r := ReadDocument(doc, old(fields.size));
        r.Success? ==>
          fields == r.value.fields &&
          warnings == old(warnings) + r.value.warnings + DataWarnings(fields, lib) &&
          (|fields.dims| >= 2 ==>
            var resolved := Resolve(fields.dtype, lib.dtypes);
            dim1 == fields.dims[0] && dim2 == fields.dims[1] &&
            bytecode == resolved.etype && bpp == resolved.bpp) &&
          (|fields.dims| < 2 ==>
            dim1 == old(dim1) && dim2 == old(dim2) && bytecode == old(bytecode) && bpp == old(bpp))
    {
      header := map[];
      err := ReadHeader(doc);
      if err.Some? {
        return;
      }
      ghost var h := ReadDocument(doc, old(fields.size)).value;
      err := ReadData(lib, hostLittle);
      if err.None? {
        GridWarnings(h.fields, lib, hostLittle);
      }
    }
  }
}
