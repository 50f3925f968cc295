/**
 * The XSDataImage document as the reader queries it: the XML tree flattened
 * to its elements in document order, each with its tag and its text, and
 * what the header reader takes from it.
 */
module XsdDocument {
  import opened Results
  import opened IntText

  /** One element: its tag and its text (None for an element without text). */
  datatype Node = Node(tag: string, text: Option<string>)

  /** A diagnostic the reader logs and carries on after. */
  datatype Warning =
    | ShapeNotInteger(text: string)
    | SizeNotInteger(sizeText: Option<string>)
    | DefaultElementType(dtype: string)
    | UnknownCoding(coding: Option<string>)

  /** Why a document gives no image. */
  datatype XsdError =
    | ShapeWithoutText
    | MissingDimensions
    | SizeMismatch(expected: int, size: Option<int>)
    | PayloadUndecodable
    | ChecksumMismatch
    | BadPayloadLength(length: nat, width: nat)
    | BadShape(count: nat, dims: seq<int>)

  /** `xpath("//tag")`: the texts of the elements with that tag, in document order. */
  function Select(doc: seq<Node>, tag: string): (texts: seq<Option<string>>)
    ensures |texts| <= |doc|
  {
    if doc == [] then []
    else
      var rest := Select(doc[..|doc| - 1], tag);
      if doc[|doc| - 1].tag == tag then rest + [doc[|doc| - 1].text] else rest
  }

  /** The `shape` loop so far: the integers read, the texts skipped, and
      whether an element without text stopped the reader. */
  datatype ShapeScan = ShapeScan(dims: seq<int>, warnings: seq<Warning>, textless: bool)

  /** The `shape` loop over `texts`: an integer text is appended, any other
      text is skipped with a warning, and a missing text raises. */
  function ScanShapes(texts: seq<Option<string>>): ShapeScan
  {
    if texts == [] then ShapeScan([], [], false)
    else
      var s := ScanShapes(texts[..|texts| - 1]);
      if s.textless then s
      else
        match texts[|texts| - 1]
        case None => s.(textless := true)
        case Some(t) =>
          match ParseInt(t)
          case Some(v) => s.(dims := s.dims + [v])
          case None => s.(warnings := s.warnings + [ShapeNotInteger(t)])
  }

  /** The `size` loop so far: the size held and the warnings logged. */
  datatype SizeScan = SizeScan(size: Option<int>, warnings: seq<Warning>)

  /** The `size` loop over `texts`, starting from `prior`: each integer text
      replaces the size; any other text, or a missing one, leaves it and warns. */
  function ScanSizes(texts: seq<Option<string>>, prior: Option<int>): SizeScan
  {
    if texts == [] then SizeScan(prior, [])
    else
      var s := ScanSizes(texts[..|texts| - 1], prior);
      var t := texts[|texts| - 1];
      if t.Some? && ParseInt(t.value).Some? then s.(size := ParseInt(t.value))
      else s.(warnings := s.warnings + [SizeNotInteger(t)])
  }

  /** The text of the last of the selected elements, or None when there is none. */
  function LastText(texts: seq<Option<string>>): Option<string>
  {
    if texts == [] then None else texts[|texts| - 1]
  }

  /** The attributes the header reader sets. */
  datatype Fields = Fields(
    dims: seq<int>, size: Option<int>, dtype: Option<string>, coding: Option<string>,
    rawData: Option<string>, md5: Option<string>)

  /** What the header reader makes of a document: the fields and the warnings it logged. */
  datatype Header = Header(fields: Fields, warnings: seq<Warning>)

  /** The `coding` (or `md5sum`) field: the nested query `//value` is absolute,
      so once one anchor element exists the field is the text of the last
      `value` element anywhere in the document. */
  function Anchored(doc: seq<Node>, anchor: string): Option<string>
  {
    if Select(doc, anchor) == [] then None else LastText(Select(doc, "value"))
  }

  /** The header reader over a whole document, with `prior` the size held
      before it runs: an error when a `shape` element has no text. */
  function ReadDocument(doc: seq<Node>, prior: Option<int>): (r: Result<Header, XsdError>)
    ensures r.Failure? <==>
      exists i :: 0 <= i < |Select(doc, "shape")| && Select(doc, "shape")[i].None?
    ensures r.Failure? ==> r.error == ShapeWithoutText
  {
    ShapesTextless(Select(doc, "shape"));
    var shapes := ScanShapes(Select(doc, "shape"));
    if shapes.textless then Failure(ShapeWithoutText)
    else
      var sizes := ScanSizes(Select(doc, "size"), prior);
      Success(Header(
        Fields(shapes.dims, sizes.size, LastText(Select(doc, "dtype")), Anchored(doc, "coding"),
               LastText(Select(doc, "data")), Anchored(doc, "md5sum")),
        shapes.warnings + sizes.warnings))
  }

  /** The shape loop raises exactly when some `shape` element has no text. */
  lemma {:induction false} ShapesTextless(texts: seq<Option<string>>)
    ensures ScanShapes(texts).textless <==> exists i :: 0 <= i < |texts| && texts[i].None?
  {
    if texts != [] {
      var n := |texts|;
      ShapesTextless(texts[..n - 1]);
      assert forall i :: 0 <= i < n - 1 ==> texts[..n - 1][i] == texts[i];
    }
  }

  /** Without a missing text, every shape text is either read as an integer
      or skipped with one warning, and nothing else happens. */
  lemma {:induction false} ShapesAccounted(texts: seq<Option<string>>)
    requires !ScanShapes(texts).textless
    ensures |ScanShapes(texts).dims| + |ScanShapes(texts).warnings| == |texts|
  {
    if texts != [] {
      ShapesAccounted(texts[..|texts| - 1]);
    }
  }

  /** When every shape text is an integer, the dimensions are those
      integers, in document order, and nothing is skipped. */
  lemma {:induction false} ShapesAllIntegers(texts: seq<Option<string>>)
    requires forall i :: 0 <= i < |texts| ==> texts[i].Some? && ParseInt(texts[i].value).Some?
    ensures !ScanShapes(texts).textless && ScanShapes(texts).warnings == []
    ensures |ScanShapes(texts).dims| == |texts|
    ensures forall i :: 0 <= i < |texts| ==> ScanShapes(texts).dims[i] == ParseInt(texts[i].value).value
  {
    if texts != [] {
      var n := |texts|;
      ShapesAllIntegers(texts[..n - 1]);
      assert forall i :: 0 <= i < n - 1 ==> texts[..n - 1][i] == texts[i];
    }
  }

  /** Without a missing text, the shape loop over `a + b` reads what it
      reads over `a`, then what it reads over `b`: the integers and the
      skipped texts keep their document order. */
  lemma {:induction false} ShapesConcat(a: seq<Option<string>>, b: seq<Option<string>>)
    requires !ScanShapes(a + b).textless
    ensures !ScanShapes(a).textless && !ScanShapes(b).textless
    ensures ScanShapes(a + b) == ShapeScan(ScanShapes(a).dims + ScanShapes(b).dims,
                                           ScanShapes(a).warnings + ScanShapes(b).warnings, false)
  {
    if b == [] {
      assert a + b == a;
    } else {
      var n := |b|;
      assert (a + b)[..|a + b| - 1] == a + b[..n - 1];
      assert (a + b)[|a + b| - 1] == b[n - 1];
      ShapesConcat(a, b[..n - 1]);
    }
  }

  /** One shape text: an integer becomes a dimension, any other text is
      skipped with a warning naming it, and a missing text raises. */
  lemma ShapeSingle(t: Option<string>)
    ensures t.None? ==> ScanShapes([t]).textless
    ensures t.Some? && ParseInt(t.value).Some? ==>
      ScanShapes([t]) == ShapeScan([ParseInt(t.value).value], [], false)
    ensures t.Some? && ParseInt(t.value).None? ==>
      ScanShapes([t]) == ShapeScan([], [ShapeNotInteger(t.value)], false)
  {
    assert [t][..0] == [];
  }

  /** The shape texts "3", "x", "4" give the dimensions [3, 4] and one
      warning, for "x". */
  lemma ShapesSkipText()
    ensures ScanShapes([Some("3"), Some("x"), Some("4")]) == ShapeScan([3, 4], [ShapeNotInteger("x")], false)
  {
    ShapeSingle(Some("3"));
    ShapeSingle(Some("x"));
    ShapeSingle(Some("4"));
    assert ParseInt("3") == Some(3);
    assert ParseInt("x") == None;
    assert ParseInt("4") == Some(4);
    var ab := [Some("3"), Some("x")];
    assert [Some("3"), Some("x"), Some("4")] == ab + [Some("4")];
    assert ab == [Some("3")] + [Some("x")];
    ShapesTextless(ab + [Some("4")]);
    ShapesConcat(ab, [Some("4")]);
    ShapesConcat([Some("3")], [Some("x")]);
  }

  /** An element appended to the document joins the selection of its own
      tag, at the end, and no other. */
  lemma SelectAppend(doc: seq<Node>, n: Node, tag: string)
    ensures Select(doc + [n], tag) == if n.tag == tag then Select(doc, tag) + [n.text] else Select(doc, tag)
  {
    assert (doc + [n])[..|doc|] == doc;
  }

  /** Last one wins: an element appended to the document sets `dtype`, the
      payload or (with an integer text) the size, whatever came before. */
  lemma LastOneWins(doc: seq<Node>, text: Option<string>, prior: Option<int>)
    requires !ScanShapes(Select(doc, "shape")).textless
    ensures ReadDocument(doc + [Node("dtype", text)], prior).Success?
    ensures ReadDocument(doc + [Node("dtype", text)], prior).value.fields.dtype == text
    ensures ReadDocument(doc + [Node("data", text)], prior).value.fields.rawData == text
    ensures text.Some? && ParseInt(text.value).Some? ==>
      ReadDocument(doc + [Node("size", text)], prior).value.fields.size == ParseInt(text.value)
  {
    SelectAppend(doc, Node("dtype", text), "shape");
    SelectAppend(doc, Node("dtype", text), "dtype");
    SelectAppend(doc, Node("data", text), "shape");
    SelectAppend(doc, Node("data", text), "data");
    SelectAppend(doc, Node("size", text), "shape");
    SelectAppend(doc, Node("size", text), "size");
  }

  /** A size written as `str(n)` is read back as `n`. */
  lemma SizeReadBack(doc: seq<Node>, n: int, prior: Option<int>)
    requires !ScanShapes(Select(doc, "shape")).textless
    ensures ReadDocument(doc + [Node("size", Some(ShowInt(n)))], prior).value.fields.size == Some(n)
  {
    var node := Node("size", Some(ShowInt(n)));
    SelectAppend(doc, node, "shape");
    SelectAppend(doc, node, "size");
    ParseShow(n);
  }

  /** `coding` and `md5` come from the whole document: each is the text of
      the last `value` element once its anchor exists, so with both anchors
      present the two are equal. */
  lemma CodingAndChecksumShareValue(doc: seq<Node>, prior: Option<int>)
    requires ReadDocument(doc, prior).Success?
    ensures var f := ReadDocument(doc, prior).value.fields;
      (Select(doc, "coding") != [] ==> f.coding == LastText(Select(doc, "value"))) &&
      (Select(doc, "coding") == [] ==> f.coding == None) &&
      (Select(doc, "md5sum") != [] ==> f.md5 == LastText(Select(doc, "value"))) &&
      (Select(doc, "md5sum") == [] ==> f.md5 == None) &&
      (Select(doc, "coding") != [] && Select(doc, "md5sum") != [] ==> f.coding == f.md5)
  {
  }
  /** Once an element without text has stopped the shape loop, later
      elements change nothing. */
  lemma {:induction false} TextlessPersists(texts: seq<Option<string>>, k: nat)
    requires k <= |texts| && ScanShapes(texts[..k]).textless
    ensures ScanShapes(texts) == ScanShapes(texts[..k])
  {
    if k < |texts| {
      var n := |texts|;
      assert texts[..n - 1][..k] == texts[..k];
      TextlessPersists(texts[..n - 1], k);
    } else {
      assert texts[..k] == texts;
    }
  }

  /** The `shape` loop of the header reader: `ok` is false when it stopped
      at an element without text, and `dims` then holds what was read before. */
  method ReadShapes(texts: seq<Option<string>>) returns (dims: seq<int>, warnings: seq<Warning>, ok: bool)
    ensures ScanShapes(texts) == ShapeScan(dims, warnings, !ok)
  {
    dims, warnings, ok := [], [], true;
    var i := 0;
    while i < |texts|
      invariant i <= |texts|
      invariant ScanShapes(texts[..i]) == ShapeScan(dims, warnings, false)
    {
      assert texts[..i + 1][..i] == texts[..i];
      match texts[i]
      case None =>
        ok := false;
        TextlessPersists(texts, i + 1);
        return;
      case Some(t) =>
        var v := ParseInt(t);
        if v.Some? {
          dims := dims + [v.value];
        } else {
          warnings := warnings + [ShapeNotInteger(t)];
        }
      i := i + 1;
    }
    assert texts[..i] == texts;
  }

  /** The `size` loop of the header reader, starting from the size held before. */
  method ReadSizes(texts: seq<Option<string>>, prior: Option<int>) returns (size: Option<int>, warnings: seq<Warning>)
    ensures ScanSizes(texts, prior) == SizeScan(size, warnings)
  {
    size, warnings := prior, [];
    for i := 0 to |texts|
      invariant ScanSizes(texts[..i], prior) == SizeScan(size, warnings)
    {
      assert texts[..i + 1][..i] == texts[..i];
      var t := texts[i];
      if t.Some? && ParseInt(t.value).Some? {
        size := ParseInt(t.value);
      } else {
        warnings := warnings + [SizeNotInteger(t)];
      }
    }
    assert texts[..|texts|] == texts;
  }

  /** A loop that assigns each selected text in turn: the last one stays. */
  method LastOf(texts: seq<Option<string>>) returns (v: Option<string>)
    ensures v == LastText(texts)
    ensures texts != [] ==> v == texts[|texts| - 1]
  {
    v := None;
    for i := 0 to |texts|
      invariant v == LastText(texts[..i])
    {
      v := texts[i];
    }
    assert texts[..|texts|] == texts;
  }

  /** The nested `coding` (or `md5sum`) loop: for every anchor, every `value`
      element of the whole document, so the last `value` text wins as soon as
      one anchor exists. */
  method AnchoredLast(anchors: seq<Option<string>>, values: seq<Option<string>>) returns (v: Option<string>)
    ensures anchors == [] ==> v == None
    ensures anchors != [] ==> v == LastText(values)
  {
    v := None;
    for i := 0 to |anchors|
      invariant v == if i == 0 then None else LastText(values)
    {
      for j := 0 to |values|
        invariant v == if j == 0 then (if i == 0 then None else LastText(values)) else values[j - 1]
      {
        v := values[j];
      }
    }
  }
  /** `_readheader` over a whole document, starting from the size held
      before: `ok` is false when a `shape` element has no text, and only the
      dimensions and warnings of the shape loop are then meaningful. */
  method ReadHeaderFields(doc: seq<Node>, prior: Option<int>) returns (h: Header, ok: bool)
    ensures ok <==> ReadDocument(doc, prior).Success?
    ensures ok ==> h == ReadDocument(doc, prior).value
    ensures !ok ==> h.fields.dims == ScanShapes(Select(doc, "shape")).dims
    ensures !ok ==> h.warnings == ScanShapes(Select(doc, "shape")).warnings
  {
    var dims, shapeWarnings;
    dims, shapeWarnings, ok := ReadShapes(Select(doc, "shape"));
    if !ok {
      return Header(Fields(dims, None, None, None, None, None), shapeWarnings), false;
    }
    var size, sizeWarnings := ReadSizes(Select(doc, "size"), prior);
    var dtype := LastOf(Select(doc, "dtype"));
    var coding := AnchoredLast(Select(doc, "coding"), Select(doc, "value"));
    var rawData := LastOf(Select(doc, "data"));
    var md5 := AnchoredLast(Select(doc, "md5sum"), Select(doc, "value"));
    h := Header(Fields(dims, size, dtype, coding, rawData, md5), shapeWarnings + sizeWarnings);
  }
}
