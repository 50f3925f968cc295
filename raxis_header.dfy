/**
 * Decoding the header block of a Rigaku RAXIS image: the fields of the
 * layout are read one after the other from the start of the block, each in
 * the way its kind says, until the remainder field has taken the rest of the
 * block or the block is used up.
 */
module RaxisHeader {
  import opened Bytes
  import opened Results
  import opened RaxisLayout

  /** The reader takes the first 1400 bytes of the file as the header block. */
  const MinHeaderLength := 1400

  /** A decoded header value: a byte string (fixed-width fields and the
      remainder), the four bytes of a float, most significant byte first, or a
      signed 32-bit integer. */
  datatype Value = Str(bytes: seq<byte>) | Float(bits: seq<byte>) | Long(n: int)

  /** The header block: the first `MinHeaderLength` bytes of the file, or the
      whole file when it is shorter. */
  function HeaderBlock(file: seq<byte>): (raw: seq<byte>)
    ensures |raw| <= MinHeaderLength
    ensures raw <= file
    ensures |raw| == MinHeaderLength || raw == file
  {
    if |file| <= MinHeaderLength then file else file[..MinHeaderLength]
  }

  /** Result of reading one field at a byte position: its value and the next
      position, or `Short` when the block ends inside the field (the unpack
      then raises an error). */
  datatype Step = Stored(value: Value, next: nat) | Short

  /** Reads one field of kind `kind` at byte `cur` of the block `raw`. */
  function ReadField(raw: seq<byte>, order: ByteOrder, kind: Kind, cur: nat): (s: Step)
    requires cur <= |raw|
    ensures s.Short? <==> !kind.Remainder? && cur + Width(kind) > |raw|
    ensures s.Stored? && !kind.Remainder? ==> s.next == cur + Width(kind)
    ensures s.Stored? && kind.Remainder? ==> s.next == |raw|
  {
    match kind
    case Remainder => Stored(Str(raw[cur..]), |raw|)
    case FixedBytes(n) =>
      if cur + n <= |raw| then Stored(Str(raw[cur..cur + n]), cur + n) else Short
    case Float32 =>
      if cur + 4 <= |raw| then Stored(Float(MostSignificantFirst(raw[cur..cur + 4], order)), cur + 4) else Short
    case Int32 =>
      if cur + 4 <= |raw| then Stored(Long(Int32Value(raw[cur..cur + 4], order)), cur + 4) else Short
  }

  /** How a header read ends: the values of the first `|values|` fields, the
      byte position reached, and whether every read field was complete. */
  datatype Decoded = Decoded(values: seq<Value>, cursor: nat, complete: bool)

  /** The header loop from field `i` at byte `cur`, with the values decoded so
      far in `values`. It stops after the remainder field, when a field ends
      exactly at the end of the block, or when the block ends inside a field. */
  function Walk(raw: seq<byte>, order: ByteOrder, i: nat, cur: nat, values: seq<Value>): Decoded
    requires i < FieldCount && cur <= |raw|
    decreases FieldCount - i
  {
    match ReadField(raw, order, KindAt(i), cur)
    case Short => Decoded(values, cur, false)
    case Stored(v, next) =>
      if KindAt(i).Remainder? || next == |raw| || i + 1 == FieldCount then
        Decoded(values + [v], next, true)
      else
        Walk(raw, order, i + 1, next, values + [v])
  }

  /** One turn of the header loop: read field `i`; stop when it is short,
      the remainder, the last field, or ends at the end of the block. */
  lemma WalkStep(raw: seq<byte>, order: ByteOrder, i: nat, cur: nat, values: seq<Value>)
    requires i < FieldCount && cur <= |raw|
    ensures var s := ReadField(raw, order, KindAt(i), cur);
      var w := Walk(raw, order, i, cur, values);
      (s.Short? ==> w == Decoded(values, cur, false)) &&
      (s.Stored? && (KindAt(i).Remainder? || s.next == |raw| || i + 1 == FieldCount) ==>
        w == Decoded(values + [s.value], s.next, true)) &&
      (s.Stored? && !(KindAt(i).Remainder? || s.next == |raw| || i + 1 == FieldCount) ==>
        w == Walk(raw, order, i + 1, s.next, values + [s.value]))
  {
  }

  /** Why a header cannot be decoded. */
  datatype HeaderError = Truncated(field: nat)

  /** The header of a block: the values of the fields read, in layout order,
      or the field inside which the block ends. */
  function DecodeHeader(raw: seq<byte>, order: ByteOrder): (r: Result<seq<Value>, HeaderError>)
    ensures r.Success? ==> |r.value| <= FieldCount
  {
    WalkExtends(raw, order, 0, 0, []);
    var d := Walk(raw, order, 0, 0, []);
    if d.complete then Success(d.values) else Failure(Truncated(|d.values|))
  }

  /** The field loop of the header reader: reads the fields one after the
      other in layout order, stopping after the remainder field, where a
      field ends exactly at the end of the block, or at the first field the
      block is too short for. Returns the values read and the error, if any. */
  method ReadFields(raw: seq<byte>, order: ByteOrder) returns (values: seq<Value>, err: Option<HeaderError>)
    ensures |values| <= FieldCount && values == Walk(raw, order, 0, 0, []).values
    ensures err.None? <==> DecodeHeader(raw, order).Success?
    ensures err.None? ==> values == DecodeHeader(raw, order).value
    ensures err.Some? ==> err.value == DecodeHeader(raw, order).error
  {
    ghost var whole := Walk(raw, order, 0, 0, []);
    values := [];
    var cur: nat := 0;
    var i: nat := 0;
    var done := false;
    err := None;
    while i < FieldCount && !done
      invariant i <= FieldCount && cur <= |raw| && |values| <= FieldCount
      invariant !done && i < FieldCount ==> |values| == i && Walk(raw, order, i, cur, values) == whole
      invariant !done ==> err.None?
      invariant err.Some? ==> err.value == Truncated(|values|)
      invariant done || i == FieldCount ==> whole == Decoded(values, cur, err.None?)
      decreases FieldCount - i, if done then 0 else 1
    {
      var kind := KindAt(i);
      var step := ReadField(raw, order, kind, cur);
      WalkStep(raw, order, i, cur, values);
      if step.Short? {
        err := Some(Truncated(i));
        done := true;
      } else {
        values := values + [step.value];
        cur := step.next;
        if kind.Remainder? || cur == |raw| {
          done := true;
        } else {
          i := i + 1;
        }
      }
    }
  }

  /** Field `k` lies inside the block where the layout puts it. */
  predicate Fits(raw: seq<byte>, k: nat)
    requires k < FieldCount
  {
    if KindAt(k).Remainder? then Offset(k) <= |raw| else Offset(k) + Width(KindAt(k)) <= |raw|
  }

  /** The value field `k` has when it is read where the layout puts it. */
  function FieldAt(raw: seq<byte>, order: ByteOrder, k: nat): Value
    requires k < FieldCount && Fits(raw, k)
  {
    ReadField(raw, order, KindAt(k), Offset(k)).value
  }

  /** A 4-byte integer field read at its layout offset. */
  lemma Int32FieldAt(raw: seq<byte>, order: ByteOrder, k: nat)
    requires k < FieldCount && KindAt(k) == Int32 && Fits(raw, k)
    ensures Offset(k) + 4 <= |raw|
    ensures FieldAt(raw, order, k) == Long(Int32Value(raw[Offset(k)..Offset(k) + 4], order))
  {
  }

  /** A float field read at its layout offset. */
  lemma Float32FieldAt(raw: seq<byte>, order: ByteOrder, k: nat)
    requires k < FieldCount && KindAt(k) == Float32 && Fits(raw, k)
    ensures Offset(k) + 4 <= |raw|
    ensures FieldAt(raw, order, k) == Float(MostSignificantFirst(raw[Offset(k)..Offset(k) + 4], order))
  {
  }

  /** A fixed-width string field read at its layout offset: its bytes as
      they are, untrimmed and whatever the byte order. */
  lemma FixedBytesFieldAt(raw: seq<byte>, order: ByteOrder, k: nat)
    requires k < FieldCount && KindAt(k).FixedBytes? && Fits(raw, k)
    ensures Offset(k) + KindAt(k).n <= |raw|
    ensures FieldAt(raw, order, k) == Str(raw[Offset(k)..Offset(k) + KindAt(k).n])
  {
  }

  /** The remainder field read at its layout offset: the rest of the block. */
  lemma RemainderFieldAt(raw: seq<byte>, order: ByteOrder, k: nat)
    requires k < FieldCount && KindAt(k).Remainder? && Fits(raw, k)
    ensures FieldAt(raw, order, k) == Str(raw[Offset(k)..])
  {
  }

  /** `values` are the first `|values|` fields, each read at its layout offset. */
  predicate LaidOut(raw: seq<byte>, order: ByteOrder, values: seq<Value>)
  {
    |values| <= FieldCount &&
    forall k :: 0 <= k < |values| ==> Fits(raw, k) && values[k] == FieldAt(raw, order, k)
  }

  /** Appending the layout value of the next field keeps the values laid out. */
  lemma AppendLaidOut(raw: seq<byte>, order: ByteOrder, values: seq<Value>, v: Value)
    requires LaidOut(raw, order, values) && |values| < FieldCount
    requires Fits(raw, |values|) && v == FieldAt(raw, order, |values|)
    ensures LaidOut(raw, order, values + [v])
  {
    var vs := values + [v];
    forall k | 0 <= k < |vs|
      ensures Fits(raw, k) && vs[k] == FieldAt(raw, order, k)
    {
      if k < |values| {
        assert vs[k] == values[k];
      }
    }
  }

  /** No field before field `n` ends exactly at the end of the block. */
  predicate NoEarlierEnd(raw: seq<byte>, n: nat)
    requires n <= FieldCount
  {
    forall k :: 1 <= k < n ==> Offset(k) < |raw|
  }

  /** How the loop ended: complete at the end of the block, after the
      remainder or where a field ends exactly there, or incomplete where the
      block ends inside the field after the last one read. */
  predicate EndsRight(raw: seq<byte>, d: Decoded)
  {
    |d.values| <= FieldCount &&
    (d.complete ==>
      d.cursor == |raw| &&
      ((|d.values| == FieldCount && Offset(FieldCount - 1) < |raw|) ||
       (0 < |d.values| < FieldCount && Offset(|d.values|) == |raw|))) &&
    (!d.complete ==>
      |d.values| < FieldCount - 1 && Offset(|d.values|) <= |raw| < Offset(|d.values| + 1))
  }

  /** Reading field `i` at its layout offset: it is short exactly when it does
      not fit, and otherwise gives the layout value and moves to the next
      field's offset, or to the end of the block after the remainder. */
  lemma ReadAtOffset(raw: seq<byte>, order: ByteOrder, i: nat)
    requires i < FieldCount && Offset(i) <= |raw|
    ensures var s := ReadField(raw, order, KindAt(i), Offset(i));
      (s.Short? <==> !Fits(raw, i)) &&
      (s.Stored? ==> s.value == FieldAt(raw, order, i)) &&
      (s.Stored? && i < FieldCount - 1 ==> s.next == Offset(i + 1) && Offset(i) < s.next) &&
      (s.Stored? && i == FieldCount - 1 ==> s.next == |raw|)
  {
    RemainderIsLast();
  }

  /** A loop that stops after field `i` because that field was the
      remainder, the last field, or ended exactly at the end of the block,
      ends as EndsRight says. */
  lemma StopEndsRight(raw: seq<byte>, i: nat, vs: seq<Value>, next: nat)
    requires i < FieldCount && |vs| == i + 1 && NoEarlierEnd(raw, i + 1)
    requires KindAt(i).Remainder? || next == |raw| || i + 1 == FieldCount
    requires i < FieldCount - 1 ==> next == Offset(i + 1)
    requires i == FieldCount - 1 ==> next == |raw|
    ensures EndsRight(raw, Decoded(vs, next, true))
  {
    RemainderIsLast();
  }

  /** Every value the loop reads, started at field `i` where the layout puts
      it, is the value of its field at its layout offset. */
  lemma {:induction false} WalkLaidOut(raw: seq<byte>, order: ByteOrder, i: nat, cur: nat, values: seq<Value>)
    requires i < FieldCount && cur <= |raw|
    requires cur == Offset(i) && |values| == i && LaidOut(raw, order, values)
    ensures LaidOut(raw, order, Walk(raw, order, i, cur, values).values)
    decreases FieldCount - i
  {
    ReadAtOffset(raw, order, i);
    match ReadField(raw, order, KindAt(i), cur)
    case Short =>
    case Stored(v, next) =>
      AppendLaidOut(raw, order, values, v);
      if !(KindAt(i).Remainder? || next == |raw| || i + 1 == FieldCount) {
        WalkLaidOut(raw, order, i + 1, next, values + [v]);
      }
  }

  /** The loop keeps the values it was given and adds at most one per field. */
  lemma {:induction false} WalkExtends(raw: seq<byte>, order: ByteOrder, i: nat, cur: nat, values: seq<Value>)
    requires i < FieldCount && cur <= |raw|
    ensures var d := Walk(raw, order, i, cur, values);
      |values| <= |d.values| <= |values| + FieldCount - i && d.values[..|values|] == values
    decreases FieldCount - i
  {
    match ReadField(raw, order, KindAt(i), cur)
    case Short =>
    case Stored(v, next) =>
      var vs := values + [v];
      assert vs[..|values|] == values;
      if !(KindAt(i).Remainder? || next == |raw| || i + 1 == FieldCount) {
        WalkExtends(raw, order, i + 1, next, vs);
        var d := Walk(raw, order, i + 1, next, vs);
        assert d.values[..|values|] == d.values[..|vs|][..|values|];
      }
  }

  /** The loop, started at field `i` where the layout puts it and with no
      earlier field ending at the end of the block, ends as EndsRight says. */
  lemma {:induction false} WalkEnds(raw: seq<byte>, order: ByteOrder, i: nat, cur: nat, values: seq<Value>)
    requires i < FieldCount && cur <= |raw|
    requires cur == Offset(i) && |values| == i
    requires NoEarlierEnd(raw, i + 1)
    ensures var d := Walk(raw, order, i, cur, values);
      EndsRight(raw, d) && NoEarlierEnd(raw, |d.values|) &&
      (!d.complete ==> NoEarlierEnd(raw, |d.values| + 1))
    decreases FieldCount - i
  {
    ReadAtOffset(raw, order, i);
    match ReadField(raw, order, KindAt(i), cur)
    case Short =>
    case Stored(v, next) =>
      var vs := values + [v];
      if KindAt(i).Remainder? || next == |raw| || i + 1 == FieldCount {
        StopEndsRight(raw, i, vs, next);
      } else {
        assert NoEarlierEnd(raw, i + 2);
        WalkEnds(raw, order, i + 1, next, vs);
      }
  }

  /** Decoding succeeds exactly when the block reaches past the start of the
      remainder field or ends exactly where some field ends. */
  lemma DecodeSucceeds(raw: seq<byte>, order: ByteOrder)
    ensures DecodeHeader(raw, order).Success? <==>
      (|raw| > Offset(FieldCount - 1) || exists k :: 1 <= k < FieldCount && Offset(k) == |raw|)
  {
    WalkEnds(raw, order, 0, 0, []);
    var d := Walk(raw, order, 0, 0, []);
    if d.complete {
      if |d.values| < FieldCount {
        var n := |d.values|;
        assert 1 <= n < FieldCount && Offset(n) == |raw|;
      } else {
        assert |raw| > Offset(FieldCount - 1);
      }
    }
    if !d.complete {
      var m := |d.values|;
      OffsetMonotone(m + 1, FieldCount - 1);
      forall k | 1 <= k < FieldCount
        ensures Offset(k) != |raw|
      {
        if k > m {
          OffsetMonotone(m + 1, k);
        } else {
          assert NoEarlierEnd(raw, m + 1);
        }
      }
    }
  }

  /** A decoded header holds the first fields of the block, each read at its
      layout offset: all of them when the block reaches past the start of the
      remainder, otherwise those before the offset where the block ends. */
  lemma DecodedValues(raw: seq<byte>, order: ByteOrder)
    requires DecodeHeader(raw, order).Success?
    ensures var values := DecodeHeader(raw, order).value;
      LaidOut(raw, order, values) && 0 < |values| &&
      (|values| == FieldCount <==> |raw| > Offset(FieldCount - 1)) &&
      (|values| < FieldCount ==> Offset(|values|) == |raw|)
  {
    WalkLaidOut(raw, order, 0, 0, []);
    WalkEnds(raw, order, 0, 0, []);
    var n := |DecodeHeader(raw, order).value|;
    if n < FieldCount {
      OffsetMonotone(n, FieldCount - 1);
    }
  }

  /** Decoding fails exactly at the field inside which the block ends. */
  lemma DecodeTruncated(raw: seq<byte>, order: ByteOrder)
    requires DecodeHeader(raw, order).Failure?
    ensures var f := DecodeHeader(raw, order).error.field;
      f < FieldCount - 1 && Offset(f) <= |raw| < Offset(f + 1) &&
      (f > 0 ==> Offset(f) < |raw|)
  {
    WalkEnds(raw, order, 0, 0, []);
  }

  /** A full 1400-byte block decodes to all 112 fields: the pixel counts are
      the 4-byte integers at bytes 768 and 772, the photomultiplier ratio the
      float at byte 800, and the remainder the last 240 bytes. */
  lemma FullBlock(raw: seq<byte>, order: ByteOrder)
    requires |raw| == MinHeaderLength
    ensures DecodeHeader(raw, order).Success?
    ensures var values := DecodeHeader(raw, order).value;
      |values| == FieldCount &&
      values[44] == Long(Int32Value(raw[768..772], order)) &&
      values[45] == Long(Int32Value(raw[772..776], order)) &&
      values[52] == Float(MostSignificantFirst(raw[800..804], order)) &&
      values[FieldCount - 1] == Str(raw[1160..]) && |raw[1160..]| == 240
  {
    LayoutTo44();
    LayoutTo45();
    LayoutTo52();
    LayoutTo111();
    ReaderKinds();
    RemainderIsLast();
    DecodeSucceeds(raw, order);
    DecodedValues(raw, order);
  }
}
