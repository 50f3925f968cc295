/**
 * Base16 as section 8 of RFC 4648 defines it and Python's
 * `base64.b16decode` applies it without case folding: two upper-case
 * hexadecimal digits per byte, most significant digit first.
 */
module Base16 {
  import opened Bytes
  import opened Results

  predicate IsHexDigit(c: char)
  {
    '0' <= c <= '9' || 'A' <= c <= 'F'
  }

  /** The digit of a value below 16. */
  function HexDigit(v: nat): (c: char)
    requires v < 16
    ensures IsHexDigit(c)
  {
    if v < 10 then ('0' as int + v) as char else ('A' as int + v - 10) as char
  }

  function HexValue(c: char): (v: nat)
    requires IsHexDigit(c)
    ensures v < 16 && HexDigit(v) == c
  {
    if c <= '9' then c as int - '0' as int else c as int - 'A' as int + 10
  }

  /** The two digits of one byte. */
  function EncodeByte(b: byte): (s: string)
    ensures |s| == 2 && IsHexDigit(s[0]) && IsHexDigit(s[1])
    ensures HexValue(s[0]) * 16 + HexValue(s[1]) == b as int
  {
    [HexDigit((b / 16) as int), HexDigit((b % 16) as int)]
  }

  /** `b16encode`: the upper-case digits of `data`. */
  function Encode(data: seq<byte>): (s: string)
    ensures |s| == 2 * |data|
  {
    if data == [] then [] else EncodeByte(data[0]) + Encode(data[1..])
  }

  /** `b16decode` with `casefold` off: None where Python raises, that is when
      a character is not an upper-case hexadecimal digit or the length is odd. */
  function Decode(s: string): (r: Option<seq<byte>>)
    ensures r.Some? ==> 2 * |r.value| == |s|
  {
    if s == [] then Some([])
    else if |s| == 1 || !IsHexDigit(s[0]) || !IsHexDigit(s[1]) then None
    else
      match Decode(s[2..])
      case None => None
      case Some(rest) => Some([(HexValue(s[0]) * 16 + HexValue(s[1])) as byte] + rest)
  }

  /** Decoding what `Encode` wrote gives back the bytes. */
  lemma {:induction false} DecodeEncode(data: seq<byte>)
    ensures Decode(Encode(data)) == Some(data)
  {
    if data != [] {
      DecodeEncode(data[1..]);
      var s := Encode(data);
      assert s[2..] == Encode(data[1..]);
      var e := EncodeByte(data[0]);
      assert s[0] == e[0] && s[1] == e[1];
      assert (HexValue(s[0]) * 16 + HexValue(s[1])) as byte == data[0];
      assert Decode(s) == Some([data[0]] + data[1..]);
      assert [data[0]] + data[1..] == data;
    }
  }

  /** Whatever `Decode` accepts is exactly the encoding of what it returns. */
  lemma {:induction false} EncodeDecode(s: string)
    requires Decode(s).Some?
    ensures Encode(Decode(s).value) == s
  {
    if s != [] {
      EncodeDecode(s[2..]);
      var b := (HexValue(s[0]) * 16 + HexValue(s[1])) as byte;
      var data := Decode(s).value;
      assert data == [b] + Decode(s[2..]).value;
      assert data[0] == b && data[1..] == Decode(s[2..]).value;
      assert (b / 16) as int == HexValue(s[0]) && (b % 16) as int == HexValue(s[1]);
      assert EncodeByte(b) == s[..2];
      assert s == s[..2] + s[2..];
    }
  }

  /** `Decode` accepts exactly the even-length texts of upper-case hexadecimal digits. */
  lemma {:induction false} DecodeAccepts(s: string)
    ensures Decode(s).Some? <==> |s| % 2 == 0 && forall i :: 0 <= i < |s| ==> IsHexDigit(s[i])
  {
    if s != [] && |s| != 1 {
      DecodeAccepts(s[2..]);
      assert forall i :: 2 <= i < |s| ==> s[i] == s[2..][i - 2];
    }
  }
}
