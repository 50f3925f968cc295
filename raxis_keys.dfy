/**
 * The header keys of a Rigaku RAXIS image (orderList), and where the keys the
 * image reader needs sit in the header block.
 */
module RaxisKeys {
  import opened RaxisLayout
  import opened RaxisHeader

  /** orderList[i]: the key under which the `i`-th field is stored. */
  function Name(i: nat): string
    requires i < FieldCount
  {
    match i
    case 0 => "InstrumentType"
    case 1 => "Version"
    case 2 => "Crystal Name"
    case 3 => "Crystal System"
    case 4 => "A"
    case 5 => "B"
    case 6 => "C"
    case 7 => "Alpha"
    case 8 => "Beta"
    case 9 => "Gamma"
    case 10 => "Space Group"
    case 11 => "Mosaicity"
    case 12 => "Memo"
    case 13 => "Date"
    case 14 => "Reserved Space 1"
    case 15 => "User"
    case 16 => "Xray Target"
    case 17 => "Wavelength"
    case 18 => "Monochromator"
    case 19 => "Monochromator 2theta"
    case 20 => "Collimator"
    case 21 => "Filter"
    case 22 => "Crystal-to-detector Distance"
    case 23 => "Generator Voltage"
    case 24 => "Generator Current"
    case 25 => "Focus"
    case 26 => "Xray Memo"
    case 27 => "IP shape"
    case 28 => "Oscillation Type"
    case 29 => "Reserved Space 2"
    case 30 => "Crystal Mount (spindle axis)"
    case 31 => "Crystal Mount (beam axis)"
    case 32 => "Phi Datum"
    case 33 => "Phi Oscillation Start"
    case 34 => "Phi Oscillation Stop"
    case 35 => "Frame Number"
    case 36 => "Exposure Time"
    case 37 => "Direct beam X position"
    case 38 => "Direct beam Y position"
    case 39 => "Omega Angle"
    case 40 => "Chi Angle"
    case 41 => "2Theta Angle"
    case 42 => "Mu Angle"
    case 43 => "Image Template"
    case 44 => "X Pixels"
    case 45 => "Y Pixels"
    case 46 => "X Pixel Length"
    case 47 => "Y Pixel Length"
    case 48 => "Record Length"
    case 49 => "Total"
    case 50 => "Starting Line"
    case 51 => "IP Number"
    case 52 => "Photomultiplier Ratio"
    case 53 => "Fade Time (to start of read)"
    case 54 => "Fade Time (to end of read)"
    case 55 => "Host Type/Endian"
    case 56 => "IP Type"
    case 57 => "Horizontal Scan"
    case 58 => "Vertical Scan"
    case 59 => "Front/Back Scan"
    case 60 => "Pixel Shift (RAXIS V)"
    case 61 => "Even/Odd Intensity Ratio (RAXIS V)"
    case 62 => "Magic number"
    case 63 => "Number of Axes"
    case 64 => "Goniometer Vector ax.1.1"
    case 65 => "Goniometer Vector ax.1.2"
    case 66 => "Goniometer Vector ax.1.3"
    case 67 => "Goniometer Vector ax.2.1"
    case 68 => "Goniometer Vector ax.2.2"
    case 69 => "Goniometer Vector ax.2.3"
    case 70 => "Goniometer Vector ax.3.1"
    case 71 => "Goniometer Vector ax.3.2"
    case 72 => "Goniometer Vector ax.3.3"
    case 73 => "Goniometer Vector ax.4.1"
    case 74 => "Goniometer Vector ax.4.2"
    case 75 => "Goniometer Vector ax.4.3"
    case 76 => "Goniometer Vector ax.5.1"
    case 77 => "Goniometer Vector ax.5.2"
    case 78 => "Goniometer Vector ax.5.3"
    case 79 => "Goniometer Start ax.1"
    case 80 => "Goniometer Start ax.2"
    case 81 => "Goniometer Start ax.3"
    case 82 => "Goniometer Start ax.4"
    case 83 => "Goniometer Start ax.5"
    case 84 => "Goniometer End ax.1"
    case 85 => "Goniometer End ax.2"
    case 86 => "Goniometer End ax.3"
    case 87 => "Goniometer End ax.4"
    case 88 => "Goniometer End ax.5"
    case 89 => "Goniometer Offset ax.1"
    case 90 => "Goniometer Offset ax.2"
    case 91 => "Goniometer Offset ax.3"
    case 92 => "Goniometer Offset ax.4"
    case 93 => "Goniometer Offset ax.5"
    case 94 => "Goniometer Scan Axis"
    case 95 => "Axes Names"
    case 96 => "file"
    case 97 => "cmnt"
    case 98 => "smpl"
    case 99 => "iext"
    case 100 => "reso"
    case 101 => "save"
    case 102 => "dint"
    case 103 => "byte"
    case 104 => "init"
    case 105 => "ipus"
    case 106 => "dexp"
    case 107 => "expn"
    case 108 => "posx"
    case 109 => "posy"
    case 110 => "xray"
    case _ => "Header Leftovers"
  }

  /** "X Pixels" is orderList[44] and occurs nowhere else in it. */
  lemma XPixelsKey()
    ensures Name(44) == "X Pixels"
    ensures forall j :: 0 <= j < FieldCount && j != 44 ==> Name(j) != "X Pixels"
  {
  }

  /** "Y Pixels" is orderList[45] and occurs nowhere else in it. */
  lemma YPixelsKey()
    ensures Name(45) == "Y Pixels"
    ensures forall j :: 0 <= j < FieldCount && j != 45 ==> Name(j) != "Y Pixels"
  {
  }

  /** "Photomultiplier Ratio" is orderList[52] and occurs nowhere else in it. */
  lemma RatioKey()
    ensures Name(52) == "Photomultiplier Ratio"
    ensures forall j :: 0 <= j < FieldCount && j != 52 ==> Name(j) != "Photomultiplier Ratio"
  {
  }

  /** A dictionary filled by storing `values[i]` under `keys[i]` in order, so
      that a later store under the same key replaces an earlier one. */
  function Stored(keys: seq<string>, values: seq<Value>): map<string, Value>
    requires |keys| == |values|
  {
    var n := |values|;
    if n == 0 then map[] else Stored(keys[..n - 1], values[..n - 1])[keys[n - 1] := values[n - 1]]
  }

  /** A key that occurs once in `keys`, at position `p`, holds `values[p]`;
      a key that does not occur is absent. */
  lemma {:induction false} StoredOnce(keys: seq<string>, values: seq<Value>, key: string, p: nat)
    requires |keys| == |values|
    requires forall j :: 0 <= j < |keys| && j != p ==> keys[j] != key
    requires p < |keys| ==> keys[p] == key
    ensures key in Stored(keys, values) <==> p < |keys|
    ensures p < |keys| ==> Stored(keys, values)[key] == values[p]
  {
    var n := |values|;
    if n > 0 {
      StoredOnce(keys[..n - 1], values[..n - 1], key, p);
    }
  }

  /** The keys of the first `n` fields, in layout order. */
  function KeysUpTo(n: nat): (keys: seq<string>)
    requires n <= FieldCount
    ensures |keys| == n && forall j :: 0 <= j < n ==> keys[j] == Name(j)
  {
    if n == 0 then [] else KeysUpTo(n - 1) + [Name(n - 1)]
  }

  /** The header dictionary after the first `|values|` fields were decoded. */
  function HeaderMap(values: seq<Value>): map<string, Value>
    requires |values| <= FieldCount
  {
    Stored(KeysUpTo(|values|), values)
  }

  /** The entries the image reader looks up: "X Pixels", "Y Pixels" and
      "Photomultiplier Ratio" are present exactly when fields 44, 45 and 52
      were decoded, and hold those fields' values. */
  lemma ReaderEntries(values: seq<Value>)
    requires |values| <= FieldCount
    ensures "X Pixels" in HeaderMap(values) <==> |values| > 44
    ensures "Y Pixels" in HeaderMap(values) <==> |values| > 45
    ensures "Photomultiplier Ratio" in HeaderMap(values) <==> |values| > 52
    ensures |values| > 44 ==> HeaderMap(values)["X Pixels"] == values[44]
    ensures |values| > 45 ==> HeaderMap(values)["Y Pixels"] == values[45]
    ensures |values| > 52 ==> HeaderMap(values)["Photomultiplier Ratio"] == values[52]
  {
    var keys := KeysUpTo(|values|);
    XPixelsKey();
    YPixelsKey();
    RatioKey();
    StoredOnce(keys, values, "X Pixels", 44);
    StoredOnce(keys, values, "Y Pixels", 45);
    StoredOnce(keys, values, "Photomultiplier Ratio", 52);
  }

  /** Decoding one more field stores its value under that field's name. */
  lemma HeaderMapAppend(values: seq<Value>, v: Value)
    requires |values| < FieldCount
    ensures HeaderMap(values + [v]) == HeaderMap(values)[Name(|values|) := v]
  {
    var n := |values|;
    var keys := KeysUpTo(n + 1);
    var vs := values + [v];
    assert keys[..n] == KeysUpTo(n);
    assert vs[..n] == values;
  }
}
