/**
 * The fixed layout of a Rigaku RAXIS header block.
 *
 * The reader keeps two tables: RKey, from each header key to how its value is
 * read, and orderList, the keys in the order their values are laid out in the
 * block. Fields are identified here by their position in orderList:
 * `KindAt(i)` is RKey[orderList[i]], and module RaxisKeys gives the key
 * strings themselves.
 */
module RaxisLayout {

  /** How one header field is read (the values of RKey): a fixed number of
      bytes, a 4-byte float ('float'), a 4-byte signed integer ('long'), or
      everything left in the header block (-1). */
  datatype Kind = FixedBytes(n: nat) | Float32 | Int32 | Remainder

  /** Number of keys in orderList (and in RKey). */
  const FieldCount := 112

  /** RKey[orderList[i]]: how the `i`-th field is read. The table is a
      balanced search on `i`; its leaves, read top to bottom, follow orderList. */
  function KindAt(i: nat): Kind
    requires i < FieldCount
  {
    if i < 56 then
      if i < 28 then
        if i < 14 then
          if i < 7 then
            if i < 3 then
              if i < 1 then
                FixedBytes(10)  // 0 InstrumentType
              else
                if i < 2 then
                  FixedBytes(10)  // 1 Version
                else
                  FixedBytes(20)  // 2 Crystal Name
            else
              if i < 5 then
                if i < 4 then
                  FixedBytes(12)  // 3 Crystal System
                else
                  Float32  // 4 A
              else
                if i < 6 then
                  Float32  // 5 B
                else
                  Float32  // 6 C
          else
            if i < 10 then
              if i < 8 then
                Float32  // 7 Alpha
              else
                if i < 9 then
                  Float32  // 8 Beta
                else
                  Float32  // 9 Gamma
            else
              if i < 12 then
                if i < 11 then
                  FixedBytes(12)  // 10 Space Group
                else
                  Float32  // 11 Mosaicity
              else
                if i < 13 then
                  FixedBytes(80)  // 12 Memo
                else
                  FixedBytes(12)  // 13 Date
        else
          if i < 21 then
            if i < 17 then
              if i < 15 then
                FixedBytes(84)  // 14 Reserved Space 1
              else
                if i < 16 then
                  FixedBytes(20)  // 15 User
                else
                  FixedBytes(4)  // 16 Xray Target
            else
              if i < 19 then
                if i < 18 then
                  Float32  // 17 Wavelength
                else
                  FixedBytes(20)  // 18 Monochromator
              else
                if i < 20 then
                  Float32  // 19 Monochromator 2theta
                else
                  FixedBytes(20)  // 20 Collimator
          else
            if i < 24 then
              if i < 22 then
                FixedBytes(4)  // 21 Filter
              else
                if i < 23 then
                  Float32  // 22 Crystal-to-detector Distance
                else
                  Float32  // 23 Generator Voltage
            else
              if i < 26 then
                if i < 25 then
                  Float32  // 24 Generator Current
                else
                  FixedBytes(12)  // 25 Focus
              else
                if i < 27 then
                  FixedBytes(80)  // 26 Xray Memo
                else
                  Int32  // 27 IP shape
      else
        if i < 42 then
          if i < 35 then
            if i < 31 then
              if i < 29 then
                Float32  // 28 Oscillation Type
              else
                if i < 30 then
                  FixedBytes(56)  // 29 Reserved Space 2
                else
                  FixedBytes(4)  // 30 Crystal Mount (spindle axis)
            else
              if i < 33 then
                if i < 32 then
                  FixedBytes(4)  // 31 Crystal Mount (beam axis)
                else
                  Float32  // 32 Phi Datum
              else
                if i < 34 then
                  Float32  // 33 Phi Oscillation Start
                else
                  Float32  // 34 Phi Oscillation Stop
          else
            if i < 38 then
              if i < 36 then
                Int32  // 35 Frame Number
              else
                if i < 37 then
                  Float32  // 36 Exposure Time
                else
                  Float32  // 37 Direct beam X position
            else
              if i < 40 then
                if i < 39 then
                  Float32  // 38 Direct beam Y position
                else
                  Float32  // 39 Omega Angle
              else
                if i < 41 then
                  Float32  // 40 Chi Angle
                else
                  Float32  // 41 2Theta Angle
        else
          if i < 49 then
            if i < 45 then
              if i < 43 then
                Float32  // 42 Mu Angle
              else
                if i < 44 then
                  FixedBytes(204)  // 43 Image Template
                else
                  Int32  // 44 X Pixels
            else
              if i < 47 then
                if i < 46 then
                  Int32  // 45 Y Pixels
                else
                  Float32  // 46 X Pixel Length
              else
                if i < 48 then
                  Float32  // 47 Y Pixel Length
                else
                  Int32  // 48 Record Length
          else
            if i < 52 then
              if i < 50 then
                Int32  // 49 Total
              else
                if i < 51 then
                  Int32  // 50 Starting Line
                else
                  Int32  // 51 IP Number
            else
              if i < 54 then
                if i < 53 then
                  Float32  // 52 Photomultiplier Ratio
                else
                  Float32  // 53 Fade Time (to start of read)
              else
                if i < 55 then
                  Float32  // 54 Fade Time (to end of read)
                else
                  FixedBytes(10)  // 55 Host Type/Endian
    else
      if i < 84 then
        if i < 70 then
          if i < 63 then
            if i < 59 then
              if i < 57 then
                FixedBytes(10)  // 56 IP Type
              else
                if i < 58 then
                  Int32  // 57 Horizontal Scan
                else
                  Int32  // 58 Vertical Scan
            else
              if i < 61 then
                if i < 60 then
                  Int32  // 59 Front/Back Scan
                else
                  Float32  // 60 Pixel Shift (RAXIS V)
              else
                if i < 62 then
                  Float32  // 61 Even/Odd Intensity Ratio (RAXIS V)
                else
                  Int32  // 62 Magic number
          else
            if i < 66 then
              if i < 64 then
                Int32  // 63 Number of Axes
              else
                if i < 65 then
                  Float32  // 64 Goniometer Vector ax.1.1
                else
                  Float32  // 65 Goniometer Vector ax.1.2
            else
              if i < 68 then
                if i < 67 then
                  Float32  // 66 Goniometer Vector ax.1.3
                else
                  Float32  // 67 Goniometer Vector ax.2.1
              else
                if i < 69 then
                  Float32  // 68 Goniometer Vector ax.2.2
                else
                  Float32  // 69 Goniometer Vector ax.2.3
        else
          if i < 77 then
            if i < 73 then
              if i < 71 then
                Float32  // 70 Goniometer Vector ax.3.1
              else
                if i < 72 then
                  Float32  // 71 Goniometer Vector ax.3.2
                else
                  Float32  // 72 Goniometer Vector ax.3.3
            else
              if i < 75 then
                if i < 74 then
                  Float32  // 73 Goniometer Vector ax.4.1
                else
                  Float32  // 74 Goniometer Vector ax.4.2
              else
                if i < 76 then
                  Float32  // 75 Goniometer Vector ax.4.3
                else
                  Float32  // 76 Goniometer Vector ax.5.1
          else
            if i < 80 then
              if i < 78 then
                Float32  // 77 Goniometer Vector ax.5.2
              else
                if i < 79 then
                  Float32  // 78 Goniometer Vector ax.5.3
                else
                  Float32  // 79 Goniometer Start ax.1
            else
              if i < 82 then
                if i < 81 then
                  Float32  // 80 Goniometer Start ax.2
                else
                  Float32  // 81 Goniometer Start ax.3
              else
                if i < 83 then
                  Float32  // 82 Goniometer Start ax.4
                else
                  Float32  // 83 Goniometer Start ax.5
      else
        if i < 98 then
          if i < 91 then
            if i < 87 then
              if i < 85 then
                Float32  // 84 Goniometer End ax.1
              else
                if i < 86 then
                  Float32  // 85 Goniometer End ax.2
                else
                  Float32  // 86 Goniometer End ax.3
            else
              if i < 89 then
                if i < 88 then
                  Float32  // 87 Goniometer End ax.4
                else
                  Float32  // 88 Goniometer End ax.5
              else
                if i < 90 then
                  Float32  // 89 Goniometer Offset ax.1
                else
                  Float32  // 90 Goniometer Offset ax.2
          else
            if i < 94 then
              if i < 92 then
                Float32  // 91 Goniometer Offset ax.3
              else
                if i < 93 then
                  Float32  // 92 Goniometer Offset ax.4
                else
                  Float32  // 93 Goniometer Offset ax.5
            else
              if i < 96 then
                if i < 95 then
                  Int32  // 94 Goniometer Scan Axis
                else
                  FixedBytes(40)  // 95 Axes Names
              else
                if i < 97 then
                  FixedBytes(16)  // 96 file
                else
                  FixedBytes(20)  // 97 cmnt
        else
          if i < 105 then
            if i < 101 then
              if i < 99 then
                FixedBytes(20)  // 98 smpl
              else
                if i < 100 then
                  Int32  // 99 iext
                else
                  Int32  // 100 reso
            else
              if i < 103 then
                if i < 102 then
                  Int32  // 101 save
                else
                  Int32  // 102 dint
              else
                if i < 104 then
                  Int32  // 103 byte
                else
                  Int32  // 104 init
          else
            if i < 108 then
              if i < 106 then
                Int32  // 105 ipus
              else
                if i < 107 then
                  Int32  // 106 dexp
                else
                  Int32  // 107 expn
            else
              if i < 110 then
                if i < 109 then
                  FixedBytes(20)  // 108 posx
                else
                  FixedBytes(20)  // 109 posy
              else
                if i < 111 then
                  Int32  // 110 xray
                else
                  Remainder  // 111 Header Leftovers
  }

  /** Bytes a field of this kind takes; the length of the remainder is not fixed. */
  function Width(k: Kind): nat
  {
    match k
    case FixedBytes(n) => n
    case Float32 => 4
    case Int32 => 4
    case Remainder => 0
  }

  /** Byte offset of the `i`-th field: the widths of the fields before it. */
  function Offset(i: nat): nat
    requires i <= FieldCount
  {
    if i == 0 then 0 else Offset(i - 1) + Width(KindAt(i - 1))
  }

  /** Bytes taken by fields `a` to `b - 1`. */
  function Span(a: nat, b: nat): nat
    requires a <= b <= FieldCount
    decreases b - a
  {
    if a == b then 0 else Width(KindAt(a)) + Span(a + 1, b)
  }

  /** The offset of a later field is the offset of an earlier one plus the
      widths of the fields between them. */
  lemma {:induction false} OffsetSpan(a: nat, b: nat)
    requires a <= b <= FieldCount
    ensures Offset(b) == Offset(a) + Span(a, b)
    decreases b - a
  {
    if a < b {
      OffsetSpan(a + 1, b);
    }
  }

  /** Offsets only grow along the layout. */
  lemma OffsetMonotone(a: nat, b: nat)
    requires a <= b <= FieldCount
    ensures Offset(a) <= Offset(b)
  {
    OffsetSpan(a, b);
  }

  /** The remainder field comes last; every field before it has a positive width. */
  lemma RemainderIsLast()
    ensures KindAt(FieldCount - 1) == Remainder
    ensures forall i :: 0 <= i < FieldCount - 1 ==> !KindAt(i).Remainder? && Width(KindAt(i)) > 0
  {
  }

  /** The fields the image reader uses: the pixel counts (orderList positions
      44 and 45) are 4-byte integers and the photomultiplier ratio (position 52)
      is a 4-byte float. */
  lemma ReaderKinds()
    ensures KindAt(44) == Int32 && KindAt(45) == Int32 && KindAt(52) == Float32
  {
  }

  /** Field 8 starts at byte 68. */
  lemma LayoutTo8()
    ensures Offset(8) == 68
  {
    assert Span(0, 8) == 68;
    OffsetSpan(0, 8);
  }

  /** Field 16 starts at byte 288. */
  lemma LayoutTo16()
    ensures Offset(16) == 288
  {
    LayoutTo8();
    assert Span(8, 16) == 220;
    OffsetSpan(8, 16);
  }

  /** Field 24 starts at byte 352. */
  lemma LayoutTo24()
    ensures Offset(24) == 352
  {
    LayoutTo16();
    assert Span(16, 24) == 64;
    OffsetSpan(16, 24);
  }

  /** Field 32 starts at byte 520. */
  lemma LayoutTo32()
    ensures Offset(32) == 520
  {
    LayoutTo24();
    assert Span(24, 32) == 168;
    OffsetSpan(24, 32);
  }

  /** Field 40 starts at byte 552. */
  lemma LayoutTo40()
    ensures Offset(40) == 552
  {
    LayoutTo32();
    assert Span(32, 40) == 32;
    OffsetSpan(32, 40);
  }

  /** Field 44 starts at byte 768. */
  lemma LayoutTo44()
    ensures Offset(44) == 768
  {
    LayoutTo40();
    assert Span(40, 44) == 216;
    OffsetSpan(40, 44);
  }

  /** Field 45 starts at byte 772. */
  lemma LayoutTo45()
    ensures Offset(45) == 772
  {
    LayoutTo44();
    assert Span(44, 45) == 4;
    OffsetSpan(44, 45);
  }

  /** Field 52 starts at byte 800. */
  lemma LayoutTo52()
    ensures Offset(52) == 800
  {
    LayoutTo45();
    assert Span(45, 52) == 28;
    OffsetSpan(45, 52);
  }

  /** Field 46 starts at byte 776. */
  lemma LayoutTo46()
    ensures Offset(46) == 776
  {
    LayoutTo45();
    assert Span(45, 46) == 4;
    OffsetSpan(45, 46);
  }

  /** Field 53 starts at byte 804. */
  lemma LayoutTo53()
    ensures Offset(53) == 804
  {
    LayoutTo52();
    assert Span(52, 53) == 4;
    OffsetSpan(52, 53);
  }

  /** Field 60 starts at byte 844. */
  lemma LayoutTo60()
    ensures Offset(60) == 844
  {
    LayoutTo52();
    assert Span(52, 60) == 44;
    OffsetSpan(52, 60);
  }

  /** Field 68 starts at byte 876. */
  lemma LayoutTo68()
    ensures Offset(68) == 876
  {
    LayoutTo60();
    assert Span(60, 68) == 32;
    OffsetSpan(60, 68);
  }

  /** Field 76 starts at byte 908. */
  lemma LayoutTo76()
    ensures Offset(76) == 908
  {
    LayoutTo68();
    assert Span(68, 76) == 32;
    OffsetSpan(68, 76);
  }

  /** Field 84 starts at byte 940. */
  lemma LayoutTo84()
    ensures Offset(84) == 940
  {
    LayoutTo76();
    assert Span(76, 84) == 32;
    OffsetSpan(76, 84);
  }

  /** Field 92 starts at byte 972. */
  lemma LayoutTo92()
    ensures Offset(92) == 972
  {
    LayoutTo84();
    assert Span(84, 92) == 32;
    OffsetSpan(84, 92);
  }

  /** Field 100 starts at byte 1084. */
  lemma LayoutTo100()
    ensures Offset(100) == 1084
  {
    LayoutTo92();
    assert Span(92, 100) == 112;
    OffsetSpan(92, 100);
  }

  /** Field 108 starts at byte 1116. */
  lemma LayoutTo108()
    ensures Offset(108) == 1116
  {
    LayoutTo100();
    assert Span(100, 108) == 32;
    OffsetSpan(100, 108);
  }

  /** Field 111 starts at byte 1160. */
  lemma LayoutTo111()
    ensures Offset(111) == 1160
  {
    LayoutTo108();
    assert Span(108, 111) == 44;
    OffsetSpan(108, 111);
  }
}
