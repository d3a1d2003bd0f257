/** The table-driven CRC-32 of bootloader_message/avb_crc32.c. */
module CrcTable {
  import opened Folding
  import opened Crc32

  const TABLE_0: seq<bv32> := [
    0x00000000, 0x77073096, 0xee0e612c, 0x990951ba, 0x076dc419, 0x706af48f, 0xe963a535, 0x9e6495a3,
    0x0edb8832, 0x79dcb8a4, 0xe0d5e91e, 0x97d2d988, 0x09b64c2b, 0x7eb17cbd, 0xe7b82d07, 0x90bf1d91,
    0x1db71064, 0x6ab020f2, 0xf3b97148, 0x84be41de, 0x1adad47d, 0x6ddde4eb, 0xf4d4b551, 0x83d385c7,
    0x136c9856, 0x646ba8c0, 0xfd62f97a, 0x8a65c9ec, 0x14015c4f, 0x63066cd9, 0xfa0f3d63, 0x8d080df5
  ]

  const TABLE_1: seq<bv32> := [
    0x3b6e20c8, 0x4c69105e, 0xd56041e4, 0xa2677172, 0x3c03e4d1, 0x4b04d447, 0xd20d85fd, 0xa50ab56b,
    0x35b5a8fa, 0x42b2986c, 0xdbbbc9d6, 0xacbcf940, 0x32d86ce3, 0x45df5c75, 0xdcd60dcf, 0xabd13d59,
    0x26d930ac, 0x51de003a, 0xc8d75180, 0xbfd06116, 0x21b4f4b5, 0x56b3c423, 0xcfba9599, 0xb8bda50f,
    0x2802b89e, 0x5f058808, 0xc60cd9b2, 0xb10be924, 0x2f6f7c87, 0x58684c11, 0xc1611dab, 0xb6662d3d
  ]

  const TABLE_2: seq<bv32> := [
    0x76dc4190, 0x01db7106, 0x98d220bc, 0xefd5102a, 0x71b18589, 0x06b6b51f, 0x9fbfe4a5, 0xe8b8d433,
    0x7807c9a2, 0x0f00f934, 0x9609a88e, 0xe10e9818, 0x7f6a0dbb, 0x086d3d2d, 0x91646c97, 0xe6635c01,
    0x6b6b51f4, 0x1c6c6162, 0x856530d8, 0xf262004e, 0x6c0695ed, 0x1b01a57b, 0x8208f4c1, 0xf50fc457,
    0x65b0d9c6, 0x12b7e950, 0x8bbeb8ea, 0xfcb9887c, 0x62dd1ddf, 0x15da2d49, 0x8cd37cf3, 0xfbd44c65
  ]

  const TABLE_3: seq<bv32> := [
    0x4db26158, 0x3ab551ce, 0xa3bc0074, 0xd4bb30e2, 0x4adfa541, 0x3dd895d7, 0xa4d1c46d, 0xd3d6f4fb,
    0x4369e96a, 0x346ed9fc, 0xad678846, 0xda60b8d0, 0x44042d73, 0x33031de5, 0xaa0a4c5f, 0xdd0d7cc9,
    0x5005713c, 0x270241aa, 0xbe0b1010, 0xc90c2086, 0x5768b525, 0x206f85b3, 0xb966d409, 0xce61e49f,
    0x5edef90e, 0x29d9c998, 0xb0d09822, 0xc7d7a8b4, 0x59b33d17, 0x2eb40d81, 0xb7bd5c3b, 0xc0ba6cad
  ]

  const TABLE_4: seq<bv32> := [
    0xedb88320, 0x9abfb3b6, 0x03b6e20c, 0x74b1d29a, 0xead54739, 0x9dd277af, 0x04db2615, 0x73dc1683,
    0xe3630b12, 0x94643b84, 0x0d6d6a3e, 0x7a6a5aa8, 0xe40ecf0b, 0x9309ff9d, 0x0a00ae27, 0x7d079eb1,
    0xf00f9344, 0x8708a3d2, 0x1e01f268, 0x6906c2fe, 0xf762575d, 0x806567cb, 0x196c3671, 0x6e6b06e7,
    0xfed41b76, 0x89d32be0, 0x10da7a5a, 0x67dd4acc, 0xf9b9df6f, 0x8ebeeff9, 0x17b7be43, 0x60b08ed5
  ]

  const TABLE_5: seq<bv32> := [
    0xd6d6a3e8, 0xa1d1937e, 0x38d8c2c4, 0x4fdff252, 0xd1bb67f1, 0xa6bc5767, 0x3fb506dd, 0x48b2364b,
    0xd80d2bda, 0xaf0a1b4c, 0x36034af6, 0x41047a60, 0xdf60efc3, 0xa867df55, 0x316e8eef, 0x4669be79,
    0xcb61b38c, 0xbc66831a, 0x256fd2a0, 0x5268e236, 0xcc0c7795, 0xbb0b4703, 0x220216b9, 0x5505262f,
    0xc5ba3bbe, 0xb2bd0b28, 0x2bb45a92, 0x5cb36a04, 0xc2d7ffa7, 0xb5d0cf31, 0x2cd99e8b, 0x5bdeae1d
  ]

  const TABLE_6: seq<bv32> := [
    0x9b64c2b0, 0xec63f226, 0x756aa39c, 0x026d930a, 0x9c0906a9, 0xeb0e363f, 0x72076785, 0x05005713,
    0x95bf4a82, 0xe2b87a14, 0x7bb12bae, 0x0cb61b38, 0x92d28e9b, 0xe5d5be0d, 0x7cdcefb7, 0x0bdbdf21,
    0x86d3d2d4, 0xf1d4e242, 0x68ddb3f8, 0x1fda836e, 0x81be16cd, 0xf6b9265b, 0x6fb077e1, 0x18b74777,
    0x88085ae6, 0xff0f6a70, 0x66063bca, 0x11010b5c, 0x8f659eff, 0xf862ae69, 0x616bffd3, 0x166ccf45
  ]

  const TABLE_7: seq<bv32> := [
    0xa00ae278, 0xd70dd2ee, 0x4e048354, 0x3903b3c2, 0xa7672661, 0xd06016f7, 0x4969474d, 0x3e6e77db,
    0xaed16a4a, 0xd9d65adc, 0x40df0b66, 0x37d83bf0, 0xa9bcae53, 0xdebb9ec5, 0x47b2cf7f, 0x30b5ffe9,
    0xbdbdf21c, 0xcabac28a, 0x53b39330, 0x24b4a3a6, 0xbad03605, 0xcdd70693, 0x54de5729, 0x23d967bf,
    0xb3667a2e, 0xc4614ab8, 0x5d681b02, 0x2a6f2b94, 0xb40bbe37, 0xc30c8ea1, 0x5a05df1b, 0x2d02ef8d
  ]

  const TABLE: seq<bv32> :=
    TABLE_0 + TABLE_1 + TABLE_2 + TABLE_3 + TABLE_4 + TABLE_5 + TABLE_6 + TABLE_7

  /** The array index a byte selects, from its bits. */
  function LowIndex(x: byte): (i: nat)
    ensures i < 32
  {
    (if x & 0x01 == 0 then 0 else 1) + (if x & 0x02 == 0 then 0 else 2) + (if x & 0x04 == 0 then 0 else 4) +
    (if x & 0x08 == 0 then 0 else 8) + (if x & 0x10 == 0 then 0 else 16)
  }

  function TableIndex(x: byte): (i: nat)
    ensures i < 256
  {
    LowIndex(x) +
    (if x & 0x20 == 0 then 0 else 32) + (if x & 0x40 == 0 then 0 else 64) + (if x & 0x80 == 0 then 0 else 128)
  }

  /** It is the number the byte stands for. */
  lemma IndexIsValue(x: byte)
    ensures TableIndex(x) == x as int
  {}

  function Pick(x: byte, mask: byte, v: bv32): bv32 {
    if x & mask == 0 then 0 else v
  }

  function Sum(p0: bv32, p1: bv32, p2: bv32, p3: bv32, p4: bv32, p5: bv32, p6: bv32, p7: bv32): bv32 {
    Xor(Xor(Xor(p0, p1), Xor(p2, p3)), Xor(Xor(p4, p5), Xor(p6, p7)))
  }

  /** Eight bit steps over a byte, as the exclusive or of one constant per set bit. */
  function ByteColumns(x: byte): bv32 {
    Sum(Pick(x, 0x01, 0x77073096), Pick(x, 0x02, 0xee0e612c), Pick(x, 0x04, 0x076dc419), Pick(x, 0x08, 0x0edb8832),
        Pick(x, 0x10, 0x1db71064), Pick(x, 0x20, 0x3b6e20c8), Pick(x, 0x40, 0x76dc4190), Pick(x, 0x80, 0xedb88320))
  }

  function LowColumns(x: byte): bv32 {
    Xor(Xor(Xor(Pick(x, 0x01, 0x77073096), Pick(x, 0x02, 0xee0e612c)),
            Xor(Pick(x, 0x04, 0x076dc419), Pick(x, 0x08, 0x0edb8832))), Pick(x, 0x10, 0x1db71064))
  }

  lemma HighColumns(x: byte)
    requires x >> 5 == 0
    ensures ByteColumns(x) == LowColumns(x)
  {
    assert x & 0x20 == 0 && x & 0x40 == 0 && x & 0x80 == 0;
    assert forall p: bv32 :: Xor(p, 0) == p;
  }

  lemma FirstRow(x: byte)
    requires x >> 5 == 0
    ensures |TABLE_0| == 32 && TABLE_0[LowIndex(x)] == LowColumns(x)
  {}

  lemma Row0(x: byte)
    requires x >> 5 == 0
    ensures |TABLE_0| == 32 && TABLE_0[LowIndex(x)] == ByteColumns(x)
  {
    FirstRow(x);
    HighColumns(x);
  }

  lemma Row1(x: byte)
    requires x >> 5 == 1
    ensures |TABLE_1| == 32 && TABLE_1[LowIndex(x)] == ByteColumns(x)
  {}

  lemma Row2(x: byte)
    requires x >> 5 == 2
    ensures |TABLE_2| == 32 && TABLE_2[LowIndex(x)] == ByteColumns(x)
  {}

  lemma Row3(x: byte)
    requires x >> 5 == 3
    ensures |TABLE_3| == 32 && TABLE_3[LowIndex(x)] == ByteColumns(x)
  {}

  lemma Row4(x: byte)
    requires x >> 5 == 4
    ensures |TABLE_4| == 32 && TABLE_4[LowIndex(x)] == ByteColumns(x)
  {}

  lemma Row5(x: byte)
    requires x >> 5 == 5
    ensures |TABLE_5| == 32 && TABLE_5[LowIndex(x)] == ByteColumns(x)
  {}

  lemma Row6(x: byte)
    requires x >> 5 == 6
    ensures |TABLE_6| == 32 && TABLE_6[LowIndex(x)] == ByteColumns(x)
  {}

  lemma Row7(x: byte)
    requires x >> 5 == 7
    ensures |TABLE_7| == 32 && TABLE_7[LowIndex(x)] == ByteColumns(x)
  {}

  lemma TableLengths()
    ensures |TABLE_0| == |TABLE_1| == |TABLE_2| == |TABLE_3| == |TABLE_4| == |TABLE_5| == |TABLE_6| == |TABLE_7| == 32
  {
    Row0(0x00); Row1(0x20); Row2(0x40); Row3(0x60); Row4(0x80); Row5(0xA0); Row6(0xC0); Row7(0xE0);
  }

  lemma JoinRows<T>(a: seq<T>, b: seq<T>, c: seq<T>, d: seq<T>, e: seq<T>, f: seq<T>, g: seq<T>, h: seq<T>, i: nat)
    requires |a| == |b| == |c| == |d| == |e| == |f| == |g| == |h| == 32 && i < 32
    ensures var all := a + b + c + d + e + f + g + h;
      && |all| == 256
      && all[i] == a[i] && all[i + 32] == b[i] && all[i + 64] == c[i] && all[i + 96] == d[i]
      && all[i + 128] == e[i] && all[i + 160] == f[i] && all[i + 192] == g[i] && all[i + 224] == h[i]
  {}

  lemma RowOfIndex(x: byte)
    ensures x >> 5 == 0 ==> TableIndex(x) == LowIndex(x)
    ensures x >> 5 == 1 ==> TableIndex(x) == LowIndex(x) + 32
    ensures x >> 5 == 2 ==> TableIndex(x) == LowIndex(x) + 64
    ensures x >> 5 == 3 ==> TableIndex(x) == LowIndex(x) + 96
    ensures x >> 5 == 4 ==> TableIndex(x) == LowIndex(x) + 128
    ensures x >> 5 == 5 ==> TableIndex(x) == LowIndex(x) + 160
    ensures x >> 5 == 6 ==> TableIndex(x) == LowIndex(x) + 192
    ensures x >> 5 == 7 ==> TableIndex(x) == LowIndex(x) + 224
    ensures x >> 5 < 8
  {}

  lemma TableRows(x: byte)
    ensures |TABLE| == 256
    ensures TABLE[TableIndex(x)] == ByteColumns(x)
  {
    TableLengths();
    JoinRows(TABLE_0, TABLE_1, TABLE_2, TABLE_3, TABLE_4, TABLE_5, TABLE_6, TABLE_7, LowIndex(x));
    RowOfIndex(x);
    var row := x >> 5;
    if row == 0 { Row0(x); }
    else if row == 1 { Row1(x); }
    else if row == 2 { Row2(x); }
    else if row == 3 { Row3(x); }
    else if row == 4 { Row4(x); }
    else if row == 5 { Row5(x); }
    else if row == 6 { Row6(x); }
    else { Row7(x); }
  }

  /** The bit steps of the eight one-bit registers. */
  lemma Columns()
    ensures ShiftByte(0) == 0
    ensures ShiftByte(0x01) == 0x77073096 && ShiftByte(0x02) == 0xee0e612c
    ensures ShiftByte(0x04) == 0x076dc419 && ShiftByte(0x08) == 0x0edb8832
    ensures ShiftByte(0x10) == 0x1db71064 && ShiftByte(0x20) == 0x3b6e20c8
    ensures ShiftByte(0x40) == 0x76dc4190 && ShiftByte(0x80) == 0xedb88320
  {
    Unroll(0);
    Unroll(0x01); Unroll(0x02); Unroll(0x04); Unroll(0x08);
    Unroll(0x10); Unroll(0x20); Unroll(0x40); Unroll(0x80);
  }

  /** A linear map of a sum of eight words is the sum of its values. */
  lemma SumOfImages<T(!new)>(f: T -> T, op: (T, T) -> T, p0: T, p1: T, p2: T, p3: T, p4: T, p5: T, p6: T, p7: T)
    requires Preserves(f, op)
    ensures f(op(op(op(p0, p1), op(p2, p3)), op(op(p4, p5), op(p6, p7))))
         == op(op(op(f(p0), f(p1)), op(f(p2), f(p3))), op(op(f(p4), f(p5)), op(f(p6), f(p7))))
  {}

  lemma PickedColumn(x: byte, mask: byte, v: bv32)
    requires ShiftByte(0) == 0
    ensures ShiftByte(Pick(x, mask, v)) == Pick(x, mask, ShiftByte(v))
  {}

  lemma ByteIsSumOfBits(x: byte)
    ensures Lift(x) ==
      Xor(Xor(Xor(Pick(x, 0x01, 0x01), Pick(x, 0x02, 0x02)), Xor(Pick(x, 0x04, 0x04), Pick(x, 0x08, 0x08))),
          Xor(Xor(Pick(x, 0x10, 0x10), Pick(x, 0x20, 0x20)), Xor(Pick(x, 0x40, 0x40), Pick(x, 0x80, 0x80))))
  {}

  lemma ColumnsOfByte(x: byte)
    ensures ShiftByte(Lift(x)) == ByteColumns(x)
  {
    Columns();
    ShiftByteLinear();
    ByteIsSumOfBits(x);
    SumOfImages(ShiftByte, Xor, Pick(x, 0x01, 0x01), Pick(x, 0x02, 0x02), Pick(x, 0x04, 0x04), Pick(x, 0x08, 0x08),
      Pick(x, 0x10, 0x10), Pick(x, 0x20, 0x20), Pick(x, 0x40, 0x40), Pick(x, 0x80, 0x80));
    PickedColumn(x, 0x01, 0x01); PickedColumn(x, 0x02, 0x02); PickedColumn(x, 0x04, 0x04); PickedColumn(x, 0x08, 0x08);
    PickedColumn(x, 0x10, 0x10); PickedColumn(x, 0x20, 0x20); PickedColumn(x, 0x40, 0x40); PickedColumn(x, 0x80, 0x80);
  }

  /** Every one of the 256 table entries is eight bit steps of its own index. */
  lemma TableEntry(x: byte)
    ensures |TABLE| == 256
    ensures TableIndex(x) == x as int && TABLE[TableIndex(x)] == ShiftByte(Lift(x))
  {
    TableRows(x);
    IndexIsValue(x);
    ColumnsOfByte(x);
  }

  function LowByte(x: bv32): byte {
    (x & 0xFF) as bv8
  }

  lemma LowAndHigh(x: bv32)
    ensures Xor(Lift(LowByte(x)), x & 0xFFFF_FF00) == x
  {}

  lemma HighIsClear(x: bv32)
    ensures (x & 0xFFFF_FF00) & 0xFF == 0
  {}

  lemma HighShifted(c: bv32, b: byte, x: bv32)
    requires x == Xor(c, Lift(b))
    ensures (x & 0xFFFF_FF00) >> 8 == c >> 8
  {}

  /** The value the table loop assigns to the register, from the register and the next byte. */
  function Combine(entry: bv32, c: bv32): bv32 {
    Xor(entry, c >> 8)
  }

  lemma HighStep(c: bv32, b: byte, x: bv32) returns (hi: bv32)
    requires x == Xor(c, Lift(b))
    ensures hi == x & 0xFFFF_FF00
    ensures ShiftByte(hi) == c >> 8
  {
    hi := x & 0xFFFF_FF00;
    HighIsClear(x);
    ClearLowByte(hi);
    HighShifted(c, b, x);
  }

  lemma StepParts(c: bv32, lo: bv32, hi: bv32, x: bv32)
    requires Xor(lo, hi) == x && ShiftByte(hi) == c >> 8
    ensures ShiftByte(x) == Combine(ShiftByte(lo), c)
  {
    ShiftByteLinear();
  }

  lemma TakeIsShift(c: bv32, b: byte)
    ensures CRC.Take(c, b) == ShiftByte(Xor(c, Lift(b)))
  {}

  lemma EntryStepAux(c: bv32, b: byte, x: bv32, hi: bv32)
    requires x == Xor(c, Lift(b))
    requires Xor(Lift(LowByte(x)), hi) == x && ShiftByte(hi) == c >> 8
    ensures Combine(ShiftByte(Lift(LowByte(x))), c) == CRC.Take(c, b)
  {
    StepParts(c, Lift(LowByte(x)), hi, x);
    TakeIsShift(c, b);
  }

  /** Mixing in the entry of the low byte does what eight turns of the bit loop do. */
  lemma EntryStep(c: bv32, b: byte, x: bv32)
    requires x == Xor(c, Lift(b))
    ensures Combine(ShiftByte(Lift(LowByte(x))), c) == CRC.Take(c, b)
  {
    var hi := HighStep(c, b, x);
    LowAndHigh(x);
    EntryStepAux(c, b, x, hi);
  }

  /** One turn of the table loop. */
  method TableTurn(before: bv32, b: byte) returns (crc: bv32)
    ensures crc == CRC.Take(before, b)
  {
    var x := LowByte(Xor(before, Lift(b)));
    TableEntry(x);
    EntryStep(before, b, Xor(before, Lift(b)));
    crc := Combine(TABLE[TableIndex(x)], before);
  }

  lemma Complement(c: bv32)
    ensures Xor(c, 0xFFFF_FFFF) == Not(c)
  {}

  /** iavb_crc32 of avb_crc32.c: resumes from an earlier CRC; from 0 it is the bit loop's CRC. */
  method TableCrc(crcIn: bv32, buf: seq<byte>) returns (r: bv32)
    ensures r == Not(Feed(Not(crcIn), buf))
    ensures crcIn == 0 ==> r == Checksum(buf)
  {
    var crc := Xor(crcIn, 0xFFFF_FFFF);
    Complement(crcIn);
    var p := 0;
    var size := |buf|;
    while size > 0
      invariant 0 <= size && p + size == |buf|
      invariant crc == Feed(Not(crcIn), buf[..p])
    {
      assert buf[..p + 1][..p] == buf[..p];
      crc := TableTurn(crc, buf[p]);
      p := p + 1;
      size := size - 1;
    }
    assert buf[..p] == buf;
    Complement(crc);
    r := Xor(crc, 0xFFFF_FFFF);
  }
}
