/**
 * CRC-32 with the reflected polynomial of section 8 of RFC 1952, bit by bit, as ubootenv/ubootenv.c computes it.
 */
module Crc32 {
  import opened Folding

  type byte = bv8

  const POLYNOMIAL: bv32 := 0xEDB88320

  /** One turn of the inner bit loop. */
  function Shift(c: bv32): bv32 {
    if c & 1 == 1 then (c >> 1) ^ POLYNOMIAL else c >> 1
  }

  function ShiftByte(c: bv32): bv32 {
    Iterate(Shift, c, 8)
  }

  function Xor(a: bv32, b: bv32): bv32 {
    a ^ b
  }

  function Lift(b: byte): bv32 {
    b as bv32
  }

  function Up(w: bv32): bv32 {
    w << 8
  }

  const CRC: Register<bv32, byte> := Register(0, Xor, ShiftByte, Lift, Up)

  /** The register after a byte sequence. */
  function Feed(c: bv32, s: seq<byte>): bv32 {
    Fold(CRC.Take, c, s)
  }

  function Not(c: bv32): bv32 {
    !c
  }

  /** The CRC of a message: all-ones preset, complemented result. */
  function Checksum(s: seq<byte>): bv32 {
    Not(Feed(0xFFFF_FFFF, s))
  }

  // ---------- bit facts

  lemma XorIs(a: bv32, b: bv32)
    ensures Xor(a, b) == a ^ b
  {}

  lemma LowBit(a: bv32, b: bv32)
    ensures (a ^ b) & 1 == 1 <==> (a & 1 == 1) != (b & 1 == 1)
  {}

  lemma ShiftSums(a: bv32, b: bv32, p: bv32)
    ensures (a ^ b) >> 1 == (a >> 1) ^ (b >> 1)
    ensures (a ^ b) >> 1 == ((a >> 1) ^ p) ^ ((b >> 1) ^ p)
    ensures ((a ^ b) >> 1) ^ p == ((a >> 1) ^ p) ^ (b >> 1)
    ensures ((a ^ b) >> 1) ^ p == (a >> 1) ^ ((b >> 1) ^ p)
  {}

  lemma ShiftOdd(c: bv32)
    requires c & 1 == 1
    ensures Shift(c) == (c >> 1) ^ POLYNOMIAL
  {}

  lemma ShiftEven(c: bv32)
    requires c & 1 != 1
    ensures Shift(c) == c >> 1
  {}

  lemma ShiftOfXor(a: bv32, b: bv32)
    ensures Shift(a ^ b) == Shift(a) ^ Shift(b)
  {
    LowBit(a, b);
    ShiftSums(a, b, POLYNOMIAL);
    if a & 1 == 1 {
      ShiftOdd(a);
      if b & 1 == 1 { ShiftOdd(b); ShiftEven(a ^ b); } else { ShiftEven(b); ShiftOdd(a ^ b); }
    } else {
      ShiftEven(a);
      if b & 1 == 1 { ShiftOdd(b); ShiftOdd(a ^ b); } else { ShiftEven(b); ShiftEven(a ^ b); }
    }
  }

  lemma ShiftLinear(a: bv32, b: bv32)
    ensures Shift(Xor(a, b)) == Xor(Shift(a), Shift(b))
  {
    XorIs(a, b);
    XorIs(Shift(a), Shift(b));
    ShiftOfXor(a, b);
  }

  lemma ShiftPreservesXor()
    ensures Preserves(Shift, Xor)
  {
    forall x, y ensures Shift(Xor(x, y)) == Xor(Shift(x), Shift(y)) {
      ShiftLinear(x, y);
    }
  }

  /** Eight bit steps are linear over exclusive or. */
  lemma ShiftByteLinear()
    ensures Preserves(ShiftByte, Xor)
  {
    ShiftPreservesXor();
    forall x, y ensures ShiftByte(Xor(x, y)) == Xor(ShiftByte(x), ShiftByte(y)) {
      IteratePreserves(Shift, Xor, x, y, 8);
    }
  }

  lemma ShiftInjective(a: bv32, b: bv32)
    requires Shift(a) == Shift(b)
    ensures a == b
  {}

  /** Eight bit steps are injective: the polynomial's top bit tells which bit was shifted out. */
  lemma ShiftByteInjective()
    ensures Injective(ShiftByte)
  {
    forall x, y | Shift(x) == Shift(y) ensures x == y {
      ShiftInjective(x, y);
    }
    forall x, y | ShiftByte(x) == ShiftByte(y) ensures x == y {
      IterateInjective(Shift, x, y, 8);
    }
  }

  lemma Unroll(c: bv32)
    ensures ShiftByte(c) == Shift(Shift(Shift(Shift(Shift(Shift(Shift(Shift(c))))))))
  {
    var d := Shift(Shift(Shift(Shift(c))));
    EightTurns(Shift, c, Shift(c), Shift(Shift(c)), Shift(Shift(Shift(c))), d,
      Shift(d), Shift(Shift(d)), Shift(Shift(Shift(d))), Shift(Shift(Shift(Shift(d)))));
  }

  lemma ClearTurn0(c: bv32)
    requires c & 0xFF == 0
    ensures Shift(c) == c >> 1
  {}

  lemma ClearTurn1(c: bv32)
    requires c & 0xFF == 0
    ensures Shift(c >> 1) == c >> 2
  {}

  lemma ClearTurn2(c: bv32)
    requires c & 0xFF == 0
    ensures Shift(c >> 2) == c >> 3
  {}

  lemma ClearTurn3(c: bv32)
    requires c & 0xFF == 0
    ensures Shift(c >> 3) == c >> 4
  {}

  lemma ClearTurn4(c: bv32)
    requires c & 0xFF == 0
    ensures Shift(c >> 4) == c >> 5
  {}

  lemma ClearTurn5(c: bv32)
    requires c & 0xFF == 0
    ensures Shift(c >> 5) == c >> 6
  {}

  lemma ClearTurn6(c: bv32)
    requires c & 0xFF == 0
    ensures Shift(c >> 6) == c >> 7
  {}

  lemma ClearTurn7(c: bv32)
    requires c & 0xFF == 0
    ensures Shift(c >> 7) == c >> 8
  {}

  /** Eight bit steps over a register whose low byte is clear are a plain shift. */
  lemma ClearLowByte(c: bv32)
    requires c & 0xFF == 0
    ensures ShiftByte(c) == c >> 8
  {
    ClearTurn0(c); ClearTurn1(c); ClearTurn2(c); ClearTurn3(c);
    ClearTurn4(c); ClearTurn5(c); ClearTurn6(c); ClearTurn7(c);
    EightTurns(Shift, c, c >> 1, c >> 2, c >> 3, c >> 4, c >> 5, c >> 6, c >> 7, c >> 8);
  }

  lemma XorZero(a: bv32)
    ensures Xor(a, 0) == a
  {}

  lemma XorRaw(a: bv32, b: bv32, c: bv32)
    ensures a ^ (b ^ c) == (a ^ b) ^ c
    ensures a ^ (a ^ b) == b
    ensures (a ^ c) ^ c == a
  {}

  lemma XorNestedRight(a: bv32, b: bv32, c: bv32)
    ensures Xor(a, Xor(b, c)) == a ^ b ^ c
  {}

  lemma XorNestedLeft(a: bv32, b: bv32, c: bv32)
    ensures Xor(Xor(a, b), c) == a ^ b ^ c
  {}

  lemma XorAssociative(a: bv32, b: bv32, c: bv32)
    ensures Xor(a, Xor(b, c)) == Xor(Xor(a, b), c)
  {
    XorNestedRight(a, b, c);
    XorNestedLeft(a, b, c);
  }

  lemma XorCancelLeft(a: bv32, b: bv32, c: bv32)
    requires Xor(a, b) == Xor(a, c)
    ensures b == c
  {
    XorRaw(a, b, 0);
    XorRaw(a, c, 0);
  }

  lemma XorCancelRight(a: bv32, b: bv32, c: bv32)
    requires Xor(a, c) == Xor(b, c)
    ensures a == b
  {
    XorRaw(a, 0, c);
    XorRaw(b, 0, c);
  }

  lemma PackTop(b: byte, w: bv32)
    requires w & 0xFFFF_0000 == 0
    ensures Xor(Lift(b), Up(w)) & 0xFF00_0000 == 0
  {}

  lemma PackMiddle(b: byte, w: bv32)
    requires w & 0xFFFF_FF00 == 0
    ensures Xor(Lift(b), Up(w)) & 0xFFFF_0000 == 0
  {}

  lemma PackBottom(b: byte)
    ensures Xor(Lift(b), Up(0)) & 0xFFFF_FF00 == 0
  {}

  lemma PackOne(s: seq<byte>)
    requires |s| <= 1
    ensures CRC.Pack(s) & 0xFFFF_FF00 == 0
  {
    if s != [] {
      PackBottom(s[0]);
    }
  }

  lemma PackTwo(s: seq<byte>)
    requires |s| <= 2
    ensures CRC.Pack(s) & 0xFFFF_0000 == 0
  {
    if s != [] {
      PackOne(s[1..]);
      PackMiddle(s[0], CRC.Pack(s[1..]));
    }
  }

  lemma PackThree(s: seq<byte>)
    requires |s| <= 3
    ensures CRC.Pack(s) & 0xFF00_0000 == 0
  {
    if s != [] {
      PackTwo(s[1..]);
      PackTop(s[0], CRC.Pack(s[1..]));
    }
  }

  lemma PackStepLow(b: byte, w: bv32)
    ensures Xor(Lift(b), Up(w)) & 0xFF == b as bv32
  {}

  lemma PackStepHigh(b: byte, w: bv32)
    requires w & 0xFF00_0000 == 0
    ensures Xor(Lift(b), Up(w)) >> 8 == w
  {}

  lemma ByteFits(a: byte, b: byte)
    requires a as bv32 == b as bv32
    ensures a == b
  {}

  lemma PackStepInjective(a: byte, b: byte, v: bv32, w: bv32)
    requires v & 0xFF00_0000 == 0 && w & 0xFF00_0000 == 0
    requires Xor(Lift(a), Up(v)) == Xor(Lift(b), Up(w))
    ensures a == b && v == w
  {
    PackStepLow(a, v);
    PackStepLow(b, w);
    ByteFits(a, b);
    PackStepHigh(a, v);
    PackStepHigh(b, w);
  }

  lemma {:induction false} PackInjective(s: seq<byte>, t: seq<byte>)
    requires |s| == |t| <= 4
    requires CRC.Pack(s) == CRC.Pack(t)
    ensures s == t
  {
    if s != [] {
      PackThree(s[1..]);
      PackThree(t[1..]);
      PackStepInjective(s[0], t[0], CRC.Pack(s[1..]), CRC.Pack(t[1..]));
      PackInjective(s[1..], t[1..]);
      assert s == [s[0]] + s[1..] && t == [t[0]] + t[1..];
    }
  }

  lemma UpDown(w: bv32)
    requires w & 0xFF00_0000 == 0
    ensures Up(w) & 0xFF == 0
    ensures Up(w) >> 8 == w
  {}

  lemma PackedRoom(s: seq<byte>)
    requires |s| < 4
    ensures ShiftByte(Up(CRC.Pack(s))) == CRC.Pack(s)
  {
    PackThree(s);
    UpDown(CRC.Pack(s));
    ClearLowByte(Up(CRC.Pack(s)));
  }

  lemma RegisterLaws()
    ensures Lawful(CRC, 4)
  {
    ShiftByteInjective();
    ShiftByteLinear();
    forall c ensures Xor(c, 0) == c {
      XorZero(c);
    }
    forall c, d, e ensures Xor(c, Xor(d, e)) == Xor(Xor(c, d), e) {
      XorAssociative(c, d, e);
    }
    forall c, d, e | Xor(c, d) == Xor(c, e) ensures d == e {
      XorCancelLeft(c, d, e);
    }
    forall c, d, e | Xor(c, e) == Xor(d, e) ensures c == d {
      XorCancelRight(c, d, e);
    }
    forall s: seq<byte> | |s| < 4 ensures ShiftByte(Up(CRC.Pack(s))) == CRC.Pack(s) {
      PackedRoom(s);
    }
    forall s: seq<byte>, t: seq<byte> | |s| == |t| <= 4 && CRC.Pack(s) == CRC.Pack(t) ensures s == t {
      PackInjective(s, t);
    }
  }

  // ---------- main results

  lemma NotNot(c: bv32)
    ensures Not(Not(c)) == c
  {}

  /**
   * Two messages of equal length that agree except inside four consecutive bytes have the same CRC only when
   * they are the same message.
   */
  lemma BurstDetected(a: seq<byte>, b: seq<byte>, from: nat)
    requires AgreeOutside(a, b, from, from + 4)
    ensures Checksum(a) == Checksum(b) <==> a == b
  {
    if Checksum(a) == Checksum(b) {
      NotNot(Feed(0xFFFF_FFFF, a));
      NotNot(Feed(0xFFFF_FFFF, b));
      RegisterLaws();
      BurstDistinguished(CRC, 4, 0xFFFF_FFFF, a, b, from);
    }
  }

  lemma FoldFive<R, B>(f: (R, B) -> R, c: R, b0: B, b1: B, b2: B, b3: B, b4: B)
    ensures Fold(f, c, [b0, b1, b2, b3, b4]) == f(f(f(f(f(c, b0), b1), b2), b3), b4)
  {
    assert [b0, b1, b2, b3, b4][..4] == [b0, b1, b2, b3] && [b0, b1, b2, b3][..3] == [b0, b1, b2];
    assert [b0, b1, b2][..2] == [b0, b1] && [b0, b1][..1] == [b0] && [b0][..0] == [];
    assert Fold(f, c, [b0]) == f(c, b0);
    assert Fold(f, c, [b0, b1]) == f(Fold(f, c, [b0]), b1);
    assert Fold(f, c, [b0, b1, b2]) == f(Fold(f, c, [b0, b1]), b2);
    assert Fold(f, c, [b0, b1, b2, b3]) == f(Fold(f, c, [b0, b1, b2]), b3);
  }

  lemma ZeroBytes()
    ensures Feed(0xFFFF_FFFF, [0x00, 0x00, 0x00, 0x00, 0x00]) == 0x39dd08e2
  {
    FoldFive(CRC.Take, 0xFFFF_FFFF, 0x00, 0x00, 0x00, 0x00, 0x00);
    Unroll(0xffffffff ^ 0x00); assert CRC.Take(0xffffffff, 0x00) == 0x2dfd1072;
    Unroll(0x2dfd1072 ^ 0x00); assert CRC.Take(0x2dfd1072, 0x00) == 0xbe26ed00;
    Unroll(0xbe26ed00 ^ 0x00); assert CRC.Take(0xbe26ed00, 0x00) == 0x00be26ed;
    Unroll(0x00be26ed ^ 0x00); assert CRC.Take(0x00be26ed, 0x00) == 0xdebb20e3;
    Unroll(0xdebb20e3 ^ 0x00); assert CRC.Take(0xdebb20e3, 0x00) == 0x39dd08e2;
  }

  lemma PolynomialBytes()
    ensures Feed(0xFFFF_FFFF, [0x41, 0x06, 0x71, 0xdb, 0x01]) == 0x39dd08e2
  {
    FoldFive(CRC.Take, 0xFFFF_FFFF, 0x41, 0x06, 0x71, 0xdb, 0x01);
    Unroll(0xffffffff ^ 0x41); assert CRC.Take(0xffffffff, 0x41) == 0x2c266174;
    Unroll(0x2c266174 ^ 0x06); assert CRC.Take(0x2c266174, 0x06) == 0xbe273671;
    Unroll(0xbe273671 ^ 0x71); assert CRC.Take(0xbe273671, 0x71) == 0x00be2736;
    Unroll(0x00be2736 ^ 0xdb); assert CRC.Take(0x00be2736, 0xdb) == 0xdebb20e2;
    Unroll(0xdebb20e2 ^ 0x01); assert CRC.Take(0xdebb20e2, 0x01) == 0x39dd08e2;
  }

  /** Four bytes is the exact bound: these five-byte messages differ and have the same CRC. */
  lemma FiveByteBurstMissed()
    ensures var a: seq<byte>, b: seq<byte> := [0x00, 0x00, 0x00, 0x00, 0x00], [0x41, 0x06, 0x71, 0xdb, 0x01];
      a != b && AgreeOutside(a, b, 0, 5) && Checksum(a) == Checksum(b) == 0xc622f71d
  {
    ZeroBytes();
    PolynomialBytes();
    var a: seq<byte>, b: seq<byte> := [0x00, 0x00, 0x00, 0x00, 0x00], [0x41, 0x06, 0x71, 0xdb, 0x01];
    assert a[4] != b[4];
  }

  /** Resuming from the CRC of a first part gives the CRC of the whole. */
  lemma ResumedChecksum(s: seq<byte>, t: seq<byte>)
    ensures Not(Feed(Not(Checksum(s)), t)) == Checksum(s + t)
  {
    NotNot(Feed(0xFFFF_FFFF, s));
    FoldConcat(CRC.Take, 0xFFFF_FFFF, s, t);
  }

  // ---------- the bit loop

  method ByteLoop(before: bv32, b: byte) returns (crc: bv32)
    ensures crc == CRC.Take(before, b)
  {
    crc := Xor(before, Lift(b));
    var j := 0;
    while j < 8
      invariant 0 <= j <= 8
      invariant Iterate(Shift, crc, 8 - j) == CRC.Take(before, b)
    {
      crc := if crc & 1 == 1 then (crc >> 1) ^ POLYNOMIAL else crc >> 1;
      j := j + 1;
    }
  }

  /** crc32 of ubootenv.c, plain char taken as unsigned. */
  method BitwiseCrc(buffer: seq<byte>) returns (r: bv32)
    ensures r == Checksum(buffer)
  {
    var crc: bv32 := 0xFFFF_FFFF;
    var i := 0;
    while i < |buffer|
      invariant 0 <= i <= |buffer|
      invariant crc == Feed(0xFFFF_FFFF, buffer[..i])
    {
      assert buffer[..i + 1][..i] == buffer[..i];
      crc := ByteLoop(crc, buffer[i]);
      i := i + 1;
    }
    assert buffer[..i] == buffer;
    r := Not(crc);
  }
}
