/** The argument marshaller of the socket IPC: big-endian numbers, length-prefixed strings and buffers, driven by a
    format that lists the type of every argument. */
module IpcMarshal {

  import opened Wrappers
  import opened FormatWalk

  // ---------- types and arguments

  /** How a type is packed: a number of that many bytes, a string, a buffer with its length, or not at all. Both sides
      copy the bytes of a number as they are; the sign shows when the receiver reads its variable. */
  datatype Kind = Number(width: nat, signed: bool) | Text | Buffer | Unknown

  type Type = k: Kind | k.Number? ==> 0 < k.width <= 8 witness Text

  /** The table of built-in types: i8 u8 i16 u16 i32 u32 i64 u64 str ptr; every other code is a custom type. */
  function TypeOf(code: int): Type {
    if code == 1 || code == 2 then Number(1, code == 1)
    else if code == 3 || code == 4 then Number(2, code == 3)
    else if code == 5 || code == 6 then Number(4, code == 5)
    else if code == 7 || code == 8 then Number(8, code == 7)
    else if code == 9 then Text
    else if code == 10 then Buffer
    else Unknown
  }

  /** A string or buffer is None when the pointer is NULL. A buffer passed with a negative length is BadPtr. */
  datatype Arg =
    | Num(val: int)
    | Str(text: Option<seq<byte>>)
    | Ptr(data: Option<seq<byte>>)
    | BadPtr

  predicate NulFree(s: seq<byte>) {
    forall i :: 0 <= i < |s| ==> s[i] != 0
  }

  /** Lengths of existing objects, with room for the prefix, are int32 values. */
  predicate ObjectSize(n: nat) {
    n + 4 < 0x8000_0000
  }

  /** What a caller must pass for a type; a custom type takes nothing here. */
  predicate Matches(kind: Type, arg: Arg) {
    match kind
    case Number(_, _) => arg.Num?
    case Text => arg.Str? && (arg.text.Some? ==> NulFree(arg.text.value) && ObjectSize(|arg.text.value| + 1))
    case Buffer => (arg.Ptr? && (arg.data.Some? ==> ObjectSize(|arg.data.value|))) || arg.BadPtr?
    case Unknown => arg.BadPtr?
  }

  /** One entry of the format with the argument passed for it. */
  datatype Pass = Pass(kind: Type, arg: Arg)

  type Passed = p: Pass | Matches(p.kind, p.arg) witness Pass(Unknown, BadPtr)

  /** The format that describes these arguments. */
  ghost predicate Describes(fmt: seq<Type>, ps: seq<Passed>) {
    |fmt| == |ps| && forall i :: 0 <= i < |ps| ==> fmt[i] == ps[i].kind
  }

  // ---------- numbers

  function BigEndian(val: int, n: nat): (s: seq<byte>)
    ensures |s| == n
    decreases n, val
  {
    if n == 0 then [] else BigEndian(val / 256, n - 1) + [val % 256]
  }

  /** The number that n bytes of memory spell, the highest first. */
  function ReadNumber(mem: seq<byte>, pos: nat, n: nat): nat
    requires pos + n <= |mem|
  {
    if n == 0 then 0 else ReadNumber(mem, pos, n - 1) * 256 + mem[pos + n - 1]
  }

  /** 256^n, for the widths that occur and those between. */
  function Modulus(n: nat): nat {
    if n == 1 then 0x100
    else if n == 2 then 0x1_0000
    else if n == 3 then 0x100_0000
    else if n == 4 then 0x1_0000_0000
    else if n == 5 then 0x100_0000_0000
    else if n == 6 then 0x1_0000_0000_0000
    else if n == 7 then 0x100_0000_0000_0000
    else if n == 8 then 0x1_0000_0000_0000_0000
    else 1
  }

  /** The number that the n lowest bytes of val make. */
  function Low(val: int, n: nat): nat
    decreases n, val
  {
    if n == 0 then 0 else Low(val / 256, n - 1) * 256 + val % 256
  }

  lemma Mod2(v: int)
    ensures v % 0x1_0000 == v / 256 % 0x100 * 256 + v % 256
  {
  }

  lemma Mod3(v: int)
    ensures v % 0x100_0000 == v / 256 % 0x1_0000 * 256 + v % 256
  {
  }

  lemma Mod4(v: int)
    ensures v % 0x1_0000_0000 == v / 256 % 0x100_0000 * 256 + v % 256
  {
  }

  lemma Mod5(v: int)
    ensures v % 0x100_0000_0000 == v / 256 % 0x1_0000_0000 * 256 + v % 256
  {
  }

  lemma Mod6(v: int)
    ensures v % 0x1_0000_0000_0000 == v / 256 % 0x100_0000_0000 * 256 + v % 256
  {
  }

  lemma Mod7(v: int)
    ensures v % 0x100_0000_0000_0000 == v / 256 % 0x1_0000_0000_0000 * 256 + v % 256
  {
  }

  lemma Mod8(v: int)
    ensures v % 0x1_0000_0000_0000_0000 == v / 256 % 0x100_0000_0000_0000 * 256 + v % 256
  {
  }

  /** It is val modulo 256^n, for every width that occurs. */
  lemma {:induction false} LowIsMod(val: int, n: nat)
    requires n <= 8
    ensures Low(val, n) == val % Modulus(n)
    decreases n, val
  {
    if n == 1 {
      assert Low(val / 256, 0) == 0;
    } else if n > 1 {
      LowIsMod(val / 256, n - 1);
      ModStep(val, n);
    }
  }

  lemma ModStep(val: int, n: nat)
    requires 1 < n <= 8
    ensures val % Modulus(n) == val / 256 % Modulus(n - 1) * 256 + val % 256
  {
    if n == 2 {
      Mod2(val);
    } else if n == 3 {
      Mod3(val);
    } else if n == 4 {
      Mod4(val);
    } else if n == 5 {
      Mod5(val);
    } else if n == 6 {
      Mod6(val);
    } else if n == 7 {
      Mod7(val);
    } else if n == 8 {
      Mod8(val);
    }
  }

  /** The number a variable of n bytes holds, in two's complement when it is signed. */
  function Interpret(raw: nat, n: nat, signed: bool): int {
    if signed && raw >= Modulus(n) / 2 then raw - Modulus(n) else raw
  }

  /** The values of a number type. */
  predicate InRange(val: int, n: nat, signed: bool) {
    if signed then -(Modulus(n) / 2) <= val < Modulus(n) / 2 else 0 <= val < Modulus(n)
  }

  /** Every value has one counterpart modulo 256^n in the range of the type, and the variable holds it. */
  lemma InterpretedValue(val: int, n: nat, signed: bool)
    requires 0 < n <= 8
    ensures var r := Interpret(Low(val, n), n, signed);
      InRange(r, n, signed) && r % Modulus(n) == val % Modulus(n)
  {
    LowIsMod(val, n);
    ResidueInterpreted(val, n, signed);
  }

  lemma ResidueInterpreted(val: int, n: nat, signed: bool)
    requires 0 < n <= 8
    ensures var r := Interpret(val % Modulus(n), n, signed);
      InRange(r, n, signed) && r % Modulus(n) == val % Modulus(n)
  {
    var r := val % Modulus(n);
    DivisionUnique(r - Modulus(n), -1, r, Modulus(n));
    DivisionUnique(r, 0, r, Modulus(n));
    assert Modulus(n) % 2 == 0;
  }

  lemma DivisionUnique(a: int, q: int, r: int, m: int)
    requires a == q * m + r && 0 <= r < m
    ensures a / m == q && a % m == r
  {
    var d := a / m - q;
    assert d * m == r - a % m;
    assert d >= 1 ==> d * m >= m;
    assert d <= -1 ==> d * m <= -m;
  }

  lemma InRangeSame(a: int, b: int, n: nat, signed: bool)
    requires 0 < n <= 8 && InRange(a, n, signed) && InRange(b, n, signed) && a % Modulus(n) == b % Modulus(n)
    ensures a == b
  {
    var m: int := Modulus(n);
    var d := a / m - b / m;
    assert d * m == a - b;
    assert d >= 1 ==> d * m >= m;
    assert d <= -1 ==> d * m <= -m;
  }

  lemma InterpretedSame(val: int, n: nat, signed: bool)
    requires 0 < n <= 8
    ensures Interpret(Low(val, n), n, signed) == val <==> InRange(val, n, signed)
  {
    InterpretedValue(val, n, signed);
    if InRange(val, n, signed) {
      InRangeSame(Interpret(Low(val, n), n, signed), val, n, signed);
    }
  }

  /** Writing a number and reading it back, wherever it stands, gives the number modulo 256^n. */
  lemma {:induction false} NumberRoundTrip(val: int, n: nat, mem: seq<byte>, pos: nat)
    requires n <= 8 && StandsAt(BigEndian(val, n), mem, pos)
    ensures ReadNumber(mem, pos, n) == Low(val, n)
    decreases n, val
  {
    if n > 0 {
      StandsApart(BigEndian(val / 256, n - 1), [val % 256], mem, pos);
      NumberRoundTrip(val / 256, n - 1, mem, pos);
      assert mem[pos + n - 1] == [val % 256][0];
    }
  }

  // ---------- packing

  /** The length a string or buffer is sent with. */
  function SentLength(arg: Arg): int
    requires !arg.Num?
  {
    match arg
    case Str(text) => if text.Some? then |text.value| + 1 else 0
    case Ptr(data) => if data.Some? then |data.value| else 0
    case BadPtr => -1
  }

  function Payload(arg: Arg): (r: seq<byte>)
    ensures !arg.Num? && !arg.BadPtr? ==> |r| == SentLength(arg)
  {
    match arg
    case Str(text) => if text.Some? then text.value + [0] else []
    case Ptr(data) => if data.Some? then data.value else []
    case _ => []
  }

  /** What one argument becomes, if there is room for it. */
  function PackItem(p: Passed, len: int): (r: Option<seq<byte>>)
    ensures r.Some? ==> 0 < |r.value| <= len
  {
    match p.kind
    case Number(width, _) => if len < width then None else Some(BigEndian(p.arg.val, width))
    case Unknown => None
    case _ =>
      var tlen := SentLength(p.arg);
      if tlen < 0 || len < tlen + 4 then None else Some(BigEndian(tlen, 4) + Payload(p.arg))
  }

  /** Packs from argument i on, and stops at the first that is refused; the caller only learns how many bytes were
      written. */
  function Pack(ps: seq<Passed>, i: nat, len: int): seq<byte>
    decreases |ps| - i
  {
    if i >= |ps| then []
    else
      match PackItem(ps[i], len)
      case None => []
      case Some(bytes) => bytes + Pack(ps, i + 1, len - |bytes|)
  }

  // ---------- unpacking

  /** The string at a position: everything up to the first NUL. */
  function CString(mem: seq<byte>, pos: nat): seq<byte>
    decreases |mem| - pos
  {
    if pos >= |mem| || mem[pos] == 0 then [] else [mem[pos]] + CString(mem, pos + 1)
  }

  /** The n bytes at a position. */
  function Block(mem: seq<byte>, pos: nat, n: nat): seq<byte>
    requires pos + n <= |mem|
    decreases n
  {
    if n == 0 then [] else [mem[pos]] + Block(mem, pos + 1, n - 1)
  }

  function Signed32(n: nat): int {
    if n < 0x8000_0000 then n else n - 0x1_0000_0000
  }

  /** Reads at a position of the memory; len is how much of it from there on was received. A length is refused only when
      it is negative and too large as well, so that other negative lengths are taken. */
  function UnpackItem(kind: Type, mem: seq<byte>, pos: nat, len: int): (r: Item<Arg>)
    ensures r.Got? ==> pos + r.used <= |mem|
  {
    match kind
    case Number(width, signed) =>
      if len < width then Refused
      else if pos + width > |mem| then Outside
      else Got(Num(Interpret(ReadNumber(mem, pos, width), width, signed)), width)
    case Unknown => Refused
    case _ =>
      if pos + 4 > |mem| then Outside
      else
        var tlen := Signed32(ReadNumber(mem, pos, 4));
        if tlen < 0 && len < tlen + 4 then Refused
        else if pos + 4 + tlen > |mem| then Outside
        else Got(PointerAt(kind, mem, pos + 4, tlen), tlen + 4)
  }

  /** A string is only a pointer, and ends at its NUL; a buffer comes with its length. */
  function PointerAt(kind: Type, mem: seq<byte>, pos: nat, tlen: int): Arg
    requires pos + tlen <= |mem|
  {
    if kind.Text? then Str(if tlen == 0 then None else Some(CString(mem, pos)))
    else if tlen < 0 then BadPtr
    else Ptr(if tlen == 0 then None else Some(Block(mem, pos, tlen)))
  }

  /** The table's entries, reading from this memory. */
  function Table(mem: seq<byte>): Reader<Type, Arg> {
    (kind: Type, pos: nat, len: int) => UnpackItem(kind, mem, pos, len)
  }

  function Unpack(fmt: seq<Type>, mem: seq<byte>, pos: nat, len: int): Unpacked<Arg> {
    Walk(Table(mem), fmt, 0, pos, len)
  }

  // ---------- negative lengths

  /** Four bytes shifted and combined. */
  function FourDigits(a: nat, b: nat, c: nat, d: nat): nat {
    a * 0x100_0000 + b * 0x1_0000 + c * 0x100 + d
  }

  lemma FourBytes(mem: seq<byte>, pos: nat)
    requires pos + 4 <= |mem|
    ensures ReadNumber(mem, pos, 4) == FourDigits(mem[pos], mem[pos + 1], mem[pos + 2], mem[pos + 3])
  {
    assert ReadNumber(mem, pos, 1) == mem[pos];
    assert ReadNumber(mem, pos, 2) == FourDigits(0, 0, mem[pos], mem[pos + 1]);
    assert ReadNumber(mem, pos, 3) == FourDigits(0, mem[pos], mem[pos + 1], mem[pos + 2]);
  }

  /** Exactly when a negative length passes for one: a pointer behind it is stored, and the loop goes on fewer bytes
      further than the length field has. */
  lemma NegativeLength(kind: Type, mem: seq<byte>, pos: nat, len: int)
    requires (kind.Text? || kind.Buffer?) && pos + 4 <= |mem| && Signed32(ReadNumber(mem, pos, 4)) < 0
    ensures var t, r := Signed32(ReadNumber(mem, pos, 4)), UnpackItem(kind, mem, pos, len);
      && (r.Got? && r.used > 0 <==> -4 < t <= len - 4)
      && (r.Got? ==> r.used == t + 4 && r.arg == if kind.Text? then Str(Some(CString(mem, pos + 4))) else BadPtr)
      && (!r.Got? <==> r.Refused?) && (r.Refused? <==> t > len - 4)
  {
  }

  /** Four bytes of 0xFF are the length -1, and three of them are taken. */
  lemma MinusOneTaken(mem: seq<byte>, pos: nat, len: int)
    requires pos + 4 <= |mem| && len >= 3
    requires mem[pos] == mem[pos + 1] == mem[pos + 2] == mem[pos + 3] == 0xFF
    ensures Unpack([Buffer], mem, pos, len) == Unpacked(Cons(BadPtr, Nil), 3, false)
  {
    FourBytes(mem, pos);
    NegativeLength(Buffer, mem, pos, len);
    var fmt: seq<Type> := [Buffer];
    WalkOn(Table(mem), fmt, 0, pos, len, BadPtr, 3);
  }

  // ---------- what a reader gets back

  /** The value that arrives: of a number the value modulo 256^n that its type holds, and for an empty buffer NULL. */
  function Received(p: Passed): Arg {
    if p.arg.Num? then Num(Interpret(Low(p.arg.val, p.kind.width), p.kind.width, p.kind.signed))
    else if p.arg == Ptr(Some([])) then Ptr(None)
    else p.arg
  }

  /** The value that was sent. */
  function Sent(p: Passed): Arg {
    p.arg
  }

  function AllReceived(ps: seq<Passed>): ArgList<Arg> {
    Given(Received, ps, 0)
  }

  function Args(ps: seq<Passed>): ArgList<Arg> {
    Given(Sent, ps, 0)
  }

  /** The bytes of an argument, whatever the room. */
  function Encode(p: Passed): seq<byte> {
    match p.kind
    case Number(width, _) => BigEndian(p.arg.val, width)
    case _ => BigEndian(|Payload(p.arg)|, 4) + Payload(p.arg)
  }

  /** The bytes of arguments i to k, one behind the other. */
  function EncodeAll(ps: seq<Passed>, i: nat, k: nat): seq<byte>
    requires k <= |ps|
  {
    Joined(Encode, ps, i, k)
  }

  function Bytes(ps: seq<Passed>): seq<byte> {
    EncodeAll(ps, 0, |ps|)
  }

  /** Whether an argument can be sent at all. */
  predicate Sendable(p: Passed) {
    !p.kind.Unknown? && !p.arg.BadPtr?
  }

  predicate AllSendable(ps: seq<Passed>, i: nat, k: nat)
    requires k <= |ps|
  {
    forall j :: i <= j < k ==> Sendable(ps[j])
  }

  /** An argument is packed exactly when it can be sent and there is room. */
  lemma PackItemExactly(p: Passed, len: int)
    ensures PackItem(p, len) == if Sendable(p) && |Encode(p)| <= len then Some(Encode(p)) else None
  {
  }

  lemma {:induction false} CStringStops(text: seq<byte>, mem: seq<byte>, pos: nat)
    requires NulFree(text) && StandsAt(text, mem, pos) && pos + |text| < |mem| && mem[pos + |text|] == 0
    ensures CString(mem, pos) == text
    decreases |text|
  {
    if text != [] {
      assert mem[pos] == text[0];
      StandsApart([text[0]], text[1..], mem, pos) by {
        assert text == [text[0]] + text[1..];
      }
      CStringStops(text[1..], mem, pos + 1);
    }
  }

  lemma {:induction false} BlockStands(data: seq<byte>, mem: seq<byte>, pos: nat)
    requires StandsAt(data, mem, pos)
    ensures Block(mem, pos, |data|) == data
    decreases |data|
  {
    if data != [] {
      assert mem[pos] == data[0];
      StandsApart([data[0]], data[1..], mem, pos) by {
        assert data == [data[0]] + data[1..];
      }
      BlockStands(data[1..], mem, pos + 1);
    }
  }

  lemma LengthReadBack(tlen: nat, mem: seq<byte>, pos: nat)
    requires tlen < 0x8000_0000 && StandsAt(BigEndian(tlen, 4), mem, pos)
    ensures Signed32(ReadNumber(mem, pos, 4)) == tlen
  {
    NumberRoundTrip(tlen, 4, mem, pos);
    LowIsMod(tlen, 4);
  }

  /** What was packed for one argument is read back, wherever it stands in memory, as that argument. */
  lemma ItemRoundTrip(p: Passed, mem: seq<byte>, pos: nat, len: int)
    requires Sendable(p) && |Encode(p)| <= len && StandsAt(Encode(p), mem, pos)
    ensures UnpackItem(p.kind, mem, pos, len) == Got(Received(p), |Encode(p)|)
  {
    if p.kind.Number? {
      NumberRoundTrip(p.arg.val, p.kind.width, mem, pos);
    } else {
      PointerRoundTrip(p, mem, pos, len);
    }
  }

  /** The bytes at the place that a length is followed by are read as the argument. */
  lemma DataReadBack(p: Passed, mem: seq<byte>, pos: nat)
    requires Sendable(p) && !p.kind.Number? && StandsAt(Payload(p.arg), mem, pos)
    ensures PointerAt(p.kind, mem, pos, |Payload(p.arg)|) == Received(p)
  {
    if p.kind.Buffer? {
      BlockStands(Payload(p.arg), mem, pos);
    } else if p.arg.text.Some? {
      var text := p.arg.text.value;
      StandsApart(text, [0], mem, pos);
      assert mem[pos + |text|] == [0][0];
      CStringStops(text, mem, pos);
    }
  }

  lemma LengthLimit(p: Passed)
    requires Sendable(p) && !p.kind.Number?
    ensures |Payload(p.arg)| + 4 < 0x8000_0000
  {
  }

  lemma PointerRoundTrip(p: Passed, mem: seq<byte>, pos: nat, len: int)
    requires Sendable(p) && !p.kind.Number?
    requires |Encode(p)| <= len && StandsAt(Encode(p), mem, pos)
    ensures UnpackItem(p.kind, mem, pos, len) == Got(Received(p), |Encode(p)|)
  {
    var data := Payload(p.arg);
    StandsApart(BigEndian(|data|, 4), data, mem, pos);
    LengthLimit(p);
    LengthReadBack(|data|, mem, pos);
    DataReadBack(p, mem, pos + 4);
  }

  // ---------- the types, by their codes

  /** A number of this type code is sent in so many bytes, and arrives unchanged exactly from lo up to, not with, hi. */
  predicate Carries(code: int, width: nat, lo: int, hi: int, v: int) {
    var kind := TypeOf(code);
    && kind.Number? && |Encode(Pass(kind, Num(v)))| == width
    && (Received(Pass(kind, Num(v))) == Num(v) <==> lo <= v < hi)
  }

  lemma CarriesRange(code: int, v: int)
    requires 1 <= code <= 8
    ensures var kind := TypeOf(code);
      Carries(code, kind.width,
        if kind.signed then -(Modulus(kind.width) / 2) else 0,
        if kind.signed then Modulus(kind.width) / 2 else Modulus(kind.width), v)
  {
    InterpretedSame(v, TypeOf(code).width, TypeOf(code).signed);
  }

  /** i8, u8, i16, u16, i32, u32, i64 and u64, and what each carries. */
  lemma NumberCodes(v: int)
    ensures Carries(1, 1, -0x80, 0x80, v) && Carries(2, 1, 0, 0x100, v)
    ensures Carries(3, 2, -0x8000, 0x8000, v) && Carries(4, 2, 0, 0x1_0000, v)
    ensures Carries(5, 4, -0x8000_0000, 0x8000_0000, v) && Carries(6, 4, 0, 0x1_0000_0000, v)
    ensures Carries(7, 8, -0x8000_0000_0000_0000, 0x8000_0000_0000_0000, v)
    ensures Carries(8, 8, 0, 0x1_0000_0000_0000_0000, v)
  {
    CarriesRange(1, v);
    CarriesRange(2, v);
    CarriesRange(3, v);
    CarriesRange(4, v);
    CarriesRange(5, v);
    CarriesRange(6, v);
    CarriesRange(7, v);
    CarriesRange(8, v);
  }

  lemma LengthBytes(n: nat)
    requires n < 0x1_0000_0000
    ensures BigEndian(n, 4) == [n / 0x100_0000, n / 0x1_0000 % 0x100, n / 0x100 % 0x100, n % 0x100]
  {
    var h1 := n / 256;
    var h2 := h1 / 256;
    var h3 := h2 / 256;
    assert h2 == n / 0x1_0000 && h3 == n / 0x100_0000 < 256;
    assert BigEndian(h3, 1) == [h3];
    assert BigEndian(h2, 2) == [h3, h2 % 256];
    assert BigEndian(h1, 3) == [h3, h2 % 256, h1 % 256];
  }

  /** str and ptr: a length of four bytes, the highest first, and the bytes; a string's NUL counts. No other code is
      packed. */
  lemma PointerCodes(text: seq<byte>, data: seq<byte>, code: int)
    requires NulFree(text) && ObjectSize(|text| + 1) && ObjectSize(|data|)
    ensures TypeOf(9).Text? && TypeOf(10).Buffer? && (!(1 <= code <= 10) ==> TypeOf(code).Unknown?)
    ensures var n := |text| + 1;
      Encode(Pass(TypeOf(9), Str(Some(text)))) ==
      [n / 0x100_0000, n / 0x1_0000 % 0x100, n / 0x100 % 0x100, n % 0x100] + text + [0]
    ensures var n := |data|;
      Encode(Pass(TypeOf(10), Ptr(Some(data)))) ==
      [n / 0x100_0000, n / 0x1_0000 % 0x100, n / 0x100 % 0x100, n % 0x100] + data
    ensures Encode(Pass(TypeOf(9), Str(None))) == Encode(Pass(TypeOf(10), Ptr(None))) == [0, 0, 0, 0]
  {
    LengthBytes(0);
    LengthBytes(|text| + 1);
    LengthBytes(|data|);
  }

  // ---------- whole formats

  /** The first argument, from i on, that does not get packed. */
  function Stop(ps: seq<Passed>, i: nat, len: int): (k: nat)
    requires i <= |ps|
    ensures i <= k <= |ps|
    decreases |ps| - i
  {
    if i == |ps| || !Sendable(ps[i]) || |Encode(ps[i])| > len then i
    else Stop(ps, i + 1, len - |Encode(ps[i])|)
  }

  /** What is packed is the encoding of the longest run of leading arguments that can be sent and fit: it stays within
      the room, and it is everything unless an argument cannot be sent or does not fit any more. */
  lemma {:induction false} PackedPrefix(ps: seq<Passed>, i: nat, len: int)
    requires i <= |ps|
    ensures var k := Stop(ps, i, len);
      && AllSendable(ps, i, k)
      && Pack(ps, i, len) == EncodeAll(ps, i, k)
      && (k > i ==> |Pack(ps, i, len)| <= len)
      && (k < |ps| ==> !Sendable(ps[k]) || |Pack(ps, i, len)| + |Encode(ps[k])| > len)
    decreases |ps| - i
  {
    if i < |ps| {
      PackItemExactly(ps[i], len);
      if Sendable(ps[i]) && |Encode(ps[i])| <= len {
        PackedPrefix(ps, i + 1, len - |Encode(ps[i])|);
      }
    }
  }

  /** With room for everything, everything is packed. */
  lemma {:induction false} PackedWhole(ps: seq<Passed>, i: nat, len: int)
    requires i <= |ps| && AllSendable(ps, i, |ps|) && |EncodeAll(ps, i, |ps|)| <= len
    ensures Pack(ps, i, len) == EncodeAll(ps, i, |ps|)
    decreases |ps| - i
  {
    if i < |ps| {
      PackItemExactly(ps[i], len);
      PackedWhole(ps, i + 1, len - |Encode(ps[i])|);
    }
  }

  lemma Regroup(a: seq<byte>, b: seq<byte>, c: seq<byte>)
    ensures (a + b) + c == a + (b + c)
  {
  }

  function IpcSending(): Sending<Passed, Type, Arg> {
    Sending((p: Passed) => p.kind, Sendable, Encode, Received)
  }

  lemma TableTakesBack(mem: seq<byte>)
    ensures TakesBack(IpcSending(), Table(mem), mem)
  {
    var s := IpcSending();
    forall p: Passed, pos: nat, len: int | s.able(p) && |s.piece(p)| <= len && StandsAt(s.piece(p), mem, pos)
      ensures |s.piece(p)| > 0 && Table(mem)(s.kind(p), pos, len) == Got(s.give(p), |s.piece(p)|)
    {
      ItemRoundTrip(p, mem, pos, len);
    }
  }

  /** Unpacking what was packed, wherever it stands in memory, gives back every argument, integers modulo 256^n, and
      takes exactly the packed length. */
  lemma RoundTrip(fmt: seq<Type>, ps: seq<Passed>, mem: seq<byte>, pos: nat, len: int)
    requires Describes(fmt, ps) && AllSendable(ps, 0, |ps|)
    requires |Bytes(ps)| <= len && StandsAt(Bytes(ps), mem, pos)
    ensures Unpack(fmt, mem, pos, len) == Unpacked(AllReceived(ps), |Bytes(ps)|, false)
  {
    TableTakesBack(mem);
    WalkBack(IpcSending(), Table(mem), fmt, ps, 0, mem, pos, len);
  }

  /** The values a type can carry unchanged: numbers in its range, and no empty buffer that is not NULL. */
  predicate Faithful(p: Passed) {
    if p.arg.Num? then InRange(p.arg.val, p.kind.width, p.kind.signed) else p.arg != Ptr(Some([]))
  }

  lemma {:induction false} ReceivedUnchanged(ps: seq<Passed>, i: nat)
    requires i <= |ps|
    ensures Given(Received, ps, i) == Given(Sent, ps, i) <==> forall j :: i <= j < |ps| ==> Faithful(ps[j])
    decreases |ps| - i
  {
    if i < |ps| {
      ReceivedUnchanged(ps, i + 1);
      if ps[i].arg.Num? {
        InterpretedSame(ps[i].arg.val, ps[i].kind.width, ps[i].kind.signed);
      }
    }
  }

  /** The arguments arrive as they were sent exactly when their types carry them unchanged. */
  lemma SentIsReceived(fmt: seq<Type>, ps: seq<Passed>, mem: seq<byte>, pos: nat, len: int)
    requires Describes(fmt, ps) && AllSendable(ps, 0, |ps|)
    requires |Bytes(ps)| <= len && StandsAt(Pack(ps, 0, len), mem, pos)
    ensures Unpack(fmt, mem, pos, len).args == Args(ps) <==> forall j :: 0 <= j < |ps| ==> Faithful(ps[j])
  {
    PackedWhole(ps, 0, len);
    RoundTrip(fmt, ps, mem, pos, len);
    ReceivedUnchanged(ps, 0);
  }

  // ---------- a call: header and arguments in one datagram

  /** The format of every call's header: client id, call id and function name. */
  const HEADER: seq<Type> := [TypeOf(5), TypeOf(5), TypeOf(9)]

  function Header(client: int, callId: int, name: seq<byte>): (ps: seq<Passed>)
    requires NulFree(name) && ObjectSize(|name| + 1)
  {
    [Pass(Number(4, true), Num(client)), Pass(Number(4, true), Num(callId)), Pass(Text, Str(Some(name)))]
  }

  /** The datagram ipc_call_va builds in a buffer of the given size. */
  function Datagram(client: int, callId: int, name: seq<byte>, ps: seq<Passed>, size: int): seq<byte>
    requires NulFree(name) && ObjectSize(|name| + 1)
  {
    var header := Pack(Header(client, callId, name), 0, size);
    header + Pack(ps, 0, size - |header|)
  }

  lemma HeaderLength(client: int, callId: int, name: seq<byte>)
    requires NulFree(name) && ObjectSize(|name| + 1)
    ensures var ps := Header(client, callId, name);
      AllSendable(ps, 0, 3) && |Bytes(ps)| == 13 + |name| && Describes(HEADER, ps)
  {
    var ps := Header(client, callId, name);
    assert |EncodeAll(ps, 3, 3)| == 0;
    assert |EncodeAll(ps, 2, 3)| == 5 + |name|;
    assert |EncodeAll(ps, 1, 3)| == 9 + |name|;
  }

  lemma DatagramParts(client: int, callId: int, name: seq<byte>, ps: seq<Passed>, size: int)
    requires NulFree(name) && ObjectSize(|name| + 1)
    requires AllSendable(ps, 0, |ps|) && 13 + |name| + |Bytes(ps)| <= size
    ensures Datagram(client, callId, name, ps, size) == Bytes(Header(client, callId, name)) + Bytes(ps)
  {
    HeaderLength(client, callId, name);
    PackedWhole(Header(client, callId, name), 0, size);
    PackedWhole(ps, 0, size - 13 - |name|);
  }

  lemma DatagramStands(client: int, callId: int, name: seq<byte>, ps: seq<Passed>, size: int, mem: seq<byte>)
    requires NulFree(name) && ObjectSize(|name| + 1)
    requires AllSendable(ps, 0, |ps|) && 13 + |name| + |Bytes(ps)| <= size
    requires StandsAt(Datagram(client, callId, name, ps, size), mem, 0)
    ensures |Datagram(client, callId, name, ps, size)| == 13 + |name| + |Bytes(ps)|
    ensures StandsAt(Bytes(Header(client, callId, name)), mem, 0) && StandsAt(Bytes(ps), mem, 13 + |name|)
  {
    var header := Header(client, callId, name);
    HeaderLength(client, callId, name);
    DatagramParts(client, callId, name, ps, size);
    StandsApart(Bytes(header), Bytes(ps), mem, 0);
  }

  /** The receiver, handed the datagram, splits it at the end of the header and finds the call and its arguments. */
  lemma CallArrives(client: int, callId: int, name: seq<byte>, fmt: seq<Type>, ps: seq<Passed>, size: int,
                    mem: seq<byte>)
    requires NulFree(name) && ObjectSize(|name| + 1)
    requires Describes(fmt, ps) && AllSendable(ps, 0, |ps|) && 13 + |name| + |Bytes(ps)| <= size
    requires StandsAt(Datagram(client, callId, name, ps, size), mem, 0)
    ensures var len, len1 := |Datagram(client, callId, name, ps, size)|, 13 + |name|;
      && Unpack(HEADER, mem, 0, len) == Unpacked(AllReceived(Header(client, callId, name)), len1, false)
      && Unpack(fmt, mem, len1, len - len1) == Unpacked(AllReceived(ps), len - len1, false)
  {
    var header := Header(client, callId, name);
    DatagramStands(client, callId, name, ps, size, mem);
    HeaderLength(client, callId, name);
    RoundTrip(HEADER, header, mem, 0, 13 + |name| + |Bytes(ps)|);
    RoundTrip(fmt, ps, mem, 13 + |name|, |Bytes(ps)|);
  }

  // ---------- the program

  /** The value a little-endian machine sees in these bytes. */
  function FromLittleEndian(s: seq<byte>): nat {
    if s == [] then 0 else s[0] + 256 * FromLittleEndian(s[1..])
  }

  /** Bytes stored in reverse order by a little-endian machine make the number that memory spells. */
  lemma {:induction false} SwappedValue(le: seq<byte>, mem: seq<byte>, pos: nat)
    requires pos + |le| <= |mem|
    requires forall k :: 0 <= k < |le| ==> le[k] == mem[pos + |le| - 1 - k]
    ensures FromLittleEndian(le) == ReadNumber(mem, pos, |le|)
  {
    if le != [] {
      assert le[0] == mem[pos + |le| - 1];
      SwappedValue(le[1..], mem, pos);
    }
  }

  method PackNumber(val: int, width: nat, buf: array<byte>, off: nat, len: int) returns (r: int)
    requires off + (if len < 0 then 0 else len) <= buf.Length
    modifies buf
    ensures len < width ==> r == -1 && buf[..] == old(buf[..])
    ensures len >= width ==> r == width && buf[..] == old(buf[..off]) + BigEndian(val, width) + old(buf[off + width..])
  {
    if len < width {
      return -1;
    }
    var p := val;
    var n: nat := width;
    while n > 0
      invariant 0 <= n <= width
      invariant BigEndian(p, n) + buf[off + n..off + width] == BigEndian(val, width)
      invariant buf[..off] == old(buf[..off]) && buf[off + width..] == old(buf[off + width..])
    {
      n := n - 1;
      ghost var done := buf[off + n + 1..off + width];
      buf[off + n] := p % 256;
      assert buf[off + n..off + width] == [p % 256] + done;
      p := p / 256;
    }
    r := width;
    assert buf[off + 0..off + width] == BigEndian(val, width);
    assert buf[..] == buf[..off] + buf[off..off + width] + buf[off + width..];
  }

  method CopyIn(data: seq<byte>, buf: array<byte>, off: nat)
    requires off + |data| <= buf.Length
    modifies buf
    ensures buf[..] == old(buf[..off]) + data + old(buf[off + |data|..])
  {
    forall i | 0 <= i < |data| {
      buf[off + i] := data[i];
    }
  }

  method PackPointer(arg: Arg, buf: array<byte>, off: nat, len: int) returns (r: int)
    requires off + (if len < 0 then 0 else len) <= buf.Length
    requires !arg.Num?
    modifies buf
    ensures arg.BadPtr? || len < |Payload(arg)| + 4 ==> r == -1 && buf[..] == old(buf[..])
    ensures !arg.BadPtr? && len >= |Payload(arg)| + 4 ==>
      && r == |Payload(arg)| + 4
      && buf[..] == old(buf[..off]) + (BigEndian(|Payload(arg)|, 4) + Payload(arg)) + old(buf[off + r..])
  {
    var tlen := SentLength(arg);
    if tlen < 0 || len < tlen + 4 {
      return -1;
    }
    ghost var was := buf[..];
    ghost var head := BigEndian(tlen, 4);
    var n := PackNumber(tlen, 4, buf, off, len);
    CopyIn(Payload(arg), buf, off + 4);
    r := tlen + 4;
    TwoWrites(was, off, head, Payload(arg));
  }

  /** Two neighbouring stretches overwritten one after the other. */
  lemma TwoWrites(was: seq<byte>, off: nat, head: seq<byte>, data: seq<byte>)
    requires off + |head| + |data| <= |was|
    ensures var once := was[..off] + head + was[off + |head|..];
      once[..off + |head|] + data + once[off + |head| + |data|..]
        == was[..off] + (head + data) + was[off + |head| + |data|..]
  {
    var once := was[..off] + head + was[off + |head|..];
    assert once[..off + |head|] == was[..off] + head;
    assert once[off + |head| + |data|..] == was[off + |head| + |data|..];
  }

  /** One turn of the packing loop: the type's own packer, or a refusal of the type. */
  method PackOne(p: Passed, buf: array<byte>, off: nat, len: int) returns (r: int)
    requires off + (if len < 0 then 0 else len) <= buf.Length
    modifies buf
    ensures PackItem(p, len).None? ==> r <= 0 && buf[..] == old(buf[..])
    ensures PackItem(p, len).Some? ==>
      && r == |PackItem(p, len).value|
      && buf[..] == old(buf[..off]) + PackItem(p, len).value + old(buf[off + r..])
  {
    PackItemExactly(p, len);
    match p.kind
    case Number(width, _) => r := PackNumber(p.arg.val, width, buf, off, len);
    case Unknown => r := -1;
    case _ => r := PackPointer(p.arg, buf, off, len);
  }

  /** The bytes written so far and the memory around them. */
  ghost predicate Written(was: seq<byte>, now: seq<byte>, off: nat, done: seq<byte>) {
    off + |done| <= |was| && now == was[..off] + done + was[off + |done|..]
  }

  lemma WrittenMore(was: seq<byte>, mid: seq<byte>, now: seq<byte>, off: nat, done: seq<byte>, next: seq<byte>)
    requires Written(was, mid, off, done) && Written(mid, now, off + |done|, next)
    ensures Written(was, now, off, done + next)
  {
    TwoWrites(was, off, done, next);
  }

  lemma PackStep(ps: seq<Passed>, i: nat, left: int, done: seq<byte>)
    requires i < |ps|
    ensures match PackItem(ps[i], left)
      case None => done + Pack(ps, i, left) == done
      case Some(next) => done + Pack(ps, i, left) == (done + next) + Pack(ps, i + 1, left - |next|)
  {
    match PackItem(ps[i], left)
    case None =>
    case Some(next) => Regroup(done, next, Pack(ps, i + 1, left - |next|));
  }

  /** Where the packing loop stands: `done` is in the buffer, and the arguments from i on are to follow it. */
  ghost predicate Underway(was: seq<byte>, now: seq<byte>, off: nat, done: seq<byte>,
                           ps: seq<Passed>, i: nat, left: int, all: seq<byte>) {
    Written(was, now, off, done) && done + Pack(ps, i, left) == all
  }

  /** One turn of the loop, on the bytes. */
  lemma PackTurn(was: seq<byte>, mid: seq<byte>, now: seq<byte>, off: nat, done: seq<byte>,
                 ps: seq<Passed>, i: nat, left: int, all: seq<byte>)
    requires i < |ps| && Underway(was, mid, off, done, ps, i, left, all)
    ensures PackItem(ps[i], left).None? ==> done == all
    ensures PackItem(ps[i], left).Some? && Written(mid, now, off + |done|, PackItem(ps[i], left).value) ==>
      var next := PackItem(ps[i], left).value;
      Underway(was, now, off, done + next, ps, i + 1, left - |next|, all)
  {
    PackStep(ps, i, left, done);
    if PackItem(ps[i], left).Some? && Written(mid, now, off + |done|, PackItem(ps[i], left).value) {
      WrittenMore(was, mid, now, off, done, PackItem(ps[i], left).value);
    }
  }

  /** One turn of the loop, on the buffer. */
  method PackNext(ps: seq<Passed>, i: nat, buf: array<byte>, off: nat, ret: nat, left: int, ghost was: seq<byte>,
                  ghost done: seq<byte>, ghost all: seq<byte>)
    returns (r: int, ghost now: seq<byte>)
    requires i < |ps| && ret == |done| && off + ret + (if left < 0 then 0 else left) <= buf.Length
    requires Underway(was, buf[..], off, done, ps, i, left, all)
    modifies buf
    ensures r <= 0 ==> now == done == all && buf[..] == old(buf[..])
    ensures r > 0 ==> |now| == |done| + r && r <= left && Underway(was, buf[..], off, now, ps, i + 1, left - r, all)
  {
    ghost var mid := buf[..];
    r := PackOne(ps[i], buf, off + ret, left);
    PackTurn(was, mid, buf[..], off, done, ps, i, left, all);
    now := if PackItem(ps[i], left).Some? then done + PackItem(ps[i], left).value else done;
  }

  method PackVa(ps: seq<Passed>, buf: array<byte>, off: nat, len: int) returns (ret: nat)
    requires off + (if len < 0 then 0 else len) <= buf.Length
    modifies buf
    ensures ret == |Pack(ps, 0, len)| && Written(old(buf[..]), buf[..], off, Pack(ps, 0, len))
  {
    ret := 0;
    var left, i := len, 0;
    ghost var was, done, all := buf[..], [], Pack(ps, 0, len);
    assert done + all == all;
    while i < |ps|
      invariant i <= |ps|
      invariant ret == |done| && off + ret + (if left < 0 then 0 else left) <= buf.Length
      invariant Underway(was, buf[..], off, done, ps, i, left, all)
    {
      var r: int;
      r, done := PackNext(ps, i, buf, off, ret, left, was, done, all);
      if r <= 0 {
        return;
      }
      left, ret, i := left - r, ret + r, i + 1;
    }
    assert done + [] == done;
  }

  /** The number is stored byte by byte at the front of the receiver's variable, which is little-endian; the rest of
      the variable stays. */
  method UnpackNumber(mem: seq<byte>, pos: nat, width: nat, variable: array<byte>)
    requires pos + width <= |mem| && width <= variable.Length
    modifies variable
    ensures FromLittleEndian(variable[..width]) == ReadNumber(mem, pos, width)
    ensures variable[width..] == old(variable[width..])
  {
    var n := width;
    while n > 0
      invariant 0 <= n <= width
      invariant forall k :: 0 <= k < width - n ==> variable[k] == mem[pos + width - 1 - k]
      invariant variable[width..] == old(variable[width..])
    {
      n := n - 1;
      variable[width - 1 - n] := mem[pos + n];
    }
    SwappedValue(variable[..width], mem, pos);
  }

  lemma FourBytesOf(s: seq<byte>)
    requires |s| == 4
    ensures FromLittleEndian(s) == FourDigits(s[3], s[2], s[1], s[0])
  {
    var s1, s2, s3 := s[1..], s[2..], s[3..];
    assert s1[1..] == s2 && s2[1..] == s3 && s3[1..] == [];
    assert FromLittleEndian(s3) == s[3];
    assert FromLittleEndian(s2) == FourDigits(0, 0, s[3], s[2]);
    assert FromLittleEndian(s1) == FourDigits(0, s[3], s[2], s[1]);
  }

  lemma FirstBytes(s: seq<byte>, n: nat)
    requires (n == 1 || n == 2) && |s| == 4
    ensures FromLittleEndian(s[..n]) == FourDigits(0, 0, if n == 1 then 0 else s[1], s[0])
  {
    assert n == 2 ==> FromLittleEndian(s[..n][1..]) == s[1];
  }

  lemma SameAbove(n: nat, before: seq<byte>, after: seq<byte>)
    requires (n == 1 || n == 2) && |before| == 4 == |after| && after[n..] == before[n..]
    ensures after[3] == before[3] && after[2] == before[2] && (n == 1 ==> after[1] == before[1])
  {
    assert after[3] == after[n..][3 - n] && after[2] == after[n..][2 - n];
    assert n == 1 ==> after[1] == after[n..][0];
  }

  /** The value of a signed variable by its high and its low part. */
  lemma SplitAtOne(a: nat, b: nat, c: nat, low: nat)
    requires a < 256 && b < 256 && c < 256 && low < 256
    ensures Signed32(FourDigits(a, b, c, low)) / 256 == Signed32(FourDigits(a, b, c, 0)) / 256
    ensures Signed32(FourDigits(a, b, c, low)) % 256 == low
  {
  }

  lemma SplitAtTwo(a: nat, b: nat, low: nat)
    requires a < 256 && b < 256 && low < 0x1_0000
    ensures Signed32(FourDigits(a, b, 0, low)) / 0x1_0000 == Signed32(FourDigits(a, b, 0, 0)) / 0x1_0000
    ensures Signed32(FourDigits(a, b, 0, low)) % 0x1_0000 == low
  {
  }

  /** The generated stubs give a number of one or two bytes a variable of type int without a first value. It arrives as
      sent exactly when what the variable held before happens to agree with the number above those bytes. */
  lemma NarrowIntoInt(val: int, n: nat, before: seq<byte>, after: seq<byte>)
    requires (n == 1 || n == 2) && |before| == 4 == |after|
    requires FromLittleEndian(after[..n]) == Low(val, n) && after[n..] == before[n..]
    ensures Interpret(FromLittleEndian(after), 4, true) == val
      <==> Interpret(FromLittleEndian(before), 4, true) / Modulus(n) == val / Modulus(n)
  {
    FourBytesOf(before);
    FourBytesOf(after);
    LowIsMod(val, n);
    FirstBytes(after, n);
    SameAbove(n, before, after);
    if n == 1 {
      SplitAtOne(before[3], before[2], before[1], before[0]);
      SplitAtOne(before[3], before[2], before[1], after[0]);
    } else {
      SplitAtTwo(before[3], before[2], FourDigits(0, 0, before[1], before[0]));
      SplitAtTwo(before[3], before[2], FourDigits(0, 0, after[1], after[0]));
    }
  }

  /** Only a pointer into the memory is stored; what it points at is read later. */
  method UnpackPointer(kind: Type, mem: seq<byte>, pos: nat, len: int) returns (item: Item<Arg>)
    requires kind.Text? || kind.Buffer?
    ensures item == UnpackItem(kind, mem, pos, len)
  {
    if pos + 4 > |mem| {
      return Outside;
    }
    FourBytes(mem, pos);
    var tlen := Signed32(FourDigits(mem[pos], mem[pos + 1], mem[pos + 2], mem[pos + 3]));
    if tlen < 0 && len < tlen + 4 {
      return Refused;
    }
    if pos + 4 + tlen > |mem| {
      return Outside;
    }
    item := Got(PointerAt(kind, mem, pos + 4, tlen), tlen + 4);
  }

  /** What a table entry does, for every type. */
  ghost predicate Reads(read: Reader<Type, Arg>, mem: seq<byte>) {
    forall kind: Type, pos: nat, len: int {:trigger UnpackItem(kind, mem, pos, len)} ::
      read(kind, pos, len) == UnpackItem(kind, mem, pos, len)
  }

  method UnpackOne(ghost read: Reader<Type, Arg>, kind: Type, mem: seq<byte>, pos: nat, len: int)
    returns (item: Item<Arg>)
    requires Reads(read, mem)
    ensures item == read(kind, pos, len) && (item.Got? ==> pos + item.used <= |mem|)
  {
    assert read(kind, pos, len) == UnpackItem(kind, mem, pos, len);
    match kind
    case Number(width, signed) =>
      if len < width {
        return Refused;
      }
      if pos + width > |mem| {
        return Outside;
      }
      var variable := new byte[width];
      UnpackNumber(mem, pos, width, variable);
      assert variable[..width] == variable[..];
      item := Got(Num(Interpret(FromLittleEndian(variable[..]), width, signed)), width);
    case Unknown =>
      item := Refused;
    case _ =>
      item := UnpackPointer(kind, mem, pos, len);
  }

  /** The format loop, on entries that read this memory. */
  method UnpackAll(ghost read: Reader<Type, Arg>, fmt: seq<Type>, mem: seq<byte>, pos: nat, len: int)
    returns (r: Unpacked<Arg>)
    requires Reads(read, mem)
    ensures r == Walk(read, fmt, 0, pos, len)
  {
    var args: seq<Arg>, used: nat := [], 0;
    var i, left := 0, len;
    var at: nat := pos;
    ghost var all := Walk(read, fmt, 0, pos, len);
    assert Ahead(args, used, all) == all;
    while i < |fmt|
      invariant i <= |fmt| && Ahead(args, used, Walk(read, fmt, i, at, left)) == all
    {
      var item := UnpackOne(read, fmt[i], mem, at, left);
      if !item.Got? || item.used <= 0 {
        WalkStop(read, fmt, i, at, left);
        return Unpacked(Prepend(args, if item.Got? then Cons(item.arg, Nil) else Nil), used, item.Outside?);
      }
      UnpackOneMore(args, used, read, fmt, i, at, left, item.arg, item.used);
      args, used := args + [item.arg], used + item.used;
      i, at, left := i + 1, at + item.used, left - item.used;
    }
    r := Unpacked(Prepend(args, Nil), used, false);
  }

  method UnpackVa(fmt: seq<Type>, mem: seq<byte>, pos: nat, len: int) returns (r: Unpacked<Arg>)
    ensures r == Unpack(fmt, mem, pos, len)
  {
    r := UnpackAll(Table(mem), fmt, mem, pos, len);
  }

  lemma UnpackOneMore(args: seq<Arg>, used: nat, read: Reader<Type, Arg>, fmt: seq<Type>, i: nat, at: nat,
                      left: int, arg: Arg, n: nat)
    requires i < |fmt| && read(fmt[i], at, left) == Got(arg, n) && n > 0
    ensures Ahead(args, used, Walk(read, fmt, i, at, left))
      == Ahead(args + [arg], used + n, Walk(read, fmt, i + 1, at + n, left - n))
  {
    WalkOn(read, fmt, i, at, left, arg, n);
    PrependOne(args, arg, Walk(read, fmt, i + 1, at + n, left - n).args);
  }

  function Prepend(args: seq<Arg>, more: ArgList<Arg>): ArgList<Arg> {
    if args == [] then more else Prepend(args[..|args| - 1], Cons(args[|args| - 1], more))
  }

  lemma PrependOne(args: seq<Arg>, arg: Arg, more: ArgList<Arg>)
    ensures Prepend(args + [arg], more) == Prepend(args, Cons(arg, more))
  {
    assert (args + [arg])[..|args|] == args;
  }

  /** A result with what was read before it. */
  function Ahead(args: seq<Arg>, used: int, rest: Unpacked<Arg>): Unpacked<Arg> {
    Unpacked(Prepend(args, rest.args), used + rest.used, rest.outside)
  }
}
