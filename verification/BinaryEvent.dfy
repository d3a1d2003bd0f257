/**
 * The printer of binary log events in liblog/logprint.c: a recursive routine that renders an encoded event into a
 * bounded buffer, and its caller that terminates the message or marks it as cut off.
 */
module BinaryEvent {
  import opened Wrappers

  const TYPE_INT: byte := 0
  const TYPE_LONG: byte := 1
  const TYPE_STRING: byte := 2
  const TYPE_LIST: byte := 3

  const OPEN: byte := 91
  const CLOSE: byte := 93
  const COMMA: byte := 44
  const MINUS: byte := 45
  const MARK: byte := 33
  const ZERO: byte := 48
  const NUL: byte := 0

  const WORD := 0x1_0000_0000

  // ---------- numbers

  /** get4LE at p. */
  function Get4(d: seq<byte>, p: nat): (n: nat)
    requires p + 4 <= |d|
    ensures n < WORD
  {
    d[p] as int + 256 * (d[p + 1] as int + 256 * (d[p + 2] as int + 256 * (d[p + 3] as int)))
  }

  /** get8LE at p. */
  function Get8(d: seq<byte>, p: nat): (n: nat)
    requires p + 8 <= |d|
  {
    Get4(d, p + 4) * WORD + Get4(d, p)
  }

  /** An unsigned number of the given range read as two's complement. */
  function Signed(n: nat, range: nat): int {
    if 2 * n < range then n else n - range
  }

  /** The two's complement bits of a number, as an unsigned number. */
  function Unsigned(v: int, range: nat): nat
    requires -(range as int) <= 2 * v < range
  {
    if v < 0 then v + range else v
  }

  function Digits(n: nat): (s: seq<byte>)
    ensures |s| >= 1
  {
    if n < 10 then [ZERO + n] else Digits(n / 10) + [ZERO + n % 10]
  }

  /** What "%d" and "%lld" print. */
  function Decimal(v: int): (s: seq<byte>)
    ensures |s| >= 1
  {
    if v < 0 then [MINUS] + Digits(-v) else Digits(v)
  }

  // ---------- events, how they are encoded and what they look like

  datatype Event = Int(v: int) | Long(v: int) | Str(s: seq<byte>) | List(items: seq<Event>)

  ghost predicate WellFormed(e: Event) {
    match e
    case Int(v) => -WORD <= 2 * v < WORD
    case Long(v) => -WORD * WORD <= 2 * v < WORD * WORD
    case Str(s) => |s| < WORD
    case List(items) => |items| < 256 && forall i :: 0 <= i < |items| ==> WellFormed(items[i])
  }

  function Put4(n: nat): (s: seq<byte>)
    requires n < WORD
    ensures |s| == 4
  {
    [n % 256, n / 256 % 256, n / 256 / 256 % 256, n / 256 / 256 / 256]
  }

  function Put8(n: nat): (s: seq<byte>)
    requires n < WORD * WORD
    ensures |s| == 8
  {
    Put4(n % WORD) + Put4(n / WORD)
  }

  ghost function Encode(e: Event): seq<byte>
    requires WellFormed(e)
  {
    match e
    case Int(v) => [TYPE_INT] + Put4(Unsigned(v, WORD))
    case Long(v) => [TYPE_LONG] + Put8(Unsigned(v, WORD * WORD))
    case Str(s) => [TYPE_STRING] + Put4(|s|) + s
    case List(items) => [TYPE_LIST, |items|] + EncodeAll(items)
  }

  ghost function EncodeAll(items: seq<Event>): seq<byte>
    requires forall i :: 0 <= i < |items| ==> WellFormed(items[i])
  {
    if items == [] then [] else Encode(items[0]) + EncodeAll(items[1..])
  }

  /** The rendering of an event with room for all of it. */
  function Text(e: Event): seq<byte> {
    match e
    case Int(v) => Decimal(v)
    case Long(v) => Decimal(v)
    case Str(s) => s
    case List(items) => [OPEN] + ItemsText(items)
  }

  /** The items separated by commas, and the closing bracket. */
  function ItemsText(items: seq<Event>): (s: seq<byte>)
    ensures |s| >= 1
  {
    if items == [] then [CLOSE]
    else if |items| == 1 then Text(items[0]) + [CLOSE]
    else Text(items[0]) + [COMMA] + ItemsText(items[1..])
  }

  // ---------- the printer

  /** The result code, where the input and output pointers stand, what was emitted, and the room left. */
  datatype Printed = Printed(result: int, pos: nat, out: seq<byte>, room: nat)

  function PrintNumber(text: seq<byte>, next: nat, room: nat): Printed {
    if |text| < room then Printed(0, next, text, room - |text|) else Printed(1, next, [], room)
  }

  function Print(d: seq<byte>, p: nat, room: nat): (r: Printed)
    ensures p <= |d| ==> p <= r.pos <= |d|
    ensures r.result == 0 ==> p < r.pos
    decreases |d| - p, 0
  {
    if p >= |d| then Printed(-1, p, [], room)
    else if d[p] == TYPE_INT then
      if |d| - (p + 1) < 4 then Printed(-1, p, [], room)
      else PrintNumber(Decimal(Signed(Get4(d, p + 1), WORD)), p + 5, room)
    else if d[p] == TYPE_LONG then
      if |d| - (p + 1) < 8 then Printed(-1, p, [], room)
      else PrintNumber(Decimal(Signed(Get8(d, p + 1), WORD * WORD)), p + 9, room)
    else if d[p] == TYPE_STRING then
      if |d| - (p + 1) < 4 then Printed(-1, p, [], room)
      else
        var n := Get4(d, p + 1);
        if |d| - (p + 5) < n then Printed(-1, p, [], room)
        else if n < room then Printed(0, p + 5 + n, d[p + 5..p + 5 + n], room - n)
        else if room > 0 then Printed(1, p + 5, d[p + 5..p + 5 + room], 0)
        else Printed(0, p + 5 + n, [], room)
    else if d[p] == TYPE_LIST then
      if |d| - (p + 1) < 1 then Printed(-1, p, [], room)
      else if room == 0 then Printed(1, p + 2, [], room)
      else
        var r := PrintItems(d, p + 2, room - 1, d[p + 1]);
        r.(out := [OPEN] + r.out)
    else Printed(-1, p, [], room)
  }

  /** One turn of the item loop: an item, and a comma unless it is the last. */
  function PrintItem(d: seq<byte>, p: nat, room: nat, last: bool): (r: Printed)
    requires p <= |d|
    ensures p <= r.pos <= |d|
    ensures r.result == 0 ==> p < r.pos
    decreases |d| - p, 1
  {
    var r := Print(d, p, room);
    if r.result != 0 || last then r
    else if r.room == 0 then r.(result := 1)
    else Printed(0, r.pos, r.out + [COMMA], r.room - 1)
  }

  /** The item loop with n items to go, and the closing bracket. */
  function PrintItems(d: seq<byte>, p: nat, room: nat, n: nat): (r: Printed)
    requires p <= |d|
    ensures p <= r.pos <= |d|
    decreases |d| - p, 2
  {
    if n == 0 then
      if room > 0 then Printed(0, p, [CLOSE], room - 1) else Printed(1, p, [], room)
    else
      var r := PrintItem(d, p, room, n == 1);
      if r.result != 0 then r
      else
        var t := PrintItems(d, r.pos, r.room, n - 1);
        t.(out := r.out + t.out)
  }

  // ---------- on every input

  /** On any bytes at all, what is emitted and the room left add up to the room given. */
  lemma {:induction false} RoomConserved(d: seq<byte>, p: nat, room: nat)
    ensures var r := Print(d, p, room); |r.out| + r.room == room && -1 <= r.result <= 1
    decreases |d| - p, 0
  {
    if p + 1 < |d| && d[p] == TYPE_LIST && room > 0 {
      ItemsRoomConserved(d, p + 2, room - 1, d[p + 1]);
    }
  }

  lemma ItemRoomConserved(d: seq<byte>, p: nat, room: nat, last: bool)
    requires p <= |d|
    ensures var r := PrintItem(d, p, room, last); |r.out| + r.room == room && -1 <= r.result <= 1
    decreases |d| - p, 1
  {
    RoomConserved(d, p, room);
  }

  lemma {:induction false} ItemsRoomConserved(d: seq<byte>, p: nat, room: nat, n: nat)
    requires p <= |d|
    ensures var r := PrintItems(d, p, room, n); |r.out| + r.room == room && -1 <= r.result <= 1
    decreases |d| - p, 2
  {
    if n > 0 {
      ItemRoomConserved(d, p, room, n == 1);
      var r := PrintItem(d, p, room, n == 1);
      if r.result == 0 {
        ItemsRoomConserved(d, r.pos, r.room, n - 1);
      }
    }
  }

  // ---------- on encoded events

  ghost predicate At(d: seq<byte>, p: nat, s: seq<byte>) {
    p + |s| <= |d| && d[p..p + |s|] == s
  }

  lemma AtParts(d: seq<byte>, p: nat, s: seq<byte>, t: seq<byte>)
    requires At(d, p, s + t)
    ensures At(d, p, s) && At(d, p + |s|, t)
    ensures forall k :: p <= k < p + |s| ==> d[k] == s[k - p]
  {
    assert d[p..p + |s|] == d[p..p + |s + t|][..|s|];
    assert d[p + |s|..p + |s| + |t|] == d[p..p + |s + t|][|s|..];
    assert forall k :: p <= k < p + |s| ==> d[k] == d[p..p + |s|][k - p];
  }

  lemma GetPut4(d: seq<byte>, p: nat, n: nat)
    requires n < WORD && At(d, p, Put4(n))
    ensures Get4(d, p) == n
  {
    AtParts(d, p, Put4(n), []);
    var h1, h2, h3 := n / 256, n / 256 / 256, n / 256 / 256 / 256;
    assert n == 256 * h1 + n % 256 && h1 == 256 * h2 + h1 % 256 && h2 == 256 * h3 + h2 % 256;
  }

  lemma SignedUnsigned(v: int, range: nat)
    requires -(range as int) <= 2 * v < range
    ensures Unsigned(v, range) < range && Signed(Unsigned(v, range), range) == v
  {}

  /** The least room in which an event prints completely: a single number or string needs one byte to spare. */
  function Need(e: Event): nat {
    if e.List? then |Text(e)| else |Text(e)| + 1
  }

  /** What printing a rendering with a bounded room must give. */
  ghost predicate PrintsAs(r: Printed, text: seq<byte>, room: nat, fits: bool, next: nat) {
    && (r.result == 0 <==> fits) && (r.result == 1 <==> !fits)
    && r.out <= text
    && (fits ==> r.out == text && r.pos == next && r.room == room - |text|)
  }

  lemma LeafPrints(d: seq<byte>, p: nat, room: nat, e: Event)
    requires WellFormed(e) && !e.List? && At(d, p, Encode(e)) && room >= 1
    ensures PrintsAs(Print(d, p, room), Text(e), room, Need(e) <= room, p + |Encode(e)|)
  {
    match e
    case Int(v) =>
      AtParts(d, p, [TYPE_INT], Put4(Unsigned(v, WORD)));
      GetPut4(d, p + 1, Unsigned(v, WORD));
      SignedUnsigned(v, WORD);
    case Long(v) => LongPrints(d, p, room, v);
    case Str(s) => StringPrints(d, p, room, s);
  }

  lemma GetPut8(d: seq<byte>, p: nat, n: nat)
    requires n < WORD * WORD && At(d, p, Put8(n))
    ensures Get8(d, p) == n
  {
    AtParts(d, p, Put4(n % WORD), Put4(n / WORD));
    GetPut4(d, p, n % WORD);
    GetPut4(d, p + 4, n / WORD);
  }

  lemma LongPrints(d: seq<byte>, p: nat, room: nat, v: int)
    requires WellFormed(Long(v)) && At(d, p, Encode(Long(v)))
    ensures Print(d, p, room) == PrintNumber(Decimal(v), p + 9, room) && |Encode(Long(v))| == 9
  {
    SignedUnsigned(v, WORD * WORD);
    var n := Unsigned(v, WORD * WORD);
    AtParts(d, p, [TYPE_LONG], Put8(n));
    GetPut8(d, p + 1, n);
  }

  lemma StringPrints(d: seq<byte>, p: nat, room: nat, s: seq<byte>)
    requires |s| < WORD && At(d, p, Encode(Str(s)))
    ensures room >= 1 ==> PrintsAs(Print(d, p, room), s, room, |s| + 1 <= room, p + |Encode(Str(s))|)
    ensures room == 0 ==> Print(d, p, room).result == 0 && Print(d, p, room).out == []
  {
    AtParts(d, p, [TYPE_STRING] + Put4(|s|), s);
    AtParts(d, p, [TYPE_STRING], Put4(|s|));
    GetPut4(d, p + 1, |s|);
    assert d[p + 5..p + 5 + |s|] == s;
    assert room <= |s| ==> d[p + 5..p + 5 + room] == s[..room];
  }

  /** With no room left nothing is emitted; only a string is passed over as if it had been printed. */
  lemma NoRoomPrints(d: seq<byte>, p: nat, e: Event)
    requires WellFormed(e) && At(d, p, Encode(e))
    ensures var r := Print(d, p, 0);
      r.out == [] && r.room == 0 && (r.result == 0 <==> e.Str?) && (r.result == 1 <==> !e.Str?)
  {
    RoomConserved(d, p, 0);
    match e
    case Int(v) => AtParts(d, p, [TYPE_INT], Put4(Unsigned(v, WORD)));
    case Long(v) => LongPrints(d, p, 0, v);
    case Str(s) => StringPrints(d, p, 0, s);
    case List(items) => AtParts(d, p, [TYPE_LIST, |items|], EncodeAll(items));
  }

  /**
   * Every encoded event, nested lists included, with at least one byte of room: the result is 0 exactly when the room
   * meets the event's need, and then the output is the whole rendering and the event's bytes are consumed; otherwise
   * the result is 1 and the output is a prefix of the rendering.
   */
  lemma {:induction false} EventPrints(d: seq<byte>, p: nat, room: nat, e: Event)
    requires WellFormed(e) && At(d, p, Encode(e)) && room >= 1
    ensures PrintsAs(Print(d, p, room), Text(e), room, Need(e) <= room, p + |Encode(e)|)
    decreases e, 1
  {
    if e.List? {
      AtParts(d, p, [TYPE_LIST, |e.items|], EncodeAll(e.items));
      ItemsPrint(d, p + 2, room - 1, e.items);
    } else {
      LeafPrints(d, p, room, e);
    }
  }

  /** What stands for an item in its list: its rendering, and a comma unless it is the last. */
  function ItemText(e: Event, last: bool): seq<byte> {
    if last then Text(e) else Text(e) + [COMMA]
  }

  lemma ItemPrints(d: seq<byte>, p: nat, room: nat, e: Event, last: bool)
    requires WellFormed(e) && At(d, p, Encode(e)) && room >= 1
    ensures PrintsAs(PrintItem(d, p, room, last), ItemText(e, last), room,
      if last then Need(e) <= room else |Text(e)| + 1 <= room, p + |Encode(e)|)
    decreases e, 2
  {
    EventPrints(d, p, room, e);
  }

  lemma ItemsTextByItem(items: seq<Event>)
    requires items != []
    ensures ItemsText(items) == ItemText(items[0], |items| == 1) + ItemsText(items[1..])
  {}

  lemma ItemsJoin(r: Printed, t: Printed, text: seq<byte>, rest: seq<byte>, room: nat, next: nat)
    requires r.result == 0 && r.out == text && r.room == room - |text| >= 0
    requires PrintsAs(t, rest, r.room, |rest| <= r.room, next)
    ensures PrintsAs(t.(out := r.out + t.out), text + rest, room, |text + rest| <= room, next)
  {
    assert t.out == rest[..|t.out|];
    assert (text + rest)[..|text| + |t.out|] == text + t.out;
  }

  lemma {:induction false} ItemsPrint(d: seq<byte>, p: nat, room: nat, items: seq<Event>)
    requires forall i :: 0 <= i < |items| ==> WellFormed(items[i])
    requires p <= |d| && At(d, p, EncodeAll(items))
    ensures PrintsAs(PrintItems(d, p, room, |items|), ItemsText(items), room, |ItemsText(items)| <= room,
      p + |EncodeAll(items)|)
    decreases items, 0
  {
    if items != [] {
      var e, rest := items[0], items[1..];
      AtParts(d, p, Encode(e), EncodeAll(rest));
      ItemsTextByItem(items);
      if room == 0 {
        NoRoomPrints(d, p, e);
        if |items| == 1 {
          assert PrintItems(d, Print(d, p, 0).pos, 0, 0).out == [];
        }
      } else {
        ItemPrints(d, p, room, e, |items| == 1);
        var r := PrintItem(d, p, room, |items| == 1);
        if r.result == 0 {
          ItemsPrint(d, r.pos, r.room, rest);
          ItemsJoin(r, PrintItems(d, r.pos, r.room, |rest|), ItemText(e, |items| == 1), ItemsText(rest), room,
            p + |EncodeAll(items)|);
        }
      }
    }
  }

  // ---------- the code

  /** snprintf of a text: at most room - 1 characters and a NUL, and the length the text would need. */
  method SNPrintf(buf: array<byte>, o: nat, room: nat, text: seq<byte>) returns (count: nat)
    requires o + room <= buf.Length
    modifies buf
    ensures count == |text|
    ensures |text| < room ==> buf[o..o + |text|] == text && buf[o + |text|] == NUL
    ensures forall k :: 0 <= k < buf.Length && !(o <= k < o + room) ==> buf[k] == old(buf[k])
  {
    count := |text|;
    if room > 0 {
      var n := if |text| < room then |text| else room - 1;
      forall i | 0 <= i < n {
        buf[o + i] := text[i];
      }
      buf[o + n] := NUL;
    }
  }

  method CopyOut(buf: array<byte>, o: nat, s: seq<byte>)
    requires o + |s| <= buf.Length
    modifies buf
    ensures buf[o..o + |s|] == s
    ensures forall k :: 0 <= k < buf.Length && !(o <= k < o + |s|) ==> buf[k] == old(buf[k])
  {
    forall i | 0 <= i < |s| {
      buf[o + i] := s[i];
    }
  }

  /** Where the pointers stand after a call that has done what `r` says from o on. */
  ghost predicate Did(r: Printed, buf: array<byte>, o: nat, result: int, pos: nat, end: nat, left: nat)
    reads buf
  {
    && result == r.result && pos == r.pos && left == r.room
    && o <= end <= buf.Length && buf[o..end] == r.out
  }

  /** A number: nothing counts as emitted unless all of it fits with a byte to spare. */
  method EmitNumber(buf: array<byte>, o: nat, room: nat, text: seq<byte>, next: nat)
      returns (result: int, end: nat, left: nat)
    requires o + room <= buf.Length
    modifies buf
    ensures Did(PrintNumber(text, next, room), buf, o, result, next, end, left)
    ensures end + left == o + room
    ensures forall k :: 0 <= k < buf.Length && !(o <= k < o + room) ==> buf[k] == old(buf[k])
  {
    var outCount := SNPrintf(buf, o, room, text);
    if outCount < room {
      return 0, o + outCount, room - outCount;
    }
    return 1, o, room;
  }

  method EmitByte(buf: array<byte>, o: nat, room: nat, b: byte) returns (ok: bool, end: nat, left: nat)
    requires o + room <= buf.Length
    modifies buf
    ensures ok == (room > 0)
    ensures ok ==> end == o + 1 && left == room - 1 && buf[o] == b
    ensures !ok ==> end == o && left == room
    ensures forall k :: 0 <= k < buf.Length && !(ok && k == o) ==> buf[k] == old(buf[k])
  {
    if room > 0 {
      buf[o] := b;
      return true, o + 1, room - 1;
    }
    return false, o, room;
  }

  /** A string of n bytes: as much of it as there is room for. */
  method EmitString(d: seq<byte>, p: nat, n: nat, buf: array<byte>, o: nat, room: nat)
      returns (result: int, pos: nat, end: nat, left: nat)
    requires p + n <= |d| && o + room <= buf.Length
    modifies buf
    ensures Did(if n < room then Printed(0, p + n, d[p..p + n], room - n)
      else if room > 0 then Printed(1, p, d[p..p + room], 0) else Printed(0, p + n, [], room),
      buf, o, result, pos, end, left)
    ensures end + left == o + room
    ensures forall k :: 0 <= k < buf.Length && !(o <= k < o + room) ==> buf[k] == old(buf[k])
  {
    if n < room {
      CopyOut(buf, o, d[p..p + n]);
      return 0, p + n, o + n, room - n;
    } else if room > 0 {
      CopyOut(buf, o, d[p..p + room]);
      return 1, p, o + room, 0;
    }
    assert buf[o..o] == [];
    return 0, p + n, o, room;
  }

  /** A list of `count` items, from its opening bracket. */
  method EmitList(d: seq<byte>, p: nat, count: nat, buf: array<byte>, o: nat, room: nat)
      returns (result: int, pos: nat, end: nat, left: nat)
    requires p <= |d| && o + room <= buf.Length
    modifies buf
    ensures room == 0 ==> Did(Printed(1, p, [], 0), buf, o, result, pos, end, left)
    ensures room > 0 ==>
      var r := PrintItems(d, p, room - 1, count); Did(r.(out := [OPEN] + r.out), buf, o, result, pos, end, left)
    ensures end + left == o + room
    ensures forall k :: 0 <= k < buf.Length && !(o <= k < o + room) ==> buf[k] == old(buf[k])
    decreases |d| - p, 4
  {
    var ok;
    ok, end, left := EmitByte(buf, o, room, OPEN);
    if !ok {
      assert buf[o..o] == [];
      return 1, p, o, room;
    }
    assert buf[o..o + 1] == [OPEN];
    result, pos, end, left := PrintList(d, p, buf, end, left, count);
    assert buf[o] == OPEN;
    assert buf[o..end] == [OPEN] + buf[o + 1..end];
  }

  /** android_log_printBinaryEvent. */
  method PrintBinaryEvent(d: seq<byte>, p: nat, buf: array<byte>, o: nat, room: nat)
      returns (result: int, pos: nat, end: nat, left: nat)
    requires p <= |d| && o + room <= buf.Length
    modifies buf
    ensures Did(Print(d, p, room), buf, o, result, pos, end, left)
    ensures end + left == o + room
    ensures forall k :: 0 <= k < buf.Length && !(o <= k < o + room) ==> buf[k] == old(buf[k])
    decreases |d| - p, 0
  {
    assert buf[o..o] == [];
    result, pos, end, left := -1, p, o, room;
    if |d| - p < 1 {
      return;
    }
    var kind := d[p];
    if kind == TYPE_INT {
      if |d| - (p + 1) < 4 {
        return;
      }
      result, end, left := EmitNumber(buf, o, room, Decimal(Signed(Get4(d, p + 1), WORD)), p + 5);
      pos := p + 5;
    } else if kind == TYPE_LONG {
      if |d| - (p + 1) < 8 {
        return;
      }
      result, end, left := EmitNumber(buf, o, room, Decimal(Signed(Get8(d, p + 1), WORD * WORD)), p + 9);
      pos := p + 9;
    } else if kind == TYPE_STRING {
      if |d| - (p + 1) < 4 {
        return;
      }
      var strLen := Get4(d, p + 1);
      if |d| - (p + 5) < strLen {
        return;
      }
      result, pos, end, left := EmitString(d, p + 5, strLen, buf, o, room);
    } else if kind == TYPE_LIST {
      if |d| - (p + 1) < 1 {
        return;
      }
      result, pos, end, left := EmitList(d, p + 2, d[p + 1], buf, o, room);
    }
  }

  method PrintItemAt(d: seq<byte>, p: nat, buf: array<byte>, o: nat, room: nat, last: bool)
      returns (result: int, pos: nat, end: nat, left: nat)
    requires p <= |d| && o + room <= buf.Length
    modifies buf
    ensures Did(PrintItem(d, p, room, last), buf, o, result, pos, end, left)
    ensures end + left == o + room
    ensures forall k :: 0 <= k < buf.Length && !(o <= k < o + room) ==> buf[k] == old(buf[k])
    decreases |d| - p, 1
  {
    result, pos, end, left := PrintBinaryEvent(d, p, buf, o, room);
    if result != 0 || last {
      return;
    }
    ghost var item := buf[o..end];
    var ok;
    ok, end, left := EmitByte(buf, end, left, COMMA);
    if !ok {
      return 1, pos, end, left;
    }
    assert buf[o..end] == item + [COMMA];
  }

  /** What the loop has still to do, with n items to go and `done` emitted. */
  ghost predicate ItemsToGo(all: Printed, d: seq<byte>, pos: nat, left: nat, n: nat, done: seq<byte>) {
    pos <= |d| && var t := PrintItems(d, pos, left, n); all == t.(out := done + t.out)
  }

  lemma ItemGone(all: Printed, d: seq<byte>, pos: nat, left: nat, n: nat, done: seq<byte>)
    requires ItemsToGo(all, d, pos, left, n, done) && n > 0
    ensures var r := PrintItem(d, pos, left, n == 1);
      && (r.result != 0 ==> all == r.(out := done + r.out))
      && (r.result == 0 ==> ItemsToGo(all, d, r.pos, r.room, n - 1, done + r.out))
  {
    var r := PrintItem(d, pos, left, n == 1);
    if r.result == 0 {
      var t := PrintItems(d, r.pos, r.room, n - 1);
      assert done + (r.out + t.out) == (done + r.out) + t.out;
    }
  }

  lemma Joined(buf: array<byte>, o: nat, mid: nat, end: nat, done: seq<byte>, part: seq<byte>)
    requires o <= mid <= end <= buf.Length && buf[o..mid] == done && buf[mid..end] == part
    ensures buf[o..end] == done + part
  {}

  /** The item loop of a list. */
  method PrintEach(d: seq<byte>, p: nat, buf: array<byte>, o: nat, room: nat, count: nat)
      returns (result: int, pos: nat, end: nat, left: nat)
    requires p <= |d| && o + room <= buf.Length
    modifies buf
    ensures o <= end && end + left == o + room && p <= pos <= |d|
    ensures result != 0 ==> Did(PrintItems(d, p, room, count), buf, o, result, pos, end, left)
    ensures result == 0 ==> ItemsToGo(PrintItems(d, p, room, count), d, pos, left, 0, buf[o..end])
    ensures forall k :: 0 <= k < buf.Length && !(o <= k < o + room) ==> buf[k] == old(buf[k])
    decreases |d| - p, 2
  {
    result, pos, end, left := 0, p, o, room;
    var i := 0;
    ghost var all := PrintItems(d, p, room, count);
    ghost var done: seq<byte> := [];
    while i < count && result == 0
      invariant 0 <= i <= count && p <= pos <= |d| && o <= end && end + left == o + room
      invariant forall k :: 0 <= k < buf.Length && !(o <= k < o + room) ==> buf[k] == old(buf[k])
      invariant buf[o..end] == done
      invariant result == 0 ==> ItemsToGo(all, d, pos, left, count - i, done)
      invariant result != 0 ==> all == Printed(result, pos, done, left)
    {
      ItemGone(all, d, pos, left, count - i, done);
      ghost var r, start := PrintItem(d, pos, left, i == count - 1), end;
      result, pos, end, left := PrintItemAt(d, pos, buf, end, left, i == count - 1);
      Joined(buf, o, start, end, done, r.out);
      done := done + r.out;
      i := i + 1;
    }
  }

  /** The item loop of a list and its closing bracket. */
  method PrintList(d: seq<byte>, p: nat, buf: array<byte>, o: nat, room: nat, count: nat)
      returns (result: int, pos: nat, end: nat, left: nat)
    requires p <= |d| && o + room <= buf.Length
    modifies buf
    ensures Did(PrintItems(d, p, room, count), buf, o, result, pos, end, left)
    ensures end + left == o + room
    ensures forall k :: 0 <= k < buf.Length && !(o <= k < o + room) ==> buf[k] == old(buf[k])
    decreases |d| - p, 3
  {
    result, pos, end, left := PrintEach(d, p, buf, o, room, count);
    if result != 0 {
      return;
    }
    ghost var done, start := buf[o..end], end;
    var ok;
    ok, end, left := EmitByte(buf, end, left, CLOSE);
    if ok {
      Joined(buf, o, start, end, done, [CLOSE]);
    } else {
      assert done + [] == done;
      result := 1;
    }
  }

  // ---------- the caller

  /** The message left in the buffer: all of the rendering, or what was emitted with its last byte replaced by a
      mark. */
  function Message(r: Printed): seq<byte> {
    if r.result == 0 then r.out
    else if r.out == [] then [MARK] else r.out[..|r.out| - 1] + [MARK]
  }

  function TagText(tagIndex: nat): seq<byte> {
    [OPEN] + Decimal(Signed(tagIndex, WORD)) + [CLOSE]
  }

  /** Marks a message that was cut off, and terminates it. */
  method FinishMessage(buf: array<byte>, message: nat, end: nat, room: nat, result: int, ghost out: seq<byte>)
      returns (end': nat, room': nat)
    requires message <= end && end + room < buf.Length && buf[message..end] == out
    requires out == [] ==> room > 0
    requires result == 0 || result == 1
    modifies buf
    ensures message <= end' && end' + room' == end + room && buf[end'] == NUL
    ensures buf[message..end'] == Message(Printed(result, 0, out, room))
    ensures buf[..message] == old(buf[..message])
  {
    end', room' := end, room;
    if result == 1 {
      if end > message {
        buf[end - 1] := MARK;
        assert buf[message..end] == out[..|out| - 1] + [MARK];
      } else {
        buf[end] := MARK;
        end', room' := end + 1, room - 1;
        assert buf[message..end'] == [MARK];
      }
    }
    buf[end'] := NUL;
  }

  /** The generated tag at the front of the buffer. */
  method GenerateTag(buf: array<byte>, tagIndex: nat) returns (text: seq<byte>, used: nat)
    requires |TagText(tagIndex)| < buf.Length
    modifies buf
    ensures text == TagText(tagIndex) && used == |text| + 1 && buf[..used] == text + [NUL]
  {
    text := TagText(tagIndex);
    var tagLen := SNPrintf(buf, 0, buf.Length, text);
    used := tagLen + 1;
    assert buf[..used] == buf[0..tagLen] + [buf[tagLen]];
  }

  /** Prints the event at 4 behind the first `message` bytes of the buffer, and finishes the message. */
  method PrintMessage(msg: seq<byte>, buf: array<byte>, message: nat) returns (err: int, messageLen: nat)
    requires |msg| >= 4 && message + 2 <= buf.Length
    modifies buf
    ensures var r := Print(msg, 4, buf.Length - message - 1);
      && err == (if r.result < 0 then -1 else 0)
      && (err == 0 ==>
            && message + messageLen < buf.Length
            && buf[message..message + messageLen] == Message(r) && buf[message + messageLen] == NUL)
    ensures buf[..message] == old(buf[..message])
  {
    var messageBufLen := buf.Length - message;
    RoomConserved(msg, 4, messageBufLen - 1);
    ghost var r := Print(msg, 4, messageBufLen - 1);
    var result, pos, outBuf, outRemaining := PrintBinaryEvent(msg, 4, buf, message, messageBufLen - 1);
    assert buf[..message] == old(buf[..message]);
    if result < 0 {
      return -1, 0;
    }
    outBuf, outRemaining := FinishMessage(buf, message, outBuf, outRemaining, result, r.out);
    messageLen := outBuf - message;
    assert messageLen == messageBufLen - 1 - outRemaining;
    err := 0;
  }

  /**
   * android_log_processBinaryLogBuffer: `tag` is the name the tag map has for the event, if any; otherwise the tag is
   * generated at the front of the buffer and the message goes behind it. The length it asserts always agrees.
   */
  method ProcessBinaryLogBuffer(msg: seq<byte>, tag: Option<seq<byte>>, messageBuf: array<byte>)
      returns (err: int, entryTag: seq<byte>, message: nat, messageLen: nat)
    requires messageBuf.Length >= 2
    requires |msg| >= 4 && tag == None ==> |TagText(Get4(msg, 0))| + 3 <= messageBuf.Length
    modifies messageBuf
    ensures |msg| < 4 ==> err == -1
    ensures |msg| >= 4 ==>
      && message == (if tag.Some? then 0 else |TagText(Get4(msg, 0))| + 1)
      && entryTag == (if tag.Some? then tag.value else TagText(Get4(msg, 0)))
      && var r := Print(msg, 4, messageBuf.Length - message - 1);
        && err == (if r.result < 0 then -1 else 0)
        && (err == 0 ==>
              && message + messageLen < messageBuf.Length
              && messageBuf[message..message + messageLen] == Message(r) && messageBuf[message + messageLen] == NUL)
        && (tag == None ==> messageBuf[..message] == entryTag + [NUL])
  {
    entryTag, message, messageLen := [], 0, 0;
    if |msg| < 4 {
      return -1, entryTag, message, messageLen;
    }
    if tag.Some? {
      entryTag := tag.value;
    } else {
      entryTag, message := GenerateTag(messageBuf, Get4(msg, 0));
    }
    err, messageLen := PrintMessage(msg, messageBuf, message);
  }

  /** For every encoded event and buffer: the message is the rendering if it fits, or else a marked prefix of it. */
  lemma MessageOfEvent(msg: seq<byte>, e: Event, room: nat)
    requires WellFormed(e) && At(msg, 4, Encode(e)) && room >= 1
    ensures var r := Print(msg, 4, room);
      && r.result >= 0 && |Message(r)| <= room
      && (Need(e) <= room ==> Message(r) == Text(e))
      && (Need(e) > room ==>
            && |Message(r)| > 0 && Message(r)[|Message(r)| - 1] == '!' as int
            && Message(r)[..|Message(r)| - 1] <= Text(e))
  {
    EventPrints(msg, 4, room, e);
    RoomConserved(msg, 4, room);
  }
}
