/** What the printer of binary log events makes of an event, said of the bytes and characters themselves. */
module BinaryText {
  import opened Wrappers
  import opened BinaryEvent

  predicate IsDigit(c: byte) {
    '0' as int <= c <= '9' as int
  }

  /** The number a row of decimal digits stands for. */
  function Value(s: seq<byte>): int {
    if s == [] then 0 else 10 * Value(s[..|s| - 1]) + (s[|s| - 1] - '0' as int)
  }

  /** Digits, without a zero in front of others. */
  predicate IsNumeral(s: seq<byte>) {
    s != [] && (forall k :: 0 <= k < |s| ==> IsDigit(s[k])) && (|s| > 1 ==> s[0] != '0' as int)
  }

  /** A numeral, behind a minus if the number is negative. */
  predicate Spells(s: seq<byte>, v: int) {
    if v < 0 then s != [] && s[0] == '-' as int && IsNumeral(s[1..]) && Value(s[1..]) == -v
    else IsNumeral(s) && Value(s) == v
  }

  lemma {:induction false} DigitsAreNumeral(n: nat)
    ensures IsNumeral(Digits(n)) && Value(Digits(n)) == n && (n > 0 ==> Digits(n)[0] != '0' as int)
  {
    if n >= 10 {
      DigitsAreNumeral(n / 10);
      assert Digits(n)[..|Digits(n)| - 1] == Digits(n / 10);
      assert Digits(n)[0] == Digits(n / 10)[0];
    } else {
      assert Value([]) == 0;
    }
  }

  lemma {:induction false} NumeralIsDigits(s: seq<byte>)
    requires IsNumeral(s)
    ensures Value(s) >= 0 && Digits(Value(s)) == s && (s[0] != '0' as int ==> Value(s) > 0)
  {
    var front, c := s[..|s| - 1], s[|s| - 1];
    assert s == front + [c] && IsDigit(c);
    if front == [] {
      assert Value(front) == 0;
    } else {
      assert front[0] == s[0];
      NumeralIsDigits(front);
    }
  }

  /** "%d" and "%lld" print the one text that spells the number. */
  lemma DecimalExactly(v: int, s: seq<byte>)
    ensures s == Decimal(v) <==> Spells(s, v)
  {
    var n := if v < 0 then -v else v;
    DigitsAreNumeral(n);
    if v < 0 && Spells(s, v) {
      NumeralIsDigits(s[1..]);
      assert s == [MINUS] + s[1..];
    } else if Spells(s, v) {
      NumeralIsDigits(s);
    }
  }

  /** v is the number of `range` values, half of them negative, that is n or n less the range. */
  predicate TwosComplement(n: int, range: nat, v: int) {
    -(range as int) <= 2 * v < range && (v == n || v == n - range)
  }

  /** Bits read as a signed number. */
  lemma SignedExactly(n: nat, range: nat, v: int)
    requires n < range
    ensures v == Signed(n, range) <==> TwosComplement(n, range, v)
  {}

  /** What four bytes stand for, the lowest first. */
  function Word(a: byte, b: byte, c: byte, e: byte): int {
    a + b * 0x100 + c * 0x1_0000 + e * 0x100_0000
  }

  lemma WordIs(d: seq<byte>, p: nat)
    requires p + 4 <= |d|
    ensures Get4(d, p) == Word(d[p], d[p + 1], d[p + 2], d[p + 3])
  {}

  /** An int is a 0 and four bytes, and prints as the number of 32 bits that they make in two's complement. */
  lemma IntPrinted(d: seq<byte>, p: nat, room: nat, v: int, text: seq<byte>)
    requires p + 5 <= |d| && d[p] == 0
    ensures TwosComplement(Word(d[p + 1], d[p + 2], d[p + 3], d[p + 4]), 0x1_0000_0000, v) && Spells(text, v) ==>
      Print(d, p, room) ==
      if |text| < room then Printed(0, p + 5, text, room - |text|) else Printed(1, p + 5, [], room)
  {
    WordIs(d, p + 1);
    SignedExactly(Get4(d, p + 1), WORD, v);
    DecimalExactly(v, text);
  }

  /** Eight bytes, the lowest first. */
  function LongWord(d: seq<byte>, p: nat): int
    requires p + 8 <= |d|
  {
    Word(d[p], d[p + 1], d[p + 2], d[p + 3]) + Word(d[p + 4], d[p + 5], d[p + 6], d[p + 7]) * 0x1_0000_0000
  }

  lemma LongWordIs(d: seq<byte>, p: nat)
    requires p + 8 <= |d|
    ensures Get8(d, p) == LongWord(d, p) < 0x1_0000_0000_0000_0000
  {
    WordIs(d, p);
    WordIs(d, p + 4);
  }

  /** A long is a 1 and eight bytes. */
  lemma LongPrinted(d: seq<byte>, p: nat, room: nat, v: int, text: seq<byte>)
    requires p + 9 <= |d| && d[p] == 1
    ensures TwosComplement(LongWord(d, p + 1), 0x1_0000_0000_0000_0000, v) && Spells(text, v) ==>
      Print(d, p, room) ==
      if |text| < room then Printed(0, p + 9, text, room - |text|) else Printed(1, p + 9, [], room)
  {
    LongWordIs(d, p + 1);
    SignedExactly(Get8(d, p + 1), WORD * WORD, v);
    DecimalExactly(v, text);
  }

  /** A string is a 2, its length, and its bytes, which print as they are. */
  lemma StringPrinted(d: seq<byte>, p: nat, room: nat, text: seq<byte>)
    requires p + 5 + |text| <= |d| && d[p] == 2 && d[p + 5..p + 5 + |text|] == text
    requires Word(d[p + 1], d[p + 2], d[p + 3], d[p + 4]) == |text| && room > 0
    ensures Print(d, p, room) ==
      if |text| < room then Printed(0, p + 5 + |text|, text, room - |text|) else Printed(1, p + 5, text[..room], 0)
  {
    WordIs(d, p + 1);
    assert room <= |text| ==> d[p + 5..p + 5 + room] == text[..room];
  }

  /** Where item i of a list begins in its text, behind the opening bracket and the items before. */
  ghost function Offset(items: seq<Event>, i: nat): nat
    requires i <= |items|
  {
    if i == 0 then 0 else |Text(items[0])| + 1 + Offset(items[1..], i - 1)
  }

  /** These bytes stand at o, with that one behind them. */
  predicate Stands(t: seq<byte>, o: nat, text: seq<byte>, after: byte) {
    o + |text| < |t| && t[o..o + |text|] == text && t[o + |text|] == after
  }

  lemma StandsBehind(head: seq<byte>, u: seq<byte>, o: nat, text: seq<byte>, after: byte)
    requires Stands(u, o, text, after)
    ensures Stands(head + u, |head| + o, text, after)
  {
    var t := head + u;
    assert t[|head|..] == u;
    assert t[|head| + o..|head| + o + |text|] == u[o..o + |text|];
  }

  /** What follows an item of a list in its text. */
  function Behind(last: bool): byte {
    if last then ']' as int else ',' as int
  }

  lemma StandsInFront(text: seq<byte>, c: byte, rest: seq<byte>)
    ensures Stands(text + [c] + rest, 0, text, c)
  {}

  lemma FirstInPlace(items: seq<Event>)
    requires items != []
    ensures Stands(ItemsText(items), 0, Text(items[0]), Behind(|items| == 1))
  {
    var head := Text(items[0]);
    if |items| == 1 {
      StandsInFront(head, CLOSE, []);
      assert head + [CLOSE] + [] == head + [CLOSE];
    } else {
      StandsInFront(head, COMMA, ItemsText(items[1..]));
    }
  }

  /** Every item of a list stands in the list's text as it prints alone, with a comma behind it, or the closing bracket
      if it is the last. */
  lemma {:induction false} ItemInPlace(items: seq<Event>, i: nat)
    requires i < |items|
    ensures Stands(ItemsText(items), Offset(items, i), Text(items[i]), Behind(i + 1 == |items|))
  {
    if i == 0 {
      FirstInPlace(items);
    } else {
      var rest := items[1..];
      ItemInPlace(rest, i - 1);
      ItemsTextByItem(items);
      StandsBehind(ItemText(items[0], false), ItemsText(rest), Offset(rest, i - 1), Text(rest[i - 1]),
        Behind(i == |rest|));
    }
  }

  lemma {:induction false} ItemsLength(items: seq<Event>)
    requires items != []
    ensures |ItemsText(items)| == Offset(items, |items|)
  {
    ItemsTextByItem(items);
    if |items| > 1 {
      ItemsLength(items[1..]);
    } else {
      assert Offset(items[1..], 0) == 0;
    }
  }

  lemma InPlaceInList(items: seq<Event>, i: nat)
    requires i < |items|
    ensures Stands(Text(List(items)), 1 + Offset(items, i), Text(items[i]), Behind(i + 1 == |items|))
  {
    ItemInPlace(items, i);
    StandsBehind([OPEN], ItemsText(items), Offset(items, i), Text(items[i]), Behind(i + 1 == |items|));
  }

  /** A list prints as an opening bracket, its items in their places, each with its comma or the closing bracket behind
      it, and nothing else. */
  lemma ListText(items: seq<Event>)
    ensures Text(List(items))[0] == '[' as int
    ensures items == [] ==> Text(List(items))[1..] == [']' as int]
    ensures items != [] ==> |Text(List(items))| == 1 + Offset(items, |items|)
    ensures forall i: nat :: i < |items| ==>
      Stands(Text(List(items)), 1 + Offset(items, i), Text(items[i]), Behind(i + 1 == |items|))
  {
    assert Text(List(items))[1..] == ItemsText(items);
    if items != [] {
      ItemsLength(items);
    }
    forall i: nat | i < |items|
      ensures Stands(Text(List(items)), 1 + Offset(items, i), Text(items[i]), Behind(i + 1 == |items|))
    {
      InPlaceInList(items, i);
    }
  }

  /** A list is a 3, the number of its items, and the items, and prints as its text if there is room. */
  lemma ListPrinted(d: seq<byte>, p: nat, room: nat, items: seq<Event>)
    requires WellFormed(List(items)) && room >= 1
    requires p + 2 <= |d| && d[p] == 3 && d[p + 1] == |items| && At(d, p + 2, EncodeAll(items))
    ensures PrintsAs(Print(d, p, room), Text(List(items)), room, |Text(List(items))| <= room,
      p + 2 + |EncodeAll(items)|)
  {
    var n := |EncodeAll(items)|;
    assert d[p..p + 2 + n] == d[p..p + 2] + d[p + 2..p + 2 + n];
    assert d[p..p + 2] == [3, |items|];
    EventPrints(d, p, room, List(items));
  }

  /** The generated tag spells the event's number as an int, in brackets. */
  lemma TagTextExactly(tagIndex: nat, v: int, text: seq<byte>)
    requires tagIndex < 0x1_0000_0000 && -0x8000_0000 <= v < 0x8000_0000
    requires v == tagIndex || v == tagIndex - 0x1_0000_0000
    ensures text == TagText(tagIndex) <==>
      |text| >= 2 && text[0] == '[' as int && text[|text| - 1] == ']' as int && Spells(text[1..|text| - 1], v)
  {
    SignedExactly(tagIndex, WORD, v);
    DecimalExactly(v, Decimal(v));
    var tag := TagText(tagIndex);
    assert tag[1..|tag| - 1] == Decimal(v);
    if |text| >= 2 && text[0] == OPEN && text[|text| - 1] == CLOSE && Spells(text[1..|text| - 1], v) {
      DecimalExactly(v, text[1..|text| - 1]);
      assert text == [OPEN] + text[1..|text| - 1] + [CLOSE];
    }
  }
}
