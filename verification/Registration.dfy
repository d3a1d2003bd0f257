/** How a client's event bitmap reaches the server: the client prints it in decimal and sends as many characters as an
    int has bytes, and the server reads a number from the characters it finds. */
module Registration {

  const NUL := '\0'

  /** sizeof(int): the length of every registration. */
  const PAYLOAD := 4

  predicate IsDigit(c: char) {
    '0' <= c <= '9'
  }

  predicate IsSpace(c: char) {
    c == ' ' || '\t' <= c <= '\r'
  }

  predicate Int32(n: int) {
    -0x8000_0000 <= n < 0x8000_0000
  }

  function DigitOf(n: nat): (c: char)
    requires n < 10
    ensures IsDigit(c) && ValueOf(c) == n
  {
    '0' + n as char
  }

  function ValueOf(c: char): nat
    requires IsDigit(c)
  {
    c as int - '0' as int
  }

  // ---------- printing

  function Digits(n: nat): (s: string)
    ensures s != "" && forall i :: 0 <= i < |s| ==> IsDigit(s[i])
  {
    if n < 10 then [DigitOf(n)] else Digits(n / 10) + [DigitOf(n % 10)]
  }

  /** sprintf("%d"). */
  function Decimal(n: int): (s: string)
    ensures s != "" && forall i :: 0 <= i < |s| ==> s[i] != NUL
  {
    if n < 0 then "-" + Digits(-n) else Digits(n)
  }

  // ---------- reading

  function SkipSpace(s: string): string {
    if s != "" && IsSpace(s[0]) then SkipSpace(s[1..]) else s
  }

  /** The number that the digits at the front make behind n. */
  function Number(s: string, n: nat): nat {
    if s == "" || !IsDigit(s[0]) then n else Number(s[1..], n * 10 + ValueOf(s[0]))
  }

  function Signed(s: string): int {
    if s == "" then 0
    else if s[0] == '-' then 0 - Number(s[1..], 0)
    else Number(if s[0] == '+' then s[1..] else s, 0)
  }

  /** strtol with a 64-bit long, stored in an int. */
  function Atoi(s: string): (r: int)
    ensures Int32(r)
  {
    var n := Signed(SkipSpace(s));
    var l := if n > 0x7FFF_FFFF_FFFF_FFFF then 0x7FFF_FFFF_FFFF_FFFF
             else if n < -0x8000_0000_0000_0000 then -0x8000_0000_0000_0000 else n;
    var m := l % 0x1_0000_0000;
    if m < 0x8000_0000 then m else m - 0x1_0000_0000
  }

  lemma Wrapped(n: int)
    requires Int32(n)
    ensures n % 0x1_0000_0000 == if n >= 0 then n else n + 0x1_0000_0000
  {
  }

  /** A string that begins with a number of int's range. */
  lemma AtoiIs(s: string, n: int)
    requires s != "" && !IsSpace(s[0]) && Signed(s) == n && Int32(n)
    ensures Atoi(s) == n
  {
    Wrapped(n);
  }

  /** Reading printed digits and then some more. */
  lemma {:induction false} NumberOfDigits(n: nat, rest: string)
    ensures Number(Digits(n) + rest, 0) == Number(rest, n)
  {
    if n < 10 {
      assert (Digits(n) + rest)[1..] == rest;
    } else {
      var c := DigitOf(n % 10);
      assert Digits(n) + rest == Digits(n / 10) + ([c] + rest);
      NumberOfDigits(n / 10, [c] + rest);
      assert ([c] + rest)[1..] == rest;
    }
  }

  lemma SignedOfDecimal(n: int, rest: string)
    ensures (Decimal(n) + rest)[0] == Decimal(n)[0] && !IsSpace(Decimal(n)[0])
    ensures Signed(Decimal(n) + rest) == if n < 0 then 0 - Number(rest, -n) else Number(rest, n)
  {
    if n < 0 {
      assert Decimal(n) + rest == "-" + (Digits(-n) + rest);
      assert ("-" + (Digits(-n) + rest))[1..] == Digits(-n) + rest;
      NumberOfDigits(-n, rest);
    } else {
      NumberOfDigits(n, rest);
    }
  }

  /** What is printed is read back, if no digit follows. */
  lemma AtoiOfDecimal(n: int, rest: string)
    requires Int32(n) && (rest != "" ==> !IsDigit(rest[0]))
    ensures Atoi(Decimal(n) + rest) == n
  {
    SignedOfDecimal(n, rest);
    AtoiIs(Decimal(n) + rest, n);
  }

  // ---------- a registration

  /** What clientRegister2Server sends: the first characters of its buffer, which holds the text, its NUL, and whatever
      was there before. */
  function Payload(bitmap: int, stale: string): (s: string)
    requires |stale| >= PAYLOAD
    ensures |s| == PAYLOAD
  {
    (Decimal(bitmap) + [NUL] + stale)[..PAYLOAD]
  }

  /** What the server takes it for, with other memory behind the characters received. */
  function Received(bitmap: int, stale: string, behind: string): int
    requires |stale| >= PAYLOAD
  {
    Atoi(Payload(bitmap, stale) + behind)
  }

  lemma {:induction false} DigitsLength(n: nat)
    ensures |Digits(n)| <= 2 <==> n < 100
    ensures |Digits(n)| <= 3 <==> n < 1000
  {
    assert |Digits(n)| == 1 <==> n < 10;
    if n >= 10 {
      assert |Digits(n / 10)| == 1 <==> n / 10 < 10;
      if n >= 100 {
        assert |Digits(n / 10 / 10)| == 1 <==> n / 10 / 10 < 10;
      }
    }
  }

  lemma TextFits(bitmap: int)
    ensures |Decimal(bitmap)| < PAYLOAD <==> -100 < bitmap < 1000
  {
    DigitsLength(if bitmap < 0 then -bitmap else bitmap);
  }

  /** A text that goes out with its NUL arrives, whatever surrounds it. */
  lemma ShortArrives(bitmap: int, stale: string, behind: string)
    requires |stale| >= PAYLOAD && |Decimal(bitmap)| < PAYLOAD
    ensures Received(bitmap, stale, behind) == bitmap
  {
    TextFits(bitmap);
    var text := Decimal(bitmap);
    var rest := ([NUL] + stale)[..PAYLOAD - |text|];
    assert Payload(bitmap, stale) == text + rest;
    assert Payload(bitmap, stale) + behind == text + (rest + behind);
    AtoiOfDecimal(bitmap, rest + behind);
  }

  /** The first digits of a number are those of a smaller one. */
  lemma {:induction false} FirstDigits(n: nat, k: nat) returns (m: nat)
    requires 0 < k < |Digits(n)|
    ensures Digits(n)[..k] == Digits(m) && 0 < m < n
  {
    if k == |Digits(n)| - 1 {
      m := n / 10;
      assert Digits(n)[..k] == Digits(m);
    } else {
      m := FirstDigits(n / 10, k);
      assert Digits(n)[..k] == Digits(n / 10)[..k];
    }
  }

  lemma FirstCharacters(n: int) returns (m: int)
    requires |Decimal(n)| > PAYLOAD
    ensures Decimal(n)[..PAYLOAD] == Decimal(m) && m != n && (if n < 0 then n < m < 0 else 0 <= m < n)
  {
    if n < 0 {
      var digits: int := FirstDigits(-n, PAYLOAD - 1);
      m := -digits;
      assert Decimal(n)[..PAYLOAD] == "-" + Digits(-n)[..PAYLOAD - 1];
    } else {
      m := FirstDigits(n, PAYLOAD);
    }
  }

  /** A longer text is cut, and what is left is another number. */
  lemma LongIsCut(bitmap: int, stale: string)
    requires |stale| >= PAYLOAD && Int32(bitmap) && |Decimal(bitmap)| > PAYLOAD
    ensures Received(bitmap, stale, "") != bitmap
  {
    var cut := FirstCharacters(bitmap);
    assert Payload(bitmap, stale) == Decimal(bitmap)[..PAYLOAD] == Decimal(cut);
    AtoiOfDecimal(cut, "");
  }

  /** A text of four characters arrives without a NUL, so that a digit behind it counts. */
  lemma FourCharacters(bitmap: int, stale: string)
    requires |stale| >= PAYLOAD && |Decimal(bitmap)| == PAYLOAD
    requires -1_0000 < bitmap < 1_0000
    ensures bitmap != 0 && Received(bitmap, stale, "0") == bitmap * 10
  {
    TextFits(bitmap);
    assert Payload(bitmap, stale) == Decimal(bitmap);
    SignedOfDecimal(bitmap, "0");
    AtoiIs(Decimal(bitmap) + "0", bitmap * 10);
  }

  lemma {:induction false} FourDigits(n: nat)
    requires |Digits(n)| <= 4
    ensures n < 1_0000
  {
    if n >= 10 {
      DigitsLength(n / 10);
    }
  }

  /** A bitmap is sure to arrive, whatever the client's buffer held and whatever follows in the server's memory, exactly
      when its text has room for its NUL in the length that is sent. */
  lemma RegistrationArrivesExactly(bitmap: int)
    requires Int32(bitmap)
    ensures (forall stale: string, behind: string :: |stale| >= PAYLOAD ==> Received(bitmap, stale, behind) == bitmap)
      <==> -100 < bitmap < 1000
  {
    TextFits(bitmap);
    if -100 < bitmap < 1000 {
      forall stale: string, behind: string | |stale| >= PAYLOAD
        ensures Received(bitmap, stale, behind) == bitmap
      {
        ShortArrives(bitmap, stale, behind);
      }
    } else if |Decimal(bitmap)| > PAYLOAD {
      LongIsCut(bitmap, "    ");
    } else {
      FourDigits(if bitmap < 0 then -bitmap else bitmap);
      FourCharacters(bitmap, "    ");
    }
  }
}
