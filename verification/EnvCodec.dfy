/**
 * The key=value codec of ubootenv/ubootenv.c: the parser of the raw environment area, the serializer that writes the
 * list back, and exactly which lists survive the round trip.
 */
module EnvCodec {
  import opened Wrappers

  const NUL: byte := 0
  const EQ: byte := 61

  const MAX_KEY := 255
  const MAX_VALUE := 4095

  /** One list node. The value of a node whose record was cut short is a null pointer. */
  datatype Entry = Entry(key: seq<byte>, value: Option<seq<byte>>)

  // ---------- parsing

  /** Whether a string search that runs to the next NUL stays inside the area. */
  ghost predicate Terminated(d: seq<byte>) {
    |d| > 0 && d[|d| - 1] == NUL
  }

  /** The first position from p on that holds c or NUL: where strchr stops. */
  function Seek(d: seq<byte>, p: nat, c: byte): (i: nat)
    requires Terminated(d) && p < |d|
    ensures p <= i < |d|
    ensures d[i] == c || d[i] == NUL
    ensures forall k :: p <= k < i ==> d[k] != c && d[k] != NUL
    decreases |d| - p
  {
    if d[p] == c || d[p] == NUL then p else Seek(d, p + 1, c)
  }

  function Clip(s: seq<byte>, n: nat): seq<byte> {
    if |s| <= n then s else s[..n]
  }

  /** The records from p on; `unset` is what the key field of the node to be filled holds beforehand. */
  function ParseRecords(d: seq<byte>, p: nat, unset: seq<byte>): (r: seq<Entry>)
    requires Terminated(d)
    decreases |d| - p, 1
  {
    if p >= |d| || d[p] == NUL then []
    else
      var e := Seek(d, p, EQ);
      if d[e] == NUL then [Entry(unset, None)] else ParseValue(d, e + 1, Clip(d[p..e], MAX_KEY))
  }

  function ParseValue(d: seq<byte>, p: nat, key: seq<byte>): (r: seq<Entry>)
    requires Terminated(d)
    ensures |r| >= 1
    decreases |d| - p, 0
  {
    if p >= |d| || d[p] == NUL then [Entry(key, None)]
    else
      var z := Seek(d, p, NUL);
      [Entry(key, Some(Clip(d[p..z], MAX_VALUE)))] + ParseRecords(d, z + 1, [])
  }

  /** The list a parse leaves: the static head node is always there, and keeps its old key when nothing fills it. */
  function Parse(d: seq<byte>, headKey: seq<byte>): (r: seq<Entry>)
    requires Terminated(d)
    ensures |r| >= 1
  {
    var r := ParseRecords(d, 0, headKey);
    if r == [] then [Entry(headKey, None)] else r
  }

  // ---------- serializing

  ghost predicate IsString(s: seq<byte>) {
    NUL !in s
  }

  /** No value is a null pointer. */
  ghost predicate AllSet(kv: seq<Entry>) {
    forall i :: 0 <= i < |kv| ==> kv[i].value.Some?
  }

  /** Entries that can be printed: no null value, no embedded NUL. */
  ghost predicate Printable(kv: seq<Entry>) {
    forall i :: 0 <= i < |kv| ==> IsString(kv[i].key) && kv[i].value.Some? && IsString(kv[i].value.value)
  }

  function Record(e: Entry): seq<byte>
    requires e.value.Some?
  {
    e.key + [EQ] + e.value.value
  }

  /** A record the serializer reports as invalid and does not step over. */
  predicate TooShort(e: Entry)
    requires e.value.Some?
  {
    |Record(e)| < 3
  }

  function NextPos(e: Entry, pos: nat): nat
    requires e.value.Some?
  {
    if TooShort(e) then pos else pos + |Record(e)| + 1
  }

  /** Every string printed, terminator included, stays inside an area of `size` bytes. */
  ghost predicate Fits(kv: seq<Entry>, pos: nat, size: nat)
    requires AllSet(kv)
  {
    kv == [] || (pos + |Record(kv[0])| + 1 <= size && Fits(kv[1..], NextPos(kv[0], pos), size))
  }

  function WriteAt(buf: seq<byte>, pos: nat, s: seq<byte>): (r: seq<byte>)
    requires pos + |s| <= |buf|
    ensures |r| == |buf|
  {
    buf[..pos] + s + buf[pos + |s|..]
  }

  function WriteAll(buf: seq<byte>, pos: nat, kv: seq<Entry>): (r: seq<byte>)
    requires AllSet(kv)
    requires Fits(kv, pos, |buf|)
    ensures |r| == |buf|
    decreases |kv|
  {
    if kv == [] then buf
    else WriteAll(WriteAt(buf, pos, Record(kv[0]) + [NUL]), NextPos(kv[0], pos), kv[1..])
  }

  function Zeros(n: nat): (r: seq<byte>)
    ensures |r| == n && forall i :: 0 <= i < n ==> r[i] == NUL
  {
    seq(n, _ => NUL)
  }

  /** The area after serializing a list into it. */
  function Serialize(kv: seq<Entry>, size: nat): (r: seq<byte>)
    requires AllSet(kv)
    requires Fits(kv, 0, size)
    ensures |r| == size
  {
    WriteAll(Zeros(size), 0, kv)
  }

  // ---------- the layout of a serialized area

  function Image(kv: seq<Entry>): seq<byte>
    requires AllSet(kv)
  {
    if kv == [] then [] else Record(kv[0]) + [NUL] + Image(kv[1..])
  }

  /** What is left of a list once the too short records that another record overwrites are gone. */
  function Kept(kv: seq<Entry>): (r: seq<Entry>)
    requires AllSet(kv)
    ensures AllSet(r)
    ensures kv != [] ==> r != []
    ensures |r| <= |kv|
  {
    if |kv| <= 1 then kv
    else if TooShort(kv[0]) then Kept(kv[1..]) else [kv[0]] + Kept(kv[1..])
  }

  ghost predicate ZeroFrom(d: seq<byte>, p: nat) {
    forall i :: p <= i < |d| ==> d[i] == NUL
  }

  /** From p on, the area holds these records and then only zeros. */
  ghost predicate HasLayout(d: seq<byte>, p: nat, kv: seq<Entry>)
    requires AllSet(kv)
  {
    && p + |Image(kv)| <= |d|
    && d[p..p + |Image(kv)|] == Image(kv)
    && ZeroFrom(d, p + |Image(kv)|)
  }

  lemma LayoutLast(buf: seq<byte>, pos: nat, e: Entry)
    requires e.value.Some? && pos + |Record(e)| + 1 <= |buf|
    requires ZeroFrom(buf, pos + 2)
    ensures HasLayout(WriteAt(buf, pos, Record(e) + [NUL]), pos, [e])
  {
    assert Image([e]) == Record(e) + [NUL] + Image([]) == Record(e) + [NUL];
  }

  lemma LayoutStep(d: seq<byte>, p: nat, e: Entry, kv: seq<Entry>)
    requires e.value.Some? && AllSet(kv)
    requires p + |Record(e)| + 1 <= |d| && d[p..p + |Record(e)| + 1] == Record(e) + [NUL]
    requires HasLayout(d, p + |Record(e)| + 1, kv)
    ensures HasLayout(d, p, [e] + kv)
  {
    var s := Record(e) + [NUL];
    assert ([e] + kv)[1..] == kv;
    assert Image([e] + kv) == s + Image(kv);
    assert d[p..p + |s + Image(kv)|] == d[p..p + |s|] + d[p + |s|..p + |s| + |Image(kv)|];
  }

  /** Whatever the list, the bytes written are exactly the kept records, one after the other, and zeros after them. */
  lemma {:induction false} Layout(buf: seq<byte>, pos: nat, kv: seq<Entry>)
    requires AllSet(kv) && kv != []
    requires Fits(kv, pos, |buf|)
    requires ZeroFrom(buf, pos + 2)
    ensures WriteAll(buf, pos, kv)[..pos] == buf[..pos]
    ensures HasLayout(WriteAll(buf, pos, kv), pos, Kept(kv))
    decreases |kv|
  {
    var e, rest := kv[0], kv[1..];
    var s := Record(e) + [NUL];
    var buf' := WriteAt(buf, pos, s);
    assert buf'[..pos] == buf[..pos];
    if rest == [] {
      LayoutLast(buf, pos, e);
      assert kv == [e];
      assert WriteAll(buf, pos, kv) == WriteAll(buf', NextPos(e, pos), rest) == buf';
    } else {
      Layout(buf', NextPos(e, pos), rest);
      if !TooShort(e) {
        var d := WriteAll(buf, pos, kv);
        assert d[..pos + |s|] == buf'[..pos + |s|] == buf[..pos] + s;
        assert d[..pos] == d[..pos + |s|][..pos] && d[pos..pos + |s|] == d[..pos + |s|][pos..] == s;
        LayoutStep(d, pos, e, Kept(rest));
      }
    }
  }

  lemma {:induction false} WrittenTerminated(buf: seq<byte>, pos: nat, kv: seq<Entry>)
    requires AllSet(kv)
    requires Fits(kv, pos, |buf|) && Terminated(buf)
    ensures Terminated(WriteAll(buf, pos, kv))
    decreases |kv|
  {
    if kv != [] {
      var s := Record(kv[0]) + [NUL];
      var buf' := WriteAt(buf, pos, s);
      assert Terminated(buf') by {
        if pos + |s| == |buf| {
          assert buf'[|buf| - 1] == s[|s| - 1];
        }
      }
      WrittenTerminated(buf', NextPos(kv[0], pos), kv[1..]);
    }
  }

  // ---------- what a parse can return

  /** The entries the parser can produce with a value, and gives back unchanged. */
  ghost predicate Parsable(e: Entry) {
    && EQ !in e.key && |e.key| <= MAX_KEY
    && e.value.Some? && 1 <= |e.value.value| <= MAX_VALUE
  }

  ghost predicate ValuesParsable(kv: seq<Entry>) {
    forall i :: 0 <= i < |kv| && kv[i].value.Some? ==> Parsable(kv[i])
  }

  lemma {:induction false} RecordsShape(d: seq<byte>, p: nat, unset: seq<byte>)
    requires Terminated(d)
    ensures ValuesParsable(ParseRecords(d, p, unset))
    decreases |d| - p, 1
  {
    if p < |d| && d[p] != NUL {
      var e := Seek(d, p, EQ);
      if d[e] != NUL {
        ValueShape(d, e + 1, Clip(d[p..e], MAX_KEY));
      }
    }
  }

  lemma {:induction false} ValueShape(d: seq<byte>, p: nat, key: seq<byte>)
    requires Terminated(d)
    requires EQ !in key && |key| <= MAX_KEY
    ensures ValuesParsable(ParseValue(d, p, key))
    decreases |d| - p, 0
  {
    if p < |d| && d[p] != NUL {
      RecordsShape(d, Seek(d, p, NUL) + 1, []);
    }
  }

  ghost predicate Clean(e: Entry) {
    Parsable(e) && IsString(e.key) && IsString(e.value.value)
  }

  lemma SeekIs(d: seq<byte>, p: nat, c: byte, i: nat)
    requires Terminated(d) && p <= i < |d|
    requires d[i] == c || d[i] == NUL
    requires forall k :: p <= k < i ==> d[k] != c && d[k] != NUL
    ensures Seek(d, p, c) == i
  {}

  lemma RecordBytes(d: seq<byte>, p: nat, e: Entry)
    requires e.value.Some? && p + |Record(e)| < |d|
    requires d[p..p + |Record(e)| + 1] == Record(e) + [NUL]
    ensures var q, z := p + |e.key|, p + |Record(e)|;
      && (forall k :: p <= k < q ==> d[k] == e.key[k - p])
      && (forall k :: q + 1 <= k < z ==> d[k] == e.value.value[k - q - 1])
      && d[q] == EQ && d[z] == NUL
      && d[p..q] == e.key && d[q + 1..z] == e.value.value
  {
    var s := Record(e) + [NUL];
    var q, z := p + |e.key|, p + |Record(e)|;
    assert forall k :: p <= k <= z ==> d[k] == d[p..z + 1][k - p] == s[k - p];
  }

  lemma ParseKeyPart(d: seq<byte>, p: nat, q: nat, unset: seq<byte>)
    requires Terminated(d) && p <= q < |d| && d[q] == EQ
    requires forall k :: p <= k < q ==> d[k] != EQ && d[k] != NUL
    requires q - p <= MAX_KEY
    ensures ParseRecords(d, p, unset) == ParseValue(d, q + 1, d[p..q])
  {
    SeekIs(d, p, EQ, q);
  }

  lemma ParseValuePart(d: seq<byte>, p: nat, z: nat, key: seq<byte>)
    requires Terminated(d) && p < z < |d| && d[z] == NUL
    requires forall k :: p <= k < z ==> d[k] != NUL
    requires z - p <= MAX_VALUE
    ensures ParseValue(d, p, key) == [Entry(key, Some(d[p..z]))] + ParseRecords(d, z + 1, [])
  {
    SeekIs(d, p, NUL, z);
  }

  /** The key of a clean record holds no terminator, and neither does its value. */
  lemma CleanBytes(d: seq<byte>, p: nat, e: Entry)
    requires Clean(e) && p + |Record(e)| < |d|
    requires d[p..p + |Record(e)| + 1] == Record(e) + [NUL]
    ensures var q, z := p + |e.key|, p + |Record(e)|;
      && q < z && d[q] == EQ && d[z] == NUL
      && d[p..q] == e.key && d[q + 1..z] == e.value.value
      && (forall k :: p <= k < q ==> d[k] != EQ && d[k] != NUL)
      && (forall k :: q + 1 <= k < z ==> d[k] != NUL)
  {
    RecordBytes(d, p, e);
  }

  lemma ParseBetween(d: seq<byte>, p: nat, q: nat, z: nat, unset: seq<byte>)
    requires Terminated(d) && p <= q && q + 1 < z < |d| && d[q] == EQ && d[z] == NUL
    requires q - p <= MAX_KEY && z - (q + 1) <= MAX_VALUE
    requires forall k :: p <= k < q ==> d[k] != EQ && d[k] != NUL
    requires forall k :: q + 1 <= k < z ==> d[k] != NUL
    ensures ParseRecords(d, p, unset) == [Entry(d[p..q], Some(d[q + 1..z]))] + ParseRecords(d, z + 1, [])
  {
    ParseKeyPart(d, p, q, unset);
    ParseValuePart(d, q + 1, z, d[p..q]);
  }

  lemma ParseOne(d: seq<byte>, p: nat, e: Entry, unset: seq<byte>)
    requires Terminated(d) && Clean(e)
    requires p + |Record(e)| < |d|
    requires d[p..p + |Record(e)| + 1] == Record(e) + [NUL]
    ensures ParseRecords(d, p, unset) == [e] + ParseRecords(d, p + |Record(e)| + 1, [])
  {
    var q, z := p + |e.key|, p + |Record(e)|;
    CleanBytes(d, p, e);
    assert q + 1 < z && q - p <= MAX_KEY && z - (q + 1) <= MAX_VALUE;
    assert e == Entry(d[p..q], Some(d[q + 1..z]));
    ParseBetween(d, p, q, z, unset);
  }

  lemma ParseNothing(d: seq<byte>, p: nat, unset: seq<byte>)
    requires Terminated(d) && ZeroFrom(d, p)
    ensures ParseRecords(d, p, unset) == []
  {}

  lemma LayoutHead(d: seq<byte>, p: nat, kv: seq<Entry>)
    requires kv != [] && AllSet(kv)
    requires HasLayout(d, p, kv)
    ensures p + |Record(kv[0])| < |d|
    ensures d[p..p + |Record(kv[0])| + 1] == Record(kv[0]) + [NUL]
    ensures HasLayout(d, p + |Record(kv[0])| + 1, kv[1..])
  {
    var s := Record(kv[0]) + [NUL];
    var image := Image(kv);
    assert image == s + Image(kv[1..]);
    assert d[p..p + |s|] == d[p..p + |image|][..|s|];
    assert d[p + |s|..p + |image|] == d[p..p + |image|][|s|..];
  }

  ghost predicate AllClean(kv: seq<Entry>) {
    forall i :: 0 <= i < |kv| ==> Clean(kv[i])
  }

  lemma ParseHead(d: seq<byte>, p: nat, kv: seq<Entry>, unset: seq<byte>)
    requires Terminated(d) && AllClean(kv) && kv != []
    requires AllSet(kv)
    requires HasLayout(d, p, kv)
    ensures var next := p + |Record(kv[0])| + 1;
      HasLayout(d, next, kv[1..]) && ParseRecords(d, p, unset) == [kv[0]] + ParseRecords(d, next, [])
  {
    LayoutHead(d, p, kv);
    ParseOne(d, p, kv[0], unset);
  }

  lemma {:induction false} ParseImage(d: seq<byte>, p: nat, kv: seq<Entry>, unset: seq<byte>)
    requires Terminated(d) && AllClean(kv)
    requires AllSet(kv)
    requires HasLayout(d, p, kv)
    ensures ParseRecords(d, p, unset) == kv
    decreases |kv|
  {
    if kv == [] {
      ParseNothing(d, p, unset);
    } else {
      ParseHead(d, p, kv, unset);
      ParseImage(d, p + |Record(kv[0])| + 1, kv[1..], []);
    }
  }

  // ---------- the round trip

  /** The lists that come back: every entry parsable, and none too short except possibly the last. */
  ghost predicate Survives(kv: seq<Entry>) {
    forall i :: 0 <= i < |kv| ==> Parsable(kv[i]) && (i < |kv| - 1 ==> !TooShort(kv[i]))
  }

  lemma {:induction false} KeptEverything(kv: seq<Entry>)
    requires AllSet(kv)
    ensures Kept(kv) == kv <==> forall i :: 0 <= i < |kv| - 1 ==> kv[i].value.Some? && !TooShort(kv[i])
  {
    if |kv| > 1 {
      KeptEverything(kv[1..]);
      if TooShort(kv[0]) {
        assert |Kept(kv)| < |kv|;
      } else {
        assert kv == [kv[0]] + kv[1..];
        assert forall i :: 0 <= i < |kv| - 2 ==> kv[1..][i] == kv[i + 1];
        if Kept(kv) == kv {
          assert Kept(kv[1..]) == Kept(kv)[1..] == kv[1..];
          forall i | 0 <= i < |kv| - 1 ensures !TooShort(kv[i]) {
            if i > 0 { assert kv[i] == kv[1..][i - 1]; }
          }
        }
      }
    }
  }

  lemma SerializedTerminated(kv: seq<Entry>, size: nat)
    requires kv != [] && Printable(kv) && Fits(kv, 0, size)
    ensures Terminated(Serialize(kv, size))
  {
    WrittenTerminated(Zeros(size), 0, kv);
  }

  lemma {:induction false} KeptClean(kv: seq<Entry>)
    requires Printable(kv) && ValuesParsable(kv)
    ensures AllClean(Kept(kv))
  {
    if |kv| > 1 {
      KeptClean(kv[1..]);
    }
  }

  /** A serialized list of parsable entries parses back to its kept entries, in order, duplicates included. */
  lemma ParseSerialized(kv: seq<Entry>, size: nat, headKey: seq<byte>)
    requires kv != [] && Printable(kv) && Fits(kv, 0, size)
    requires ValuesParsable(kv)
    ensures Terminated(Serialize(kv, size))
    ensures Parse(Serialize(kv, size), headKey) == Kept(kv)
  {
    SerializedTerminated(kv, size);
    Layout(Zeros(size), 0, kv);
    KeptClean(kv);
    ParseImage(Serialize(kv, size), 0, Kept(kv), headKey);
  }

  /** The round trip gives back the same list exactly for the lists that survive. */
  lemma RoundTrip(kv: seq<Entry>, size: nat, headKey: seq<byte>)
    requires kv != [] && Printable(kv) && Fits(kv, 0, size)
    ensures Terminated(Serialize(kv, size))
    ensures Parse(Serialize(kv, size), headKey) == kv <==> Survives(kv)
  {
    SerializedTerminated(kv, size);
    KeptEverything(kv);
    var d := Serialize(kv, size);
    if Parse(d, headKey) == kv {
      RecordsShape(d, 0, headKey);
      ParseSerialized(kv, size, headKey);
    } else if Survives(kv) {
      ParseSerialized(kv, size, headKey);
    }
  }
}
