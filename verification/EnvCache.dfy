/**
 * The environment cache of ubootenv/ubootenv.c, one process at a time: a shared image, and a private list with the
 * revision it was parsed at. EnvSystem.dfy lets many processes take these steps; EnvProcess.dfy is the code that
 * follows them.
 */
module EnvCache {
  import opened Wrappers
  import opened EnvCodec
  import Crc32

  const MAX_RETRY := 5

  /** The revision counters are uint32_t. */
  const WRAP := 0x1_0000_0000

  datatype Shared = Shared(refcnt: int, revision: nat, crc: bv32, data: seq<byte>)
  datatype Local = Local(inited: bool, revision: nat, kv: seq<Entry>)

  function Flag(on: bool, bit: bv8): bv8 {
    if on then bit else 0
  }

  /** The CRC loop takes a plain char as unsigned: the binary digits of a byte, lowest first. */
  function Unsigned(b: byte): bv8 {
    Flag(b % 2 == 1, 0x01) | Flag(b / 2 % 2 == 1, 0x02) | Flag(b / 2 / 2 % 2 == 1, 0x04) |
    Flag(b / 2 / 2 / 2 % 2 == 1, 0x08) | Flag(b / 2 / 2 / 2 / 2 % 2 == 1, 0x10) |
    Flag(b / 2 / 2 / 2 / 2 / 2 % 2 == 1, 0x20) | Flag(b / 2 / 2 / 2 / 2 / 2 / 2 % 2 == 1, 0x40) |
    Flag(b / 2 / 2 / 2 / 2 / 2 / 2 / 2 == 1, 0x80)
  }

  function Bits(d: seq<byte>): (r: seq<Crc32.byte>)
    ensures |r| == |d|
  {
    seq(|d|, i requires 0 <= i < |d| => Unsigned(d[i]))
  }

  function CrcOf(d: seq<byte>): bv32 {
    Crc32.Checksum(Bits(d))
  }

  // ---------- the list

  function Lookup(kv: seq<Entry>, key: seq<byte>): Option<seq<byte>> {
    if kv == [] then None else if kv[0].key == key then kv[0].value else Lookup(kv[1..], key)
  }

  function SetKv(kv: seq<Entry>, key: seq<byte>, value: seq<byte>): (r: seq<Entry>)
    ensures r != []
  {
    if kv == [] then [Entry(Clip(key, MAX_KEY), Some(value))]
    else if kv[0].key == key then [Entry(key, Some(value))] + kv[1..]
    else [kv[0]] + SetKv(kv[1..], key, value)
  }

  // ---------- the steps of one process, each under the shared lock

  function CheckLoad(l: Local, s: Shared): Local
    requires Terminated(s.data) && l.kv != []
  {
    if l.revision != s.revision then Local(l.inited, s.revision, Parse(s.data, l.kv[0].key)) else l
  }

  ghost predicate Storable(kv: seq<Entry>, size: nat) {
    kv != [] && Printable(kv) && Fits(kv, 0, size)
  }

  function SerializeStep(l: Local, s: Shared): (r: (Local, Shared))
    requires Storable(l.kv, |s.data|)
  {
    var revision := (l.revision + 1) % WRAP;
    var data := Serialize(l.kv, |s.data|);
    (l.(revision := revision), s.(revision := revision, data := data, crc := CrcOf(data)))
  }

  /** The retry loop around save_bootenv; `codes` are the results of writing the device, attempt by attempt. */
  function SaveLoop(l: Local, s: Shared, codes: seq<int>, i: nat, ret: int): (r: (Local, Shared, int))
    requires Storable(l.kv, |s.data|) && |codes| == MAX_RETRY
    decreases MAX_RETRY - i, |codes|
  {
    if i >= MAX_RETRY || ret >= 0 then (l, s, ret)
    else
      var (l', s') := SerializeStep(l, s);
      SaveLoop(l', s', codes, i + 1, codes[i])
  }

  function OrEmpty(v: Option<seq<byte>>): seq<byte> {
    if v.Some? then v.value else []
  }

  function Update(l: Local, s: Shared, name: seq<byte>, value: seq<byte>, codes: seq<int>): (r: (Local, Shared, int))
    requires |codes| == MAX_RETRY
    requires l.inited ==> Terminated(s.data) && l.kv != []
    requires l.inited ==> Storable(SetKv(CheckLoad(l, s).kv, name, value), |s.data|)
  {
    if !l.inited then (l, s, -1)
    else
      var cur := CheckLoad(l, s);
      if value == OrEmpty(Lookup(cur.kv, name)) then (cur, s, 0)
      else SaveLoop(cur.(kv := SetKv(cur.kv, name, value)), s, codes, 0, -1)
  }

  function Get(l: Local, s: Shared, key: seq<byte>): (r: (Local, Option<seq<byte>>))
    requires l.inited ==> Terminated(s.data) && l.kv != []
  {
    if !l.inited then (l, None)
    else
      var cur := CheckLoad(l, s);
      (cur, Lookup(cur.kv, key))
  }

  /** What reading the partition into the shared buffer did. */
  datatype ReadOutcome =
    | OpenFailed
    | ShortRead(crc: bv32, data: seq<byte>)
    | FullRead(crc: bv32, data: seq<byte>)

  ghost predicate MatchingCrc(r: ReadOutcome) {
    r.FullRead? && CrcOf(r.data) == r.crc
  }

  /** What a parse makes of a list that has not been released: it fills the head first and only then links new nodes,
      so that one record leaves the old rest of the list behind it, and a record without a value the old value. */
  function ParseOver(d: seq<byte>, kv: seq<Entry>): (r: seq<Entry>)
    requires Terminated(d) && kv != []
    ensures r != []
  {
    var r := Parse(d, kv[0].key);
    if |r| > 1 then r
    else [Entry(r[0].key, if r[0].value.Some? then r[0].value else kv[0].value)] + kv[1..]
  }

  /** Whether a load on this area, with this read, comes to parse data that end in a NUL. */
  ghost predicate Loadable(s: Shared, read: ReadOutcome) {
    && (s.refcnt != 0 && CrcOf(s.data) == s.crc ==> Terminated(s.data))
    && (s.refcnt == 0 && MatchingCrc(read) ==> Terminated(read.data))
  }

  /** One call of load_bootenv. */
  function Load(l: Local, s: Shared, read: ReadOutcome): (r: (Local, Shared, int))
    requires l.kv != [] && Loadable(s, read)
  {
    if s.refcnt == 0 && read.OpenFailed? then (l, s, -1)
    else if s.refcnt == 0 && read.ShortRead? then (l, s.(crc := read.crc, data := read.data), -2)
    else
      var s' := if s.refcnt == 0 then s.(crc := read.crc, data := read.data) else s;
      var l' := l.(revision := s'.revision);
      if CrcOf(s'.data) != s'.crc then (l', s'.(refcnt := 0), -3)
      else (l'.(kv := ParseOver(s'.data, l.kv)), s'.(refcnt := s'.refcnt + 1), 0)
  }

  // ---------- the shared area and its name

  /** A shared area as it is created. */
  function NewArea(size: nat): Shared {
    Shared(0, 0, 0, Zeros(size))
  }

  /** The area a process gets when it opens the name, or has got already. */
  function Mapped(named: Option<Shared>, size: nat): Shared {
    if named.Some? then named.value else NewArea(size)
  }

  /** release_envimg_buffer by the only process: the name goes with the last reference, and the count may have been
      zero already. */
  function Released(s: Shared): Option<Shared> {
    if s.refcnt - 1 <= 0 then None else Some(s.(refcnt := s.refcnt - 1))
  }

  ghost predicate ReadsTerminated(outcomes: seq<ReadOutcome>) {
    forall i :: 0 <= i < |outcomes| && MatchingCrc(outcomes[i]) ==> Terminated(outcomes[i].data)
  }

  ghost predicate AreaLoadable(named: Option<Shared>) {
    named.Some? && named.value.refcnt != 0 && CrcOf(named.value.data) == named.value.crc ==>
      Terminated(named.value.data)
  }

  /** The retry loop of bootenv_init when no other process comes in between. A load that succeeds only on the last try
      is still reported as a failure, and a wrong CRC gives the area up. */
  function InitLoop(l: Local, named: Option<Shared>, outcomes: seq<ReadOutcome>, size: nat, i: nat, ret: int)
      : (r: (Local, Option<Shared>, int))
    requires l.kv != [] && |outcomes| == MAX_RETRY && ReadsTerminated(outcomes)
    requires ret < 0 ==> AreaLoadable(named)
    decreases MAX_RETRY - i, |outcomes|
  {
    if i < MAX_RETRY && ret < 0 then
      var (l', s', ret') := Load(l, Mapped(named, size), outcomes[i]);
      InitLoop(l', if ret' < -2 then Released(s') else Some(s'), outcomes, size, i + 1, ret')
    else if i >= MAX_RETRY then (l, named, -2)
    else (l.(inited := true), named, 0)
  }

  const FreshLocal := Local(false, 0, [Entry([], None)])

  /** The number of times a save serializes the list: once per device write attempted. */
  function Tries(codes: seq<int>, i: nat): (n: nat)
    requires |codes| == MAX_RETRY
    ensures i < MAX_RETRY ==> 1 <= n <= MAX_RETRY - i
    decreases MAX_RETRY - i, |codes|
  {
    if i >= MAX_RETRY then 0 else if codes[i] >= 0 then 1 else 1 + Tries(codes, i + 1)
  }

  /** The saves an update makes when the list is `kv`. */
  function SavesFor(kv: seq<Entry>, name: seq<byte>, value: seq<byte>, codes: seq<int>): nat
    requires |codes| == MAX_RETRY
  {
    if value == OrEmpty(Lookup(kv, name)) then 0 else Tries(codes, 0)
  }

  /** The list the shared image stands for. */
  function Current(s: Shared): seq<Entry>
    requires Terminated(s.data)
  {
    Parse(s.data, [])
  }

  /** Every entry comes back from an image wherever it stands in the list. */
  ghost predicate Solid(kv: seq<Entry>) {
    forall i :: 0 <= i < |kv| ==> Parsable(kv[i]) && !TooShort(kv[i])
  }

  /** An image whose list survives being written back, whoever parses it. */
  ghost predicate GoodImage(d: seq<byte>) {
    && Terminated(d)
    && ParseRecords(d, 0, []) != []
    && Printable(Parse(d, []))
    && Solid(Parse(d, []))
  }

  /** The values a name and value must have for the entry to come back from the image. */
  ghost predicate Settable(name: seq<byte>, value: seq<byte>) {
    && IsString(name) && EQ !in name && |name| <= MAX_KEY
    && IsString(value) && 1 <= |value| <= MAX_VALUE && |name| + |value| >= 2
  }

  ghost predicate ReadGood(read: ReadOutcome, size: nat) {
    && (!read.OpenFailed? ==> |read.data| == size)
    && (MatchingCrc(read) ==> GoodImage(read.data))
  }

  /** Five reads, each of which fills the area if it reads anything. */
  ghost predicate OutcomesFit(outcomes: seq<ReadOutcome>, size: nat) {
    |outcomes| == MAX_RETRY && forall i :: 0 <= i < MAX_RETRY && !outcomes[i].OpenFailed? ==> |outcomes[i].data| == size
  }

  /** An area that is in use holds an image with its CRC. */
  ghost predicate Loaded(s: Shared, size: nat) {
    s.refcnt >= 0 && |s.data| == size && (s.refcnt > 0 ==> Terminated(s.data) && s.crc == CrcOf(s.data))
  }

  ghost predicate SharedGood(s: Shared, size: nat) {
    && s.refcnt >= 0 && |s.data| == size
    && (s.refcnt > 0 ==> GoodImage(s.data) && s.crc == CrcOf(s.data))
  }

  ghost predicate LocalCurrent(l: Local, seen: nat, s: Shared, saves: nat) {
    && seen <= saves
    && l.kv != []
    && l.revision == seen % WRAP
    && Terminated(s.data)
    && (seen == saves ==> l.kv == Current(s))
  }

  // ---------- one process at a time

  lemma GoodImageAnyHead(d: seq<byte>, headKey: seq<byte>)
    requires GoodImage(d)
    ensures Parse(d, headKey) == Parse(d, [])
  {
    assert ParseRecords(d, 0, [])[0].value.Some?;
  }

  /** Below the wrap-around, equal counters modulo 2^32 mean equal counts. */
  lemma SameRevision(seen: nat, saves: nat)
    requires seen <= saves < seen + WRAP
    ensures seen % WRAP == saves % WRAP <==> seen == saves
  {
    if seen % WRAP == saves % WRAP {
      var k, j := saves / WRAP, seen / WRAP;
      assert saves - seen == WRAP * (k - j);
    }
  }

  /** A process at most 2^32 - 1 saves behind leaves check_load_kv with the list of the shared image. */
  lemma CheckLoadCurrent(l: Local, seen: nat, s: Shared, saves: nat)
    requires GoodImage(s.data) && LocalCurrent(l, seen, s, saves) && s.revision == saves % WRAP
    requires saves - seen < WRAP
    ensures CheckLoad(l, s) == Local(l.inited, s.revision, Current(s))
  {
    SameRevision(seen, saves);
    GoodImageAnyHead(s.data, l.kv[0].key);
  }

  /** The exact limit: the list is reloaded unless the number of saves missed is a multiple of 2^32. */
  lemma ReloadedExactlyUnlessWrapped(l: Local, s: Shared, seen: nat, saves: nat)
    requires Terminated(s.data) && l.kv != [] && seen <= saves
    requires l.revision == seen % WRAP && s.revision == saves % WRAP
    ensures (saves - seen) % 0x1_0000_0000 != 0 ==> CheckLoad(l, s).kv == Parse(s.data, l.kv[0].key)
    ensures (saves - seen) % 0x1_0000_0000 == 0 ==> CheckLoad(l, s) == l
  {
    ModDifference(seen, saves);
  }

  lemma ModDifference(a: nat, b: nat)
    requires a <= b
    ensures (b - a) % WRAP == 0 <==> a % WRAP == b % WRAP
  {
    var q, r := (b - a) / WRAP, (b - a) % WRAP;
    assert b == a / WRAP * WRAP + a % WRAP + q * WRAP + r;
    assert b == (a / WRAP + q) * WRAP + (a % WRAP + r);
  }

  lemma SuccMod(a: nat, k: nat)
    ensures (a % WRAP + k) % WRAP == (a + k) % WRAP
  {}

  /** However many device writes fail, memory ends with the serialized list, its CRC and equal revisions. */
  lemma {:induction false} SaveLoopResult(l: Local, s: Shared, codes: seq<int>, i: nat, ret: int)
    requires Storable(l.kv, |s.data|) && |codes| == MAX_RETRY
    requires i < MAX_RETRY && ret < 0
    ensures var (l', s', ret') := SaveLoop(l, s, codes, i, ret);
      && l'.kv == l.kv && l'.inited == l.inited
      && s'.refcnt == s.refcnt && s'.data == Serialize(l.kv, |s.data|) && s'.crc == CrcOf(s'.data)
      && l'.revision == s'.revision == (l.revision + Tries(codes, i)) % WRAP
      && 1 <= Tries(codes, i) <= MAX_RETRY - i
      && ret' == codes[i + Tries(codes, i) - 1]
    decreases MAX_RETRY - i
  {
    var (l1, s1) := SerializeStep(l, s);
    if codes[i] < 0 && i + 1 < MAX_RETRY {
      SaveLoopResult(l1, s1, codes, i + 1, codes[i]);
      SuccMod(l.revision + 1, Tries(codes, i + 1));
    } else {
      assert SaveLoop(l1, s1, codes, i + 1, codes[i]) == (l1, s1, codes[i]);
    }
  }

  /** The device is written until a write gives no negative code, and five times at most. */
  lemma TriesExactly(codes: seq<int>, n: nat)
    requires |codes| == MAX_RETRY
    ensures |codes| == 5
    ensures n == Tries(codes, 0) <==>
      && 1 <= n <= 5 && (forall k :: 0 <= k < n - 1 ==> codes[k] < 0)
      && (n < 5 ==> codes[n - 1] >= 0)
  {
    TriesFrom(codes, 0);
  }

  lemma {:induction false} TriesFrom(codes: seq<int>, i: nat)
    requires |codes| == MAX_RETRY && i < MAX_RETRY
    ensures var n := i + Tries(codes, i);
      && (forall k :: i <= k < n - 1 ==> codes[k] < 0)
      && (n < MAX_RETRY ==> codes[n - 1] >= 0)
    decreases MAX_RETRY - i
  {
    if codes[i] < 0 && i + 1 < MAX_RETRY {
      TriesFrom(codes, i + 1);
    }
  }

  lemma {:induction false} SetKvSolid(kv: seq<Entry>, name: seq<byte>, value: seq<byte>)
    requires Solid(kv) && Printable(kv) && Settable(name, value)
    ensures Solid(SetKv(kv, name, value)) && Printable(SetKv(kv, name, value))
  {
    if kv != [] && kv[0].key != name {
      assert forall i :: 0 <= i < |kv| - 1 ==> kv[1..][i] == kv[i + 1];
      SetKvSolid(kv[1..], name, value);
    }
  }

  /** Saving a solid list leaves a good image that stands for exactly that list. */
  lemma SavedImageGood(kv: seq<Entry>, size: nat)
    requires Storable(kv, size) && Solid(kv)
    ensures GoodImage(Serialize(kv, size))
    ensures Parse(Serialize(kv, size), []) == kv
  {
    RoundTrip(kv, size, []);
    assert kv[0].value.Some?;
  }

  /** An update's outcome in terms of the list the process ends up holding. */
  lemma UpdateResult(l: Local, s: Shared, name: seq<byte>, value: seq<byte>, codes: seq<int>)
    requires Terminated(s.data) && l.kv != [] && l.inited && |codes| == MAX_RETRY
    requires Storable(SetKv(CheckLoad(l, s).kv, name, value), |s.data|)
    requires value != OrEmpty(Lookup(CheckLoad(l, s).kv, name))
    ensures var (l', s', ret) := Update(l, s, name, value, codes);
      var kv := SetKv(CheckLoad(l, s).kv, name, value);
      && l'.inited && l'.kv == kv && s'.refcnt == s.refcnt
      && s'.data == Serialize(kv, |s.data|) && s'.crc == CrcOf(s'.data)
      && l'.revision == s'.revision == (s.revision + Tries(codes, 0)) % WRAP
      && 1 <= Tries(codes, 0) <= MAX_RETRY
      && ret == codes[Tries(codes, 0) - 1]
  {
    var cur := CheckLoad(l, s);
    assert cur.revision == s.revision;
    SaveLoopResult(cur.(kv := SetKv(cur.kv, name, value)), s, codes, 0, -1);
  }

  /** Exactly when an update leaves the writer's list equal to what every other process will parse. */
  lemma UpdateCoherentExactly(l: Local, s: Shared, name: seq<byte>, value: seq<byte>, codes: seq<int>,
                              headKey: seq<byte>)
    requires Terminated(s.data) && l.kv != [] && l.inited && |codes| == MAX_RETRY
    requires Storable(SetKv(CheckLoad(l, s).kv, name, value), |s.data|)
    requires value != OrEmpty(Lookup(CheckLoad(l, s).kv, name))
    ensures var (l', s', _) := Update(l, s, name, value, codes);
      Terminated(s'.data) &&
      (Parse(s'.data, headKey) == l'.kv <==> Survives(SetKv(CheckLoad(l, s).kv, name, value)))
  {
    UpdateResult(l, s, name, value, codes);
    RoundTrip(SetKv(CheckLoad(l, s).kv, name, value), |s.data|, headKey);
  }

  /** Setting an empty value is outside that condition for every list: the parser stops at it. */
  lemma {:induction false} EmptyValueNeverSurvives(kv: seq<Entry>, name: seq<byte>)
    ensures !Survives(SetKv(kv, name, []))
  {
    var r := SetKv(kv, name, []);
    if kv == [] || kv[0].key == name {
      assert !Parsable(r[0]);
    } else {
      EmptyValueNeverSurvives(kv[1..], name);
      var rest := SetKv(kv[1..], name, []);
      var i :| 0 <= i < |rest| && !(Parsable(rest[i]) && (i < |rest| - 1 ==> !TooShort(rest[i])));
      assert r[i + 1] == rest[i];
    }
  }

  // ---------- initialising

  /** Parsing a good image over an old list gives the image's list, exactly when it has more than one entry or nothing
      old is left to hang behind it. */
  lemma ParseOverExactly(d: seq<byte>, kv: seq<Entry>)
    requires GoodImage(d) && kv != []
    ensures ParseOver(d, kv) == Parse(d, []) <==> |Parse(d, [])| > 1 || |kv| == 1
  {
    GoodImageAnyHead(d, kv[0].key);
    var r := Parse(d, []);
    assert Parsable(r[0]);
    if |r| == 1 {
      assert r == [r[0]];
      assert |ParseOver(d, kv)| == |kv|;
    }
  }

  /** A load against an image in use succeeds, whatever is on the device. */
  lemma LoadShared(l: Local, s: Shared, read: ReadOutcome)
    requires l.kv != [] && s.refcnt > 0 && Terminated(s.data) && s.crc == CrcOf(s.data)
    ensures Load(l, s, read)
         == (Local(l.inited, s.revision, ParseOver(s.data, l.kv)), s.(refcnt := s.refcnt + 1), 0)
  {}

  /** A load against an area that holds no image installs the image it read, if its CRC is right. */
  lemma LoadEmpty(l: Local, s: Shared, read: ReadOutcome, size: nat)
    requires l.kv != [] && s.refcnt == 0 && |s.data| == size && Loadable(s, read)
    requires !read.OpenFailed? ==> |read.data| == size
    ensures var (l1, s1, r1) := Load(l, s, read);
      && (MatchingCrc(read) ==>
            && r1 == 0 && s1 == Shared(1, s.revision, read.crc, read.data)
            && l1 == Local(l.inited, s.revision, ParseOver(read.data, l.kv)))
      && (!MatchingCrc(read) ==>
            && r1 == (if read.OpenFailed? then -1 else if read.ShortRead? then -2 else -3)
            && s1.refcnt == 0 && s1.revision == s.revision && |s1.data| == size
            && l1.kv == l.kv && l1.inited == l.inited)
  {}

  /** The first read that gives an image with a matching CRC. */
  function FirstGood(outcomes: seq<ReadOutcome>, i: nat): (g: nat)
    requires |outcomes| == MAX_RETRY && i <= MAX_RETRY
    ensures i <= g <= MAX_RETRY
    ensures g < MAX_RETRY ==> outcomes[g].FullRead? && CrcOf(outcomes[g].data) == outcomes[g].crc
    ensures forall k :: i <= k < g ==> !(outcomes[k].FullRead? && CrcOf(outcomes[k].data) == outcomes[k].crc)
    decreases MAX_RETRY - i, |outcomes|
  {
    if i >= MAX_RETRY then MAX_RETRY
    else if outcomes[i].FullRead? && CrcOf(outcomes[i].data) == outcomes[i].crc then i
    else FirstGood(outcomes, i + 1)
  }

  ghost predicate Unused(named: Option<Shared>, size: nat) {
    named.Some? ==> named.value.refcnt == 0 && |named.value.data| == size
  }

  lemma InitGood(l: Local, named: Option<Shared>, outcomes: seq<ReadOutcome>, size: nat, i: nat, ret: int)
    requires l.kv != [] && OutcomesFit(outcomes, size) && ReadsTerminated(outcomes)
    requires Unused(named, size) && ret < 0 && i < MAX_RETRY && MatchingCrc(outcomes[i])
    ensures var s := Mapped(named, size);
      var l1 := Local(i + 1 < MAX_RETRY || l.inited, s.revision, ParseOver(outcomes[i].data, l.kv));
      InitLoop(l, named, outcomes, size, i, ret)
        == (l1, Some(Shared(1, s.revision, outcomes[i].crc, outcomes[i].data)), if i + 1 < MAX_RETRY then 0 else -2)
  {
    var s := Mapped(named, size);
    LoadEmpty(l, s, outcomes[i], size);
    var (l1, s1, r1) := Load(l, s, outcomes[i]);
    assert InitLoop(l1, Some(s1), outcomes, size, i + 1, 0)
      == (if i + 1 < MAX_RETRY then (l1.(inited := true), Some(s1), 0) else (l1, Some(s1), -2));
  }

  lemma InitBad(l: Local, named: Option<Shared>, outcomes: seq<ReadOutcome>, size: nat, i: nat, ret: int)
      returns (l1: Local, named1: Option<Shared>, r1: int)
    requires l.kv != [] && OutcomesFit(outcomes, size) && ReadsTerminated(outcomes)
    requires Unused(named, size) && ret < 0 && i < MAX_RETRY && !MatchingCrc(outcomes[i])
    ensures l1.kv == l.kv && l1.inited == l.inited && Unused(named1, size) && r1 < 0
    ensures InitLoop(l, named, outcomes, size, i, ret) == InitLoop(l1, named1, outcomes, size, i + 1, r1)
  {
    var s := Mapped(named, size);
    LoadEmpty(l, s, outcomes[i], size);
    var r := Load(l, s, outcomes[i]);
    l1, named1, r1 := r.0, if r.2 < -2 then Released(r.1) else Some(r.1), r.2;
  }

  lemma InitOver(l: Local, named: Option<Shared>, outcomes: seq<ReadOutcome>, size: nat, ret: int)
    requires l.kv != [] && |outcomes| == MAX_RETRY && ReadsTerminated(outcomes) && ret < 0 && AreaLoadable(named)
    ensures InitLoop(l, named, outcomes, size, MAX_RETRY, ret) == (l, named, -2)
  {}

  /** What initialising makes of a list when g is the first good one of the reads. */
  ghost predicate Installed(kv: seq<Entry>, outcomes: seq<ReadOutcome>, size: nat, g: nat,
                            r: (Local, Option<Shared>, int))
    requires kv != [] && OutcomesFit(outcomes, size) && ReadsTerminated(outcomes)
    requires g <= MAX_RETRY && FirstGood(outcomes, g) == g
  {
    && r.2 == (if g < MAX_RETRY - 1 then 0 else -2)
    && r.0.inited == (g < MAX_RETRY - 1)
    && if g == MAX_RETRY then r.0.kv == kv && Unused(r.1, size)
       else
         && r.1 == Some(Shared(1, r.0.revision, outcomes[g].crc, outcomes[g].data))
         && r.0.kv == ParseOver(outcomes[g].data, kv)
  }

  lemma {:induction false} FirstGoodIsGood(outcomes: seq<ReadOutcome>, i: nat)
    requires |outcomes| == MAX_RETRY && i <= MAX_RETRY
    ensures FirstGood(outcomes, FirstGood(outcomes, i)) == FirstGood(outcomes, i)
    decreases MAX_RETRY - i
  {
    if i < MAX_RETRY && !MatchingCrc(outcomes[i]) {
      FirstGoodIsGood(outcomes, i + 1);
    }
  }

  /** Initialising against an area that holds no image: the first good image is installed, or nothing is. */
  lemma {:induction false} InitEmpty(l: Local, named: Option<Shared>, outcomes: seq<ReadOutcome>, size: nat, i: nat,
                                     ret: int, g: nat)
    requires l.kv != [] && !l.inited && OutcomesFit(outcomes, size) && ReadsTerminated(outcomes)
    requires Unused(named, size) && ret < 0 && i <= MAX_RETRY
    requires g == FirstGood(outcomes, i) && FirstGood(outcomes, g) == g
    ensures Installed(l.kv, outcomes, size, g, InitLoop(l, named, outcomes, size, i, ret))
    decreases MAX_RETRY - i
  {
    if i == MAX_RETRY {
      InitOver(l, named, outcomes, size, ret);
    } else if MatchingCrc(outcomes[i]) {
      InitGood(l, named, outcomes, size, i, ret);
    } else {
      var l1, named1, r1 := InitBad(l, named, outcomes, size, i, ret);
      InitEmpty(l1, named1, outcomes, size, i + 1, r1, g);
    }
  }

  lemma InitUsed(l: Local, s: Shared, outcomes: seq<ReadOutcome>, size: nat)
    requires l.kv != [] && OutcomesFit(outcomes, size) && ReadsTerminated(outcomes)
    requires Loaded(s, size) && s.refcnt > 0
    ensures InitLoop(l, Some(s), outcomes, size, 0, -1)
      == (Local(true, s.revision, ParseOver(s.data, l.kv)), Some(s.(refcnt := s.refcnt + 1)), 0)
  {
    LoadShared(l, s, outcomes[0]);
    var (l1, s1, r1) := Load(l, s, outcomes[0]);
    assert InitLoop(l1, Some(s1), outcomes, size, 1, 0) == (l1.(inited := true), Some(s1), 0);
  }

  /** Initialising in one go: it shares the image in use, or else installs the first good one of the five reads; it
      succeeds unless there is none or it is the fifth, and then the list is the image's. */
  lemma InitOutcome(l: Local, named: Option<Shared>, outcomes: seq<ReadOutcome>, size: nat)
    requires l.kv != [] && !l.inited && OutcomesFit(outcomes, size) && ReadsTerminated(outcomes)
    requires named.Some? ==> Loaded(named.value, size)
    ensures AreaLoadable(named)
    ensures var (l', named', ret) := InitLoop(l, named, outcomes, size, 0, -1);
      var g := FirstGood(outcomes, 0);
      var used := named.Some? && named.value.refcnt > 0;
      && l'.inited == (used || g < MAX_RETRY - 1)
      && ret == (if l'.inited then 0 else -2)
      && (used ==> named' == Some(named.value.(refcnt := named.value.refcnt + 1)))
      && (!used && g < MAX_RETRY ==> named' == Some(Shared(1, l'.revision, outcomes[g].crc, outcomes[g].data)))
      && (!used && g == MAX_RETRY ==> Unused(named', size) && l'.kv == l.kv)
      && (used || g < MAX_RETRY ==>
          l'.revision == named'.value.revision && l'.kv == ParseOver(named'.value.data, l.kv))
  {
    if named.Some? && named.value.refcnt > 0 {
      InitUsed(l, named.value, outcomes, size);
    } else {
      FirstGoodIsGood(outcomes, 0);
      InitEmpty(l, named, outcomes, size, 0, -1, FirstGood(outcomes, 0));
    }
  }

  // ---------- damaged images

  lemma FlagsInjective(a0: bool, a1: bool, a2: bool, a3: bool, a4: bool, a5: bool, a6: bool, a7: bool,
                       b0: bool, b1: bool, b2: bool, b3: bool, b4: bool, b5: bool, b6: bool, b7: bool)
    requires Flag(a0, 0x01) | Flag(a1, 0x02) | Flag(a2, 0x04) | Flag(a3, 0x08) |
             Flag(a4, 0x10) | Flag(a5, 0x20) | Flag(a6, 0x40) | Flag(a7, 0x80)
          == Flag(b0, 0x01) | Flag(b1, 0x02) | Flag(b2, 0x04) | Flag(b3, 0x08) |
             Flag(b4, 0x10) | Flag(b5, 0x20) | Flag(b6, 0x40) | Flag(b7, 0x80)
    ensures a0 == b0 && a1 == b1 && a2 == b2 && a3 == b3 && a4 == b4 && a5 == b5 && a6 == b6 && a7 == b7
  {}

  lemma HalfInjective(a: nat, b: nat)
    requires a / 2 == b / 2 && (a % 2 == 1 <==> b % 2 == 1)
    ensures a == b
  {}

  lemma UnsignedInjective(a: byte, b: byte)
    requires Unsigned(a) == Unsigned(b)
    ensures a == b
  {
    var a1, b1 := a / 2, b / 2;
    var a2, b2 := a1 / 2, b1 / 2;
    var a3, b3 := a2 / 2, b2 / 2;
    var a4, b4 := a3 / 2, b3 / 2;
    var a5, b5 := a4 / 2, b4 / 2;
    var a6, b6 := a5 / 2, b5 / 2;
    var a7, b7 := a6 / 2, b6 / 2;
    FlagsInjective(
      a % 2 == 1, a1 % 2 == 1, a2 % 2 == 1, a3 % 2 == 1, a4 % 2 == 1, a5 % 2 == 1, a6 % 2 == 1, a7 == 1,
      b % 2 == 1, b1 % 2 == 1, b2 % 2 == 1, b3 % 2 == 1, b4 % 2 == 1, b5 % 2 == 1, b6 % 2 == 1, b7 == 1);
    assert a7 == b7;
    HalfInjective(a6, b6); HalfInjective(a5, b5); HalfInjective(a4, b4); HalfInjective(a3, b3);
    HalfInjective(a2, b2); HalfInjective(a1, b1); HalfInjective(a, b);
  }

  function Worth(on: bool, n: nat): nat {
    if on then n else 0
  }

  /** The number that a byte's bits make. */
  function Number(x: bv8): nat {
    Worth(x & 0x01 != 0, 1) + Worth(x & 0x02 != 0, 2) + Worth(x & 0x04 != 0, 4) + Worth(x & 0x08 != 0, 8) +
    Worth(x & 0x10 != 0, 16) + Worth(x & 0x20 != 0, 32) + Worth(x & 0x40 != 0, 64) + Worth(x & 0x80 != 0, 128)
  }

  lemma FlagsAre(a0: bool, a1: bool, a2: bool, a3: bool, a4: bool, a5: bool, a6: bool, a7: bool, x: bv8)
    requires x == Flag(a0, 0x01) | Flag(a1, 0x02) | Flag(a2, 0x04) | Flag(a3, 0x08) |
                  Flag(a4, 0x10) | Flag(a5, 0x20) | Flag(a6, 0x40) | Flag(a7, 0x80)
    ensures (x & 0x01 != 0) == a0 && (x & 0x02 != 0) == a1 && (x & 0x04 != 0) == a2 && (x & 0x08 != 0) == a3
    ensures (x & 0x10 != 0) == a4 && (x & 0x20 != 0) == a5 && (x & 0x40 != 0) == a6 && (x & 0x80 != 0) == a7
  {}

  lemma FlagsMake(a0: bool, a1: bool, a2: bool, a3: bool, a4: bool, a5: bool, a6: bool, a7: bool, x: bv8)
    requires x == Flag(a0, 0x01) | Flag(a1, 0x02) | Flag(a2, 0x04) | Flag(a3, 0x08) |
                  Flag(a4, 0x10) | Flag(a5, 0x20) | Flag(a6, 0x40) | Flag(a7, 0x80)
    ensures Number(x) == Worth(a0, 1) + Worth(a1, 2) + Worth(a2, 4) + Worth(a3, 8)
                       + Worth(a4, 16) + Worth(a5, 32) + Worth(a6, 64) + Worth(a7, 128)
  {
    FlagsAre(a0, a1, a2, a3, a4, a5, a6, a7, x);
  }

  lemma DigitsOf(b: byte, b1: nat, b2: nat, b3: nat, b4: nat, b5: nat, b6: nat, b7: nat) returns (x: bv8)
    requires b1 == b / 2 && b2 == b1 / 2 && b3 == b2 / 2 && b4 == b3 / 2
    requires b5 == b4 / 2 && b6 == b5 / 2 && b7 == b6 / 2
    ensures x == Unsigned(b)
    ensures x == Flag(b % 2 == 1, 0x01) | Flag(b1 % 2 == 1, 0x02) | Flag(b2 % 2 == 1, 0x04) |
                 Flag(b3 % 2 == 1, 0x08) | Flag(b4 % 2 == 1, 0x10) | Flag(b5 % 2 == 1, 0x20) |
                 Flag(b6 % 2 == 1, 0x40) | Flag(b7 == 1, 0x80)
  {
    x := Unsigned(b);
  }

  lemma Halved(n: nat) returns (h: nat, on: bool)
    ensures h == n / 2 && on == (n % 2 == 1) && n == 2 * h + Worth(on, 1)
  {
    h, on := n / 2, n % 2 == 1;
  }

  lemma DigitsSum(b: nat, b1: nat, b2: nat, b3: nat, b4: nat, b5: nat, b6: nat, b7: nat,
                  a0: bool, a1: bool, a2: bool, a3: bool, a4: bool, a5: bool, a6: bool)
    requires b == 2 * b1 + Worth(a0, 1) && b1 == 2 * b2 + Worth(a1, 1) && b2 == 2 * b3 + Worth(a2, 1)
    requires b3 == 2 * b4 + Worth(a3, 1) && b4 == 2 * b5 + Worth(a4, 1) && b5 == 2 * b6 + Worth(a5, 1)
    requires b6 == 2 * b7 + Worth(a6, 1) && b < 256
    ensures b == Worth(a0, 1) + Worth(a1, 2) + Worth(a2, 4) + Worth(a3, 8)
      + Worth(a4, 16) + Worth(a5, 32) + Worth(a6, 64) + Worth(b7 == 1, 128)
  {
    assert b7 <= 1;
  }

  /** The bits handed to the CRC are those of the number that the byte stands for. */
  lemma UnsignedIsValue(b: byte) returns (x: bv8)
    ensures x == Unsigned(b) && Number(x) == b
  {
    var b1, a0 := Halved(b);
    var b2, a1 := Halved(b1);
    var b3, a2 := Halved(b2);
    var b4, a3 := Halved(b3);
    var b5, a4 := Halved(b4);
    var b6, a5 := Halved(b5);
    var b7, a6 := Halved(b6);
    x := DigitsOf(b, b1, b2, b3, b4, b5, b6, b7);
    FlagsMake(a0, a1, a2, a3, a4, a5, a6, b7 == 1, x);
    DigitsSum(b, b1, b2, b3, b4, b5, b6, b7, a0, a1, a2, a3, a4, a5, a6);
  }

  lemma BitsAgree(a: seq<byte>, b: seq<byte>, from: nat)
    requires |a| == |b| && forall k :: 0 <= k < |a| && !(from <= k < from + 4) ==> a[k] == b[k]
    ensures forall k :: 0 <= k < |a| && !(from <= k < from + 4) ==> Bits(a)[k] == Bits(b)[k]
    ensures Bits(a) == Bits(b) ==> a == b
  {
    if Bits(a) == Bits(b) {
      forall k | 0 <= k < |a| ensures a[k] == b[k] {
        assert Bits(a)[k] == Bits(b)[k];
        UnsignedInjective(a[k], b[k]);
      }
    }
  }

  /**
   * An image read from the device whose data differ from a good image only within four consecutive bytes, under the
   * good image's CRC, is always rejected; and only such a difference makes the load fail.
   */
  lemma LoadRejectsBurst(l: Local, s: Shared, good: seq<byte>, read: seq<byte>, from: nat)
    requires l.kv != [] && s.refcnt == 0 && Terminated(good)
    requires |good| == |read| && forall k :: 0 <= k < |good| && !(from <= k < from + 4) ==> good[k] == read[k]
    ensures CrcOf(read) == CrcOf(good) ==> Terminated(read)
    ensures var (_, s', ret) := Load(l, s, FullRead(CrcOf(good), read));
      ret == (if read == good then 0 else -3) && s'.refcnt == (if read == good then 1 else 0)
  {
    BitsAgree(good, read, from);
    Crc32.BurstDetected(Bits(good), Bits(read), from);
  }
}
