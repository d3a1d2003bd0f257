/**
 * The code of ubootenv/ubootenv.c on a shared image in memory, each routine proved to do what EnvCodec and EnvCache
 * say. What happens under the shared lock is one step; bootenv_init is the loop with nobody in between, and
 * EnvSystem.dfy takes it apart.
 */
module EnvProcess {
  import opened Wrappers
  import opened EnvCodec
  import opened EnvCache
  import Crc32

  /** The shared memory area: bookkeeping fields and the image (its CRC and its data). */
  class SharedImage {
    var refcnt: int
    var revision: nat
    var crc: bv32
    const data: array<byte>

    constructor (size: nat)
      ensures fresh(data) && data.Length == size
      ensures View() == NewArea(size)
    {
      data := new byte[size](_ => NUL);
      refcnt, revision, crc := 0, 0, 0;
    }

    function View(): Shared
      reads this, data
    {
      Shared(refcnt, revision, crc, data[..])
    }
  }

  /** The name of the area in the file system, and the area it means. */
  class AreaName {
    var area: SharedImage?

    constructor ()
      ensures area == null
    {
      area := null;
    }
  }

  /** What the list holds when the parser stands at ptr, in each of its modes. */
  ghost predicate Parsing(d: seq<byte>, headKey: seq<byte>, kv: seq<Entry>, ptr: nat, procKey: bool, procNext: bool)
    requires Terminated(d)
  {
    && kv != []
    && (procNext ==>
          procKey && kv[|kv| - 1].value.Some? && ParseRecords(d, 0, headKey) == kv + ParseRecords(d, ptr, []))
    && (procKey && !procNext ==> ptr == 0 && kv == [Entry(headKey, None)])
    && (!procKey ==>
          var last := |kv| - 1;
          kv[last].value == None && ParseRecords(d, 0, headKey) == kv[..last] + ParseValue(d, ptr, kv[last].key))
  }

  lemma MoveOver<T>(done: seq<T>, e: T, rest: seq<T>)
    ensures done + ([e] + rest) == (done + [e]) + rest
    ensures |done + [e]| > 0
  {}

  lemma KeyParsed(d: seq<byte>, ptr: nat, pend: nat, unset: seq<byte>)
    requires Terminated(d) && ptr < |d| && d[ptr] != NUL && pend == Seek(d, ptr, EQ) && d[pend] == EQ
    ensures ParseRecords(d, ptr, unset) == ParseValue(d, pend + 1, Clip(d[ptr..pend], MAX_KEY))
  {}

  lemma KeyNotFound(d: seq<byte>, ptr: nat, pend: nat, unset: seq<byte>)
    requires Terminated(d) && ptr < |d| && d[ptr] != NUL && pend == Seek(d, ptr, EQ) && d[pend] != EQ
    ensures ParseRecords(d, ptr, unset) == [Entry(unset, None)]
  {}

  /** The records before the one whose key is about to be read, and all of them. */
  lemma KeyPlace(d: seq<byte>, headKey: seq<byte>, kv: seq<Entry>, ptr: nat, procNext: bool) returns (done: seq<Entry>)
    requires Terminated(d) && Parsing(d, headKey, kv, ptr, true, procNext)
    ensures var unset := if procNext then [] else headKey;
      && Grown(kv, procNext) == done + [Entry(unset, None)]
      && ParseRecords(d, 0, headKey) == done + ParseRecords(d, ptr, unset)
  {
    done := if procNext then kv else [];
  }

  /** The node a parser that expects a key is about to fill, in its list. */
  function Grown(kv: seq<Entry>, procNext: bool): seq<Entry> {
    if procNext then kv + [Entry([], None)] else kv
  }

  /** A record without '=' ends the parse with its node unfilled. */
  lemma KeyMissing(d: seq<byte>, headKey: seq<byte>, kv: seq<Entry>, ptr: nat, procNext: bool, pend: nat)
    requires Terminated(d) && Parsing(d, headKey, kv, ptr, true, procNext)
    requires ptr < |d| && d[ptr] != NUL && pend == Seek(d, ptr, EQ) && d[pend] != EQ
    ensures Grown(kv, procNext) == ParseRecords(d, 0, headKey)
  {
    var done := KeyPlace(d, headKey, kv, ptr, procNext);
    KeyNotFound(d, ptr, pend, if procNext then [] else headKey);
  }

  /** A key read by a parser that expects one. */
  lemma KeyRead(d: seq<byte>, headKey: seq<byte>, kv: seq<Entry>, ptr: nat, procNext: bool, pend: nat)
      returns (done: seq<Entry>, unset: seq<byte>)
    requires Terminated(d) && Parsing(d, headKey, kv, ptr, true, procNext)
    requires ptr < |d| && d[ptr] != NUL && pend == Seek(d, ptr, EQ) && d[pend] == EQ
    ensures Grown(kv, procNext) == done + [Entry(unset, None)]
    ensures Parsing(d, headKey, done + [Entry(Clip(d[ptr..pend], MAX_KEY), None)], pend + 1, false, false)
  {
    unset := if procNext then [] else headKey;
    done := KeyPlace(d, headKey, kv, ptr, procNext);
    KeyParsed(d, ptr, pend, unset);
    KeyFilled(d, headKey, done, pend + 1, Clip(d[ptr..pend], MAX_KEY));
  }

  /** The nodes filled once a key has been read. */
  lemma KeyStep(d: seq<byte>, headKey: seq<byte>, own: seq<Entry>, ptr: nat, procNext: bool, pend: nat, key: seq<byte>)
      returns (next: seq<Entry>)
    requires Terminated(d) && Parsing(d, headKey, own, ptr, true, procNext)
    requires ptr < |d| && d[ptr] != NUL && pend == Seek(d, ptr, EQ) && d[pend] == EQ
    requires key == Clip(d[ptr..pend], MAX_KEY)
    ensures var grown := Grown(own, procNext);
      grown != [] && next == grown[..|grown| - 1] + [grown[|grown| - 1].(key := key)]
    ensures Parsing(d, headKey, next, pend + 1, false, false)
  {
    var done, unset := KeyRead(d, headKey, own, ptr, procNext, pend);
    LastOf(done, Entry(unset, None));
    next := done + [Entry(key, None)];
  }

  lemma LastOf<T>(done: seq<T>, e: T)
    ensures (done + [e])[..|done + [e]| - 1] == done && (done + [e])[|done + [e]| - 1] == e
  {}

  lemma KeyFilled(d: seq<byte>, headKey: seq<byte>, done: seq<Entry>, ptr: nat, key: seq<byte>)
    requires Terminated(d) && ParseRecords(d, 0, headKey) == done + ParseValue(d, ptr, key)
    ensures Parsing(d, headKey, done + [Entry(key, None)], ptr, false, false)
  {
    assert (done + [Entry(key, None)])[..|done|] == done;
  }

  /** A value read by a parser that expects one. */
  lemma ValueRead(d: seq<byte>, headKey: seq<byte>, kv: seq<Entry>, ptr: nat, pend: nat)
    requires Terminated(d) && Parsing(d, headKey, kv, ptr, false, false)
    requires ptr < |d| && d[ptr] != NUL && pend == Seek(d, ptr, NUL)
    ensures var last := |kv| - 1;
      Parsing(d, headKey, kv[..last] + [kv[last].(value := Some(Clip(d[ptr..pend], MAX_VALUE)))], pend + 1, true, true)
  {
    var done, key := kv[..|kv| - 1], kv[|kv| - 1].key;
    var e := Entry(key, Some(Clip(d[ptr..pend], MAX_VALUE)));
    var rest := ParseRecords(d, pend + 1, []);
    ValueParsed(d, ptr, pend, key);
    MoveOver(done, e, rest);
  }

  lemma ValueParsed(d: seq<byte>, ptr: nat, pend: nat, key: seq<byte>)
    requires Terminated(d) && ptr < |d| && d[ptr] != NUL && pend == Seek(d, ptr, NUL)
    ensures ParseValue(d, ptr, key)
         == [Entry(key, Some(Clip(d[ptr..pend], MAX_VALUE)))] + ParseRecords(d, pend + 1, [])
  {}

  lemma ParsingEnds(d: seq<byte>, headKey: seq<byte>, kv: seq<Entry>, ptr: nat, procKey: bool, procNext: bool)
    requires Terminated(d) && Parsing(d, headKey, kv, ptr, procKey, procNext)
    requires ptr >= |d| || d[ptr] == NUL
    ensures kv == Parse(d, headKey)
  {
    var last := |kv| - 1;
    assert kv == kv[..last] + [kv[last]];
  }

  /** The nodes filled so far, and the list: behind a head that no new node follows yet hangs the rest of the old list,
      and a head without a value yet keeps its old value. */
  ghost predicate Filled(kv: seq<Entry>, own: seq<Entry>, was: seq<Entry>) {
    && own != [] && was != []
    && (|own| > 1 ==> kv == own)
    && (|own| == 1 ==>
          kv == [Entry(own[0].key, if own[0].value.Some? then own[0].value else was[0].value)] + was[1..])
  }

  /** A new node is linked behind the last one filled. */
  lemma FilledGrow(kv: seq<Entry>, own: seq<Entry>, was: seq<Entry>)
    requires Filled(kv, own, was) && own[|own| - 1].value.Some?
    ensures |own| <= |kv| && Filled(kv[..|own|] + [Entry([], None)], own + [Entry([], None)], was)
  {
    assert kv[..|own|] == own;
  }

  lemma FilledKey(kv: seq<Entry>, own: seq<Entry>, was: seq<Entry>, key: seq<byte>)
    requires Filled(kv, own, was) && own[|own| - 1].value.None?
    ensures |own| <= |kv|
    ensures var at := |own| - 1;
      Filled(kv[at := kv[at].(key := key)], own[..at] + [own[at].(key := key)], was)
  {
    var at := |own| - 1;
    assert own[..at] + [own[at].(key := key)] == own[at := own[at].(key := key)];
  }

  lemma FilledValue(kv: seq<Entry>, own: seq<Entry>, was: seq<Entry>, value: seq<byte>)
    requires Filled(kv, own, was)
    ensures |own| <= |kv|
    ensures var at := |own| - 1;
      Filled(kv[at := kv[at].(value := Some(value))], own[..at] + [own[at].(value := Some(value))], was)
  {
    var at := |own| - 1;
    assert own[..at] + [own[at].(value := Some(value))] == own[at := own[at].(value := Some(value))];
  }

  /** Where the parsing loop stands: the nodes filled, the list, and the node it is at. */
  ghost predicate Underway(d: seq<byte>, was: seq<Entry>, own: seq<Entry>, kv: seq<Entry>, at: nat, ptr: nat,
                           procKey: bool, procNext: bool)
    requires Terminated(d)
  {
    && was != [] && own != [] && Parsing(d, was[0].key, own, ptr, procKey, procNext)
    && at == |own| - 1 && at < |kv| && Filled(kv, own, was)
  }

  lemma NextNode(d: seq<byte>, was: seq<Entry>, own: seq<Entry>, kv: seq<Entry>, at: nat, ptr: nat)
    requires Terminated(d) && Underway(d, was, own, kv, at, ptr, true, true)
    ensures Filled(kv[..at + 1] + [Entry([], None)], Grown(own, true), was)
  {
    FilledGrow(kv, own, was);
  }

  /** The list when a key has been read. */
  lemma KeyTurn(d: seq<byte>, was: seq<Entry>, own: seq<Entry>, kv: seq<Entry>, at: nat, ptr: nat, procNext: bool,
                pend: nat, text: seq<byte>) returns (next: seq<Entry>)
    requires Terminated(d) && was != [] && Parsing(d, was[0].key, own, ptr, true, procNext)
    requires at == |Grown(own, procNext)| - 1 && Filled(kv, Grown(own, procNext), was)
    requires ptr < |d| && d[ptr] != NUL && pend == Seek(d, ptr, EQ) && d[pend] == EQ
    requires text == Clip(d[ptr..pend], MAX_KEY)
    ensures at < |kv| && Underway(d, was, next, kv[at := kv[at].(key := text)], at, pend + 1, false, false)
  {
    next := KeyStep(d, was[0].key, own, ptr, procNext, pend, text);
    assert Grown(own, procNext)[at].value.None?;
    FilledKey(kv, Grown(own, procNext), was, text);
  }

  /** The list when a value has been read. */
  lemma ValueTurn(d: seq<byte>, was: seq<Entry>, own: seq<Entry>, kv: seq<Entry>, at: nat, ptr: nat, pend: nat,
                  text: seq<byte>) returns (next: seq<Entry>)
    requires Terminated(d) && Underway(d, was, own, kv, at, ptr, false, false)
    requires ptr < |d| && d[ptr] != NUL && pend == Seek(d, ptr, NUL) && text == Clip(d[ptr..pend], MAX_VALUE)
    ensures Underway(d, was, next, kv[at := kv[at].(value := Some(text))], at, pend + 1, true, true)
  {
    next := own[..at] + [own[at].(value := Some(text))];
    FilledValue(kv, own, was, text);
    ValueRead(d, was[0].key, own, ptr, pend);
  }

  /** The list when the parse has come to an end. */
  lemma ParsedOver(d: seq<byte>, was: seq<Entry>, own: seq<Entry>, kv: seq<Entry>)
    requires Terminated(d) && was != [] && Filled(kv, own, was) && own == Parse(d, was[0].key)
    ensures kv == ParseOver(d, was)
  {}

  lemma ParseReleased(d: seq<byte>, headKey: seq<byte>)
    requires Terminated(d)
    ensures ParseOver(d, [Entry(headKey, None)]) == Parse(d, headKey)
  {}

  /** One step of the search for the entry to set. */
  lemma SetKvAt(kv: seq<Entry>, i: nat, key: seq<byte>, value: seq<byte>)
    requires i < |kv|
    ensures kv[..i] + SetKv(kv[i..], key, value) ==
      if kv[i].key == key then kv[..i] + [kv[i].(value := Some(value))] + kv[i + 1..]
      else kv[..i + 1] + SetKv(kv[i + 1..], key, value)
  {
    assert kv[..i + 1] == kv[..i] + [kv[i]] && kv[i..][1..] == kv[i + 1..];
  }

  /** A read fills the area. */
  ghost predicate ReadsFit(outcomes: seq<ReadOutcome>, size: nat) {
    forall i :: 0 <= i < |outcomes| && !outcomes[i].OpenFailed? ==> |outcomes[i].data| == size
  }

  /** Where the retry loop stands, on the way to the result that is the goal. */
  ghost predicate Initialising(l: Local, named: Option<Shared>, outcomes: seq<ReadOutcome>, size: nat, i: nat, ret: int,
                               goal: (Local, Option<Shared>, int))
  {
    && |outcomes| == MAX_RETRY && ReadsTerminated(outcomes) && ReadsFit(outcomes, size)
    && l.kv != [] && (ret < 0 ==> AreaLoadable(named)) && InitLoop(l, named, outcomes, size, i, ret) == goal
  }

  lemma InitNext(l: Local, named: Option<Shared>, outcomes: seq<ReadOutcome>, size: nat, i: nat, ret: int,
                 goal: (Local, Option<Shared>, int), l': Local, named': Option<Shared>, ret': int)
    requires i < MAX_RETRY && ret < 0 && Initialising(l, named, outcomes, size, i, ret, goal)
    requires var (l1, s1, r1) := Load(l, Mapped(named, size), outcomes[i]);
      l' == l1 && ret' == r1 && named' == if r1 < -2 then Released(s1) else Some(s1)
    ensures Initialising(l', named', outcomes, size, i + 1, ret', goal)
  {}

  lemma PrintedAt(was: seq<byte>, now: seq<byte>, pos: nat, s: seq<byte>)
    requires pos + |s| + 1 <= |was| == |now| && now[pos + |s|] == NUL
    requires forall k :: 0 <= k < |s| ==> now[pos + k] == s[k]
    requires forall k :: 0 <= k < |now| && !(pos <= k <= pos + |s|) ==> now[k] == was[k]
    ensures now == WriteAt(was, pos, s + [NUL])
  {
    var r := WriteAt(was, pos, s + [NUL]);
    forall k | 0 <= k < |now|
      ensures now[k] == r[k]
    {
      assert pos <= k < pos + |s| ==> now[pos + (k - pos)] == s[k - pos];
    }
  }

  class Process {
    const size: nat
    const name: AreaName
    /** The area mapped, if any. */
    var shm: SharedImage?
    var inited: bool
    var revision: nat
    /** The key/value list, static head node first. */
    var kv: seq<Entry>

    constructor (size: nat, name: AreaName)
      ensures this.size == size && this.name == name && shm == null && View() == FreshLocal
    {
      this.size, this.name := size, name;
      shm, inited, revision := null, false, 0;
      kv := [Entry([], None)];
    }

    function View(): Local
      reads this
    {
      Local(inited, revision, kv)
    }

    /** strchr on the data area: the first c from p on, if no NUL comes before it. */
    method StrChr(p: nat, c: byte) returns (found: bool, i: nat)
      requires shm != null
      requires Terminated(shm.data[..]) && p < shm.data.Length
      ensures i == Seek(shm.data[..], p, c) && found == (shm.data[i] == c)
    {
      i := p;
      while shm.data[i] != c && shm.data[i] != NUL
        invariant p <= i < shm.data.Length
        invariant Seek(shm.data[..], p, c) == Seek(shm.data[..], i, c)
        decreases shm.data.Length - i
      {
        i := i + 1;
      }
      found := shm.data[i] == c;
    }

    /** env_release_kv: every node but the head goes, and the head loses its value but not its key. */
    method ReleaseKv()
      requires kv != []
      modifies this`kv
      ensures kv == [Entry(old(kv)[0].key, None)]
    {
      kv := [Entry(kv[0].key, None)];
    }

    /** The bytes up to the end of the key or value that starts at ptr, cut to what the node has room for. */
    method ReadText(ptr: nat, procKey: bool) returns (found: bool, text: seq<byte>, pend: nat)
      requires shm != null
      requires Terminated(shm.data[..]) && ptr < shm.data.Length
      ensures var d := shm.data[..];
        && pend == Seek(d, ptr, if procKey then EQ else NUL)
        && found == (d[pend] == if procKey then EQ else NUL)
        && text == Clip(d[ptr..pend], if procKey then MAX_KEY else MAX_VALUE)
    {
      found, pend := StrChr(ptr, if procKey then EQ else NUL);
      var plen := pend - ptr + 1;
      var maxlen := if procKey then MAX_KEY + 1 else MAX_VALUE + 1;
      if plen > maxlen {
        plen := maxlen;
      }
      text := shm.data[ptr..ptr + plen - 1];
    }

    /** env_parse_kv. */
    method ParseKv()
      requires shm != null && Terminated(shm.data[..]) && kv != []
      modifies this`kv
      ensures kv == ParseOver(shm.data[..], old(kv))
    {
      ghost var d, was := shm.data[..], kv;
      ghost var own := [Entry(kv[0].key, None)];
      var ptr, at := 0, 0;
      var procKey, procNext := true, false;
      while ptr < shm.data.Length
        invariant ptr <= shm.data.Length && Underway(d, was, own, kv, at, ptr, procKey, procNext)
        decreases shm.data.Length - ptr
      {
        if shm.data[ptr] == NUL {
          break;
        }
        if procNext {
          NextNode(d, was, own, kv, at, ptr);
          kv, at := kv[..at + 1] + [Entry([], None)], at + 1;
        }
        var found, text, pend := ReadText(ptr, procKey);
        if !found {
          KeyMissing(d, was[0].key, own, ptr, procNext, pend);
          ParsedOver(d, was, Grown(own, procNext), kv);
          return;
        }
        if procKey {
          own := KeyTurn(d, was, own, kv, at, ptr, procNext, pend, text);
          kv := kv[at := kv[at].(key := text)];
          procKey, procNext := false, false;
        } else {
          own := ValueTurn(d, was, own, kv, at, ptr, pend, text);
          kv := kv[at := kv[at].(value := Some(text))];
          procKey, procNext := true, true;
        }
        ptr := pend + 1;
      }
      ParsingEnds(d, was[0].key, own, ptr, procKey, procNext);
      ParsedOver(d, was, own, kv);
    }

    /** check_load_kv. */
    method CheckLoadKv()
      requires shm != null && Terminated(shm.data[..]) && kv != []
      modifies this`kv, this`revision
      ensures View() == CheckLoad(old(View()), shm.View())
    {
      if revision != shm.revision {
        ReleaseKv();
        ghost var headKey := kv[0].key;
        ParseKv();
        ParseReleased(shm.data[..], headKey);
        revision := shm.revision;
      }
    }

    /** sprintf of one string into the area, terminator included. */
    method Print(pos: nat, s: seq<byte>)
      requires shm != null
      requires pos + |s| + 1 <= shm.data.Length
      modifies shm.data
      ensures shm.data[..] == WriteAt(old(shm.data[..]), pos, s + [NUL])
    {
      var i := 0;
      while i < |s|
        invariant 0 <= i <= |s|
        invariant forall k :: 0 <= k < i ==> shm.data[pos + k] == s[k]
        invariant forall k :: 0 <= k < shm.data.Length && !(pos <= k < pos + i) ==> shm.data[k] == old(shm.data[k])
      {
        shm.data[pos + i] := s[i];
        i := i + 1;
      }
      shm.data[pos + i] := NUL;
      PrintedAt(old(shm.data[..]), shm.data[..], pos, s);
    }

    /** memset of the whole area. */
    method ClearData()
      requires shm != null
      modifies shm.data
      ensures shm.data[..] == Zeros(shm.data.Length)
    {
      var i := 0;
      while i < shm.data.Length
        invariant 0 <= i <= shm.data.Length
        invariant forall k :: 0 <= k < i ==> shm.data[k] == NUL
      {
        shm.data[i] := NUL;
        i := i + 1;
      }
    }

    /** The loop of env_serialize_data over a cleared area. */
    method WriteList()
      requires shm != null
      requires Storable(kv, shm.data.Length) && shm.data[..] == Zeros(shm.data.Length)
      modifies shm.data
      ensures shm.data[..] == Serialize(kv, shm.data.Length)
    {
      var pos := 0;
      var attr := 0;
      while attr < |kv|
        invariant 0 <= attr <= |kv|
        invariant Fits(kv[attr..], pos, shm.data.Length)
        invariant Serialize(kv, shm.data.Length) == WriteAll(shm.data[..], pos, kv[attr..])
      {
        assert kv[attr] in kv && kv[attr..][0] == kv[attr] && kv[attr..][1..] == kv[attr + 1..];
        var record := kv[attr].key + [EQ] + kv[attr].value.value;
        Print(pos, record);
        var len := |record|;
        if len >= 3 {
          pos := pos + len + 1;
        }
        attr := attr + 1;
      }
    }

    /** env_serialize_data. */
    method SerializeData()
      requires shm != null
      requires Storable(kv, shm.data.Length)
      modifies this`revision, shm`revision, shm.data
      ensures shm.data[..] == Serialize(kv, shm.data.Length)
      ensures revision == shm.revision == (old(revision) + 1) % WRAP
    {
      ClearData();
      WriteList();
      revision := (revision + 1) % WRAP;
      shm.revision := revision;
    }

    /** bootenv_get_value. */
    method GetKv(key: seq<byte>) returns (v: Option<seq<byte>>)
      ensures v == if inited then Lookup(kv, key) else None
    {
      if !inited {
        return None;
      }
      var i := 0;
      while i < |kv| && kv[i].key != key
        invariant 0 <= i <= |kv|
        invariant Lookup(kv, key) == Lookup(kv[i..], key)
      {
        assert kv[i..][1..] == kv[i + 1..];
        i := i + 1;
      }
      v := if i < |kv| then kv[i].value else None;
    }

    /** bootenv_set_value with the create flag set. */
    method PutKv(key: seq<byte>, value: seq<byte>)
      modifies this`kv
      ensures kv == SetKv(old(kv), key, value)
    {
      var i := 0;
      while i < |kv|
        invariant 0 <= i <= |kv|
        invariant kv == old(kv) && SetKv(kv, key, value) == kv[..i] + SetKv(kv[i..], key, value)
      {
        SetKvAt(kv, i, key, value);
        if kv[i].key == key {
          kv := kv[..i] + [kv[i].(value := Some(value))] + kv[i + 1..];
          return;
        }
        i := i + 1;
      }
      kv := kv + [Entry(Clip(key, MAX_KEY), Some(value))];
    }

    /** Whether the stored CRC matches the data. */
    method CrcMatches() returns (ok: bool)
      requires shm != null
      ensures ok == (CrcOf(shm.data[..]) == shm.crc)
    {
      var crc := Crc32.BitwiseCrc(Bits(shm.data[..]));
      ok := crc == shm.crc;
    }

    /** save_bootenv; `code` is what writing the device returned. */
    method SaveBootenv(code: int) returns (ret: int)
      requires shm != null
      requires Storable(kv, shm.data.Length)
      modifies this`revision, shm, shm.data
      ensures (View(), shm.View()) == SerializeStep(old(View()), old(shm.View()))
      ensures ret == code
    {
      SerializeData();
      shm.crc := Crc32.BitwiseCrc(Bits(shm.data[..]));
      ret := code;
    }

    /** The loop of bootenv_update that saves until a device write succeeds, at most five times. */
    method SaveRetrying(codes: seq<int>) returns (ret: int)
      requires shm != null
      requires |codes| == MAX_RETRY && Storable(kv, shm.data.Length)
      modifies this`revision, shm, shm.data
      ensures (View(), shm.View(), ret) == SaveLoop(old(View()), old(shm.View()), codes, 0, -1)
    {
      ghost var l, s := View(), shm.View();
      var i := 0;
      ret := -1;
      while i < MAX_RETRY && ret < 0
        invariant 0 <= i <= MAX_RETRY
        invariant kv == l.kv && |shm.data[..]| == |s.data|
        invariant SaveLoop(l, s, codes, 0, -1) == SaveLoop(View(), shm.View(), codes, i, ret)
      {
        ret := SaveBootenv(codes[i]);
        i := i + 1;
      }
    }

    /** bootenv_update. */
    method BootenvUpdate(name: seq<byte>, value: seq<byte>, codes: seq<int>) returns (ret: int)
      requires |codes| == MAX_RETRY
      requires inited ==> shm != null && Terminated(shm.data[..]) && kv != []
      requires inited ==> Storable(SetKv(CheckLoad(View(), shm.View()).kv, name, value), shm.data.Length)
      modifies this`kv, this`revision, shm, if shm == null then {} else {shm.data}
      ensures inited ==> (View(), shm.View(), ret) == Update(old(View()), old(shm.View()), name, value, codes)
      ensures !inited ==> View() == old(View()) && ret == -1 && (shm != null ==> shm.View() == old(shm.View()))
    {
      if !inited {
        return -1;
      }
      CheckLoadKv();
      var current := GetKv(name);
      if value == (if current.Some? then current.value else []) {
        return 0;
      }
      PutKv(name, value);
      ret := SaveRetrying(codes);
    }

    /** bootenv_get. */
    method BootenvGet(key: seq<byte>) returns (v: Option<seq<byte>>)
      requires inited ==> shm != null && Terminated(shm.data[..]) && kv != []
      modifies this`kv, this`revision
      ensures inited ==> (View(), v) == Get(old(View()), shm.View(), key)
      ensures !inited ==> View() == old(View()) && v == None
    {
      if !inited {
        return None;
      }
      CheckLoadKv();
      v := GetKv(key);
    }

    method CopyIn(d: seq<byte>)
      requires shm != null
      requires |d| == shm.data.Length
      modifies shm.data
      ensures shm.data[..] == d
    {
      var i := 0;
      while i < shm.data.Length
        invariant 0 <= i <= shm.data.Length
        invariant shm.data[..i] == d[..i]
      {
        shm.data[i] := d[i];
        i := i + 1;
      }
    }

    /** acquire_envimg_buffer: the area mapped before, the one the name means, or a new one under the name. */
    method AcquireBuffer()
      modifies this`shm, name
      ensures shm != null
      ensures old(shm) != null ==> shm == old(shm) && name.area == old(name.area)
      ensures old(shm) == null && old(name.area) != null ==> shm == old(name.area) && name.area == old(name.area)
      ensures old(shm) == null && old(name.area) == null ==>
        && fresh(shm) && fresh(shm.data) && name.area == shm
        && shm.data.Length == size && shm.View() == NewArea(size)
    {
      if shm != null {
        return;
      }
      if name.area == null {
        name.area := new SharedImage(size);
      }
      shm := name.area;
    }

    /** release_envimg_buffer. */
    method ReleaseBuffer()
      requires shm != null
      modifies this`shm, shm`refcnt, name
      ensures shm == null && old(shm).refcnt == old(shm.refcnt) - 1
      ensures name.area == if old(shm.refcnt) - 1 <= 0 then null else old(name.area)
    {
      shm.refcnt := shm.refcnt - 1;
      if shm.refcnt <= 0 {
        name.area := null;
      }
      shm := null;
    }

    /** Reads the partition into an area that holds no image. */
    method ReadPartition(read: ReadOutcome) returns (ret: int)
      requires shm != null && shm.refcnt == 0
      requires !read.OpenFailed? ==> |read.data| == shm.data.Length
      modifies shm, shm.data
      ensures ret == (if read.OpenFailed? then -1 else if read.ShortRead? then -2 else 0)
      ensures shm.View() ==
        if read.OpenFailed? then old(shm.View()) else old(shm.View()).(crc := read.crc, data := read.data)
    {
      if read.OpenFailed? {
        return -1;
      }
      CopyIn(read.data);
      shm.crc := read.crc;
      ret := if read.ShortRead? then -2 else 0;
    }

    /** Checks the CRC and parses the area. */
    method ParseChecked() returns (ret: int)
      requires shm != null && kv != [] && (CrcOf(shm.data[..]) == shm.crc ==> Terminated(shm.data[..]))
      modifies this`kv, this`revision, shm`refcnt
      ensures var l, s := old(View()).(revision := shm.revision), old(shm.View());
        if CrcOf(s.data) != s.crc then View() == l && shm.View() == s.(refcnt := 0) && ret == -3
        else View() == l.(kv := ParseOver(s.data, l.kv)) && shm.View() == s.(refcnt := s.refcnt + 1) && ret == 0
    {
      revision := shm.revision;
      var ok := CrcMatches();
      if !ok {
        shm.refcnt := 0;
        return -3;
      }
      ParseKv();
      shm.refcnt := shm.refcnt + 1;
      return 0;
    }

    /** The part of load_bootenv under the lock. */
    method LoadBootenv(read: ReadOutcome) returns (ret: int)
      requires shm != null && kv != [] && Loadable(shm.View(), read)
      requires !read.OpenFailed? ==> |read.data| == shm.data.Length
      modifies this`kv, this`revision, shm, shm.data
      ensures (View(), shm.View(), ret) == Load(old(View()), old(shm.View()), read)
    {
      if shm.refcnt == 0 {
        ret := ReadPartition(read);
        if ret < 0 {
          return;
        }
      }
      ret := ParseChecked();
    }

    /** The area that the name means. */
    function NamedArea(): Option<Shared>
      reads this, name, name.area, if name.area == null then {} else {name.area.data}
    {
      if name.area == null then None else Some(name.area.View())
    }

    /** The process has mapped what the name means, or nothing. */
    ghost predicate OnNamedArea()
      reads this, name, name.area
    {
      && (shm != null ==> shm == name.area)
      && (name.area != null ==> name.area.data.Length == size)
    }

    /** A load, and after a wrong CRC the release. */
    method LoadOrRelease(read: ReadOutcome) returns (ret: int)
      requires OnNamedArea() && kv != [] && Loadable(Mapped(NamedArea(), size), read)
      requires !read.OpenFailed? ==> |read.data| == size
      modifies this`shm, this`kv, this`revision, name, name.area, if name.area == null then {} else {name.area.data}
      ensures OnNamedArea()
      ensures name.area == null || name.area == old(name.area) || (fresh(name.area) && fresh(name.area.data))
      ensures var (l, s, code) := Load(old(View()), Mapped(old(NamedArea()), size), read);
        View() == l && ret == code && NamedArea() == if code < -2 then Released(s) else Some(s)
    {
      AcquireBuffer();
      assert shm.View() == Mapped(old(NamedArea()), size);
      ret := LoadBootenv(read);
      if ret < -2 {
        ReleaseBuffer();
      }
    }

    /** One turn of the retry loop. */
    method InitTurn(outcomes: seq<ReadOutcome>, i: nat, ghost before: int, ghost goal: (Local, Option<Shared>, int))
      returns (ret: int)
      requires OnNamedArea() && i < MAX_RETRY && before < 0
      requires Initialising(View(), NamedArea(), outcomes, size, i, before, goal)
      modifies this`shm, this`kv, this`revision, name, name.area, if name.area == null then {} else {name.area.data}
      ensures OnNamedArea()
      ensures name.area == null || name.area == old(name.area) || (fresh(name.area) && fresh(name.area.data))
      ensures Initialising(View(), NamedArea(), outcomes, size, i + 1, ret, goal)
    {
      ghost var l, named := View(), NamedArea();
      ret := LoadOrRelease(outcomes[i]);
      InitNext(l, named, outcomes, size, i, before, goal, View(), NamedArea(), ret);
    }

    /** The retry loop of bootenv_init. */
    method InitRetrying(outcomes: seq<ReadOutcome>, ghost goal: (Local, Option<Shared>, int)) returns (i: nat, ret: int)
      requires OnNamedArea() && Initialising(View(), NamedArea(), outcomes, size, 0, -1, goal)
      modifies this`shm, this`kv, this`revision, name, name.area, if name.area == null then {} else {name.area.data}
      ensures i >= MAX_RETRY || ret >= 0
      ensures Initialising(View(), NamedArea(), outcomes, size, i, ret, goal)
    {
      i, ret := 0, -1;
      while i < MAX_RETRY && ret < 0
        invariant OnNamedArea()
        invariant name.area == null || name.area == old(name.area) || (fresh(name.area) && fresh(name.area.data))
        invariant Initialising(View(), NamedArea(), outcomes, size, i, ret, goal)
      {
        ret := InitTurn(outcomes, i, ret, goal);
        i := i + 1;
      }
    }

    /** bootenv_init, once the device is known, with no other process in between. */
    method BootenvInit(outcomes: seq<ReadOutcome>) returns (ret: int)
      requires OnNamedArea() && kv != [] && |outcomes| == MAX_RETRY && ReadsTerminated(outcomes)
      requires ReadsFit(outcomes, size)
      requires AreaLoadable(NamedArea())
      modifies this, name, name.area, if name.area == null then {} else {name.area.data}
      ensures old(inited) ==> ret == 0 && View() == old(View()) && NamedArea() == old(NamedArea())
      ensures !old(inited) ==>
        (View(), NamedArea(), ret) == InitLoop(old(View()), old(NamedArea()), outcomes, size, 0, -1)
    {
      if inited {
        return 0;
      }
      var i: nat;
      ghost var goal := InitLoop(View(), NamedArea(), outcomes, size, 0, -1);
      i, ret := InitRetrying(outcomes, goal);
      if i >= MAX_RETRY {
        return -2;
      }
      inited := true;
      return 0;
    }
  }
}
