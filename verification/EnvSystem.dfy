/**
 * Many processes on one environment. Every step is one stretch of code between two points where another process may
 * come in: mapping the shared area, one load attempt, giving the area up after a wrong CRC, a get, an update. The area
 * has a name in the file system; a process keeps the area it has mapped even when the name has gone or means another.
 */
module EnvSystem {
  import opened Wrappers
  import opened EnvCodec
  import opened EnvCache

  /** A process: its list, the area it has mapped, how many load attempts its current bootenv_init has made, whether it
      is about to give the area up, and whether a load of its counts as a reference to the area. */
  datatype Proc = Proc(local: Local, seg: Option<nat>, tries: nat, leaving: bool, loaded: bool)

  const NewProc := Proc(FreshLocal, None, 0, false, false)

  /** All areas ever made, the one that the name means, and the processes that have done something. */
  datatype System = System(size: nat, segs: seq<Shared>, named: Option<nat>, procs: map<nat, Proc>)

  datatype Event =
    | Attach(p: nat)
    | Attempt(p: nat, read: ReadOutcome)
    | Release(p: nat)
    | GetValue(p: nat, key: seq<byte>)
    | SetValue(p: nat, name: seq<byte>, value: seq<byte>, codes: seq<int>)

  /** What a call answers, or that it has not come to its end yet. */
  datatype Reply = Code(code: int) | Value(v: Option<seq<byte>>) | Pending

  function ProcOf(sys: System, p: nat): Proc {
    if p in sys.procs then sys.procs[p] else NewProc
  }

  predicate Attached(sys: System, pr: Proc) {
    pr.seg.Some? && pr.seg.value < |sys.segs|
  }

  function AreaOf(sys: System, pr: Proc): Shared
    requires Attached(sys, pr)
  {
    sys.segs[pr.seg.value]
  }

  /** Where in its code a process must be for a step, and what the code of the step needs in order to be defined. A
      process that has initialised may call bootenv_init again, which does nothing. */
  ghost predicate Usable(sys: System, ev: Event) {
    var pr := ProcOf(sys, ev.p);
    match ev
    case Attach(_) => !pr.local.inited && pr.seg.None? && !pr.leaving
    case Attempt(_, read) =>
      pr.local.inited || (Attached(sys, pr) && !pr.leaving && pr.local.kv != [] && Loadable(AreaOf(sys, pr), read))
    case Release(_) => Attached(sys, pr) && pr.leaving
    case GetValue(_, key) => pr.local.inited ==> CanRead(sys, pr)
    case SetValue(_, name, value, codes) =>
      && |codes| == MAX_RETRY
      && (pr.local.inited ==>
          && CanRead(sys, pr)
          && Storable(SetKv(CheckLoad(pr.local, AreaOf(sys, pr)).kv, name, value), |AreaOf(sys, pr).data|))
  }

  ghost predicate CanRead(sys: System, pr: Proc) {
    Attached(sys, pr) && Terminated(AreaOf(sys, pr).data) && pr.local.kv != []
  }

  /** The system after a step that changed one process and the area it has mapped. */
  function Changed(sys: System, p: nat, pr: Proc, s: Shared): System
    requires Attached(sys, pr)
  {
    System(sys.size, sys.segs[pr.seg.value := s], sys.named, sys.procs[p := pr])
  }

  /** The first process to open the name makes the area. */
  function AttachStep(sys: System, p: nat): System {
    var pr := ProcOf(sys, p);
    if sys.named.Some? then System(sys.size, sys.segs, sys.named, sys.procs[p := pr.(seg := sys.named)])
    else
      var n := |sys.segs|;
      System(sys.size, sys.segs + [NewArea(sys.size)], Some(n), sys.procs[p := pr.(seg := Some(n))])
  }

  /** A process after a load attempt: initialised, trying again, giving the area up, or at the end of the call. */
  function Tried(pr: Proc, l: Local, ret: int): Proc {
    var i := pr.tries + 1;
    if ret >= 0 then Proc(l.(inited := i < MAX_RETRY), pr.seg, 0, false, true)
    else if ret < -2 then Proc(l, pr.seg, i, true, pr.loaded)
    else Proc(l, pr.seg, if i < MAX_RETRY then i else 0, false, pr.loaded)
  }

  function Answer(i: nat, ret: int): Reply {
    if ret < -2 || (ret < 0 && i < MAX_RETRY) then Pending else if i < MAX_RETRY then Code(0) else Code(-2)
  }

  /** One turn of the retry loop of bootenv_init. */
  function AttemptStep(sys: System, p: nat, read: ReadOutcome): (System, Reply)
    requires Usable(sys, Attempt(p, read)) && !ProcOf(sys, p).local.inited
  {
    var pr := ProcOf(sys, p);
    var (l, s, ret) := Load(pr.local, AreaOf(sys, pr), read);
    (Changed(sys, p, Tried(pr, l, ret), s), Answer(pr.tries + 1, ret))
  }

  /** release_envimg_buffer: with the last reference the name is removed, whichever area it means by now. */
  function ReleaseStep(sys: System, p: nat): (System, Reply)
    requires Usable(sys, Release(p))
  {
    var pr := ProcOf(sys, p);
    var s := AreaOf(sys, pr);
    var left := s.(refcnt := s.refcnt - 1);
    var over := pr.tries >= MAX_RETRY;
    var out := Proc(pr.local, None, if over then 0 else pr.tries, false, false);
    var named := if left.refcnt <= 0 then None else sys.named;
    (System(sys.size, sys.segs[pr.seg.value := left], named, sys.procs[p := out]),
     if over then Code(-2) else Pending)
  }

  function Step(sys: System, ev: Event): (r: (System, Reply))
    requires Usable(sys, ev)
  {
    var pr := ProcOf(sys, ev.p);
    match ev
    case Attach(p) => (AttachStep(sys, p), Pending)
    case Attempt(p, read) => if pr.local.inited then (sys, Code(0)) else AttemptStep(sys, p, read)
    case Release(p) => ReleaseStep(sys, p)
    case GetValue(p, key) =>
      if !pr.local.inited then (sys, Value(None))
      else
        var (l, v) := Get(pr.local, AreaOf(sys, pr), key);
        (Changed(sys, p, pr.(local := l), AreaOf(sys, pr)), Value(v))
    case SetValue(p, name, value, codes) =>
      if !pr.local.inited then (sys, Code(-1))
      else
        var (l, s, ret) := Update(pr.local, AreaOf(sys, pr), name, value, codes);
        (Changed(sys, p, pr.(local := l), s), Code(ret))
  }

  // ---------- the area and its name

  /** Every process that has mapped an area has mapped the one that the name means. */
  ghost predicate OneArea(sys: System) {
    forall p :: p in sys.procs && sys.procs[p].seg.Some? ==> sys.procs[p].seg == sys.named
  }

  /** A release that removes the name while another process still has the area. */
  ghost predicate Splits(sys: System, p: nat) {
    && Attached(sys, ProcOf(sys, p)) && AreaOf(sys, ProcOf(sys, p)).refcnt <= 1
    && exists q :: q in sys.procs && q != p && sys.procs[q].seg == ProcOf(sys, p).seg
  }

  /** Exactly when a step parts the processes. */
  lemma OneAreaExactly(sys: System, ev: Event)
    requires OneArea(sys) && Usable(sys, ev)
    ensures OneArea(Step(sys, ev).0) <==> !(ev.Release? && Splits(sys, ev.p))
  {
    if ev.Release? {
      var pr := ProcOf(sys, ev.p);
      var r := Step(sys, ev).0;
      assert pr.seg == sys.named;
      if Splits(sys, ev.p) {
        var q :| q in sys.procs && q != ev.p && sys.procs[q].seg == pr.seg;
        assert r.procs[q].seg.Some? && r.named.None?;
      }
    }
  }

  ghost predicate Follows(sys: System, ev: Event, r: System) {
    Usable(sys, ev) && r == Step(sys, ev).0
  }

  lemma ParseOverFresh(image: seq<byte>)
    requires GoodImage(image)
    ensures ParseOver(image, FreshLocal.kv) == Parse(image, [])
  {
    ParseOverExactly(image, FreshLocal.kv);
  }

  lemma BadAttempt(sys: System, bad: ReadOutcome, r: System)
    requires sys.segs == [NewArea(sys.size)] && 0 in sys.procs
    requires sys.procs[0] == Proc(FreshLocal, Some(0), 0, false, false)
    requires bad.FullRead? && CrcOf(bad.data) != bad.crc
    requires r == System(sys.size, [Shared(0, 0, bad.crc, bad.data)], sys.named,
                         sys.procs[0 := Proc(FreshLocal, Some(0), 1, true, false)])
    ensures Usable(sys, Attempt(0, bad)) && Step(sys, Attempt(0, bad)).0 == r
  {
    assert [NewArea(sys.size)][0 := r.segs[0]] == r.segs;
  }

  /** A process that is the first to load a good image into its area. */
  lemma FirstAttempt(sys: System, p: nat, good: ReadOutcome, ready: Proc, r: System)
    requires p in sys.procs && Attached(sys, sys.procs[p]) && sys.procs[p].tries + 1 < MAX_RETRY
    requires sys.procs[p] == Proc(FreshLocal, sys.procs[p].seg, sys.procs[p].tries, false, false)
    requires AreaOf(sys, sys.procs[p]).refcnt == 0 && AreaOf(sys, sys.procs[p]).revision == 0
    requires MatchingCrc(good) && GoodImage(good.data)
    requires ready == Proc(Local(true, 0, Parse(good.data, [])), sys.procs[p].seg, 0, false, true)
    requires r == System(sys.size, sys.segs[sys.procs[p].seg.value := Shared(1, 0, good.crc, good.data)], sys.named,
                         sys.procs[p := ready])
    ensures Usable(sys, Attempt(p, good)) && Step(sys, Attempt(p, good)).0 == r
  {
    ParseOverFresh(good.data);
  }

  /** Process 0 reads a wrong CRC; before it gives the area up, process 1 loads a good image into it. */
  lemma LoadedBeforeRelease(size: nat, image: seq<byte>, bad: ReadOutcome)
      returns (s1: System, s2: System, s3: System, s4: System)
    requires GoodImage(image) && |image| == size
    requires bad.FullRead? && |bad.data| == size && CrcOf(bad.data) != bad.crc
    ensures Follows(System(size, [], None, map[]), Attach(0), s1) && Follows(s1, Attach(1), s2)
    ensures Follows(s2, Attempt(0, bad), s3) && Follows(s3, Attempt(1, FullRead(CrcOf(image), image)), s4)
    ensures s4 == System(size, [Shared(1, 0, CrcOf(image), image)], Some(0),
                         map[0 := Proc(FreshLocal, Some(0), 1, true, false),
                             1 := Proc(Local(true, 0, Parse(image, [])), Some(0), 0, false, true)])
  {
    var waiting := Proc(FreshLocal, Some(0), 0, false, false);
    var leaving := Proc(FreshLocal, Some(0), 1, true, false);
    var ready := Proc(Local(true, 0, Parse(image, [])), Some(0), 0, false, true);
    s1 := System(size, [NewArea(size)], Some(0), map[0 := waiting]);
    s2 := System(size, [NewArea(size)], Some(0), map[0 := waiting, 1 := waiting]);
    s3 := System(size, [Shared(0, 0, bad.crc, bad.data)], Some(0), map[0 := leaving, 1 := waiting]);
    s4 := System(size, [Shared(1, 0, CrcOf(image), image)], Some(0), map[0 := leaving, 1 := ready]);
    BadAttempt(s2, bad, s3);
    FirstAttempt(s3, 1, FullRead(CrcOf(image), image), ready, s4);
  }

  /** The release then removes the name, process 0 goes on with a new area, and both end initialised with the same list
      on areas of their own. */
  lemma PartedByRelease(size: nat, image: seq<byte>, s4: System) returns (s5: System, s6: System, s7: System)
    requires GoodImage(image) && |image| == size
    requires s4 == System(size, [Shared(1, 0, CrcOf(image), image)], Some(0),
                          map[0 := Proc(FreshLocal, Some(0), 1, true, false),
                              1 := Proc(Local(true, 0, Parse(image, [])), Some(0), 0, false, true)])
    ensures OneArea(s4) && Splits(s4, 0)
    ensures Follows(s4, Release(0), s5) && Follows(s5, Attach(0), s6)
    ensures Follows(s6, Attempt(0, FullRead(CrcOf(image), image)), s7)
    ensures ProcOf(s7, 0) == Proc(Local(true, 0, Parse(image, [])), Some(1), 0, false, true)
    ensures ProcOf(s7, 1) == Proc(Local(true, 0, Parse(image, [])), Some(0), 0, false, true)
    ensures s7.segs == [Shared(0, 0, CrcOf(image), image), Shared(1, 0, CrcOf(image), image)]
  {
    var old0, new0 := Shared(0, 0, CrcOf(image), image), Shared(1, 0, CrcOf(image), image);
    var ready := Proc(Local(true, 0, Parse(image, [])), Some(1), 0, false, true);
    assert s4.procs[1].seg == ProcOf(s4, 0).seg;
    s5 := System(size, [old0], None, s4.procs[0 := Proc(FreshLocal, None, 1, false, false)]);
    s6 := System(size, [old0, NewArea(size)], Some(1), s4.procs[0 := Proc(FreshLocal, Some(1), 1, false, false)]);
    s7 := System(size, [old0, new0], Some(1), s4.procs[0 := ready]);
    FirstAttempt(s6, 0, FullRead(CrcOf(image), image), ready, s7);
  }

  // ---------- processes on areas of their own

  ghost predicate UsableRun(sys: System, run: seq<Event>)
    decreases |run|
  {
    run == [] || (Usable(sys, run[0]) && UsableRun(Step(sys, run[0]).0, run[1..]))
  }

  /** Nobody else does anything on the area of process q. */
  ghost predicate Apart(sys: System, run: seq<Event>, q: nat)
    requires UsableRun(sys, run)
    decreases |run|
  {
    run == [] ||
    (&& (run[0].p != q && !run[0].Attach? ==> ProcOf(sys, run[0].p).seg != ProcOf(sys, q).seg)
     && Apart(Step(sys, run[0]).0, run[1..], q))
  }

  /** The events of one process. */
  function Only(run: seq<Event>, q: nat): seq<Event> {
    if run == [] then [] else (if run[0].p == q then [run[0]] else []) + Only(run[1..], q)
  }

  /** What process q is answered in a run. */
  ghost function Answers(sys: System, run: seq<Event>, q: nat): seq<Reply>
    requires UsableRun(sys, run)
    decreases |run|
  {
    if run == [] then []
    else (if run[0].p == q then [Step(sys, run[0]).1] else []) + Answers(Step(sys, run[0]).0, run[1..], q)
  }

  /** An initialised process and the area it has mapped. */
  ghost predicate Stands(sys: System, q: nat, pr: Proc, s: Shared) {
    ProcOf(sys, q) == pr && pr.local.inited && !pr.leaving && Attached(sys, pr) && AreaOf(sys, pr) == s
  }

  /** A step of another process, elsewhere, leaves both as they are. */
  lemma StepElsewhere(sys: System, ev: Event, q: nat, pr: Proc, s: Shared)
    requires Stands(sys, q, pr, s) && Usable(sys, ev) && ev.p != q
    requires !ev.Attach? ==> ProcOf(sys, ev.p).seg != pr.seg
    ensures Stands(Step(sys, ev).0, q, pr, s)
  {
  }

  lemma UpdateStaysInited(l: Local, s: Shared, name: seq<byte>, value: seq<byte>, codes: seq<int>)
    requires l.inited && l.kv != [] && Terminated(s.data) && |codes| == MAX_RETRY
    requires Storable(SetKv(CheckLoad(l, s).kv, name, value), |s.data|)
    ensures Update(l, s, name, value, codes).0.inited
  {
    if value != OrEmpty(Lookup(CheckLoad(l, s).kv, name)) {
      UpdateResult(l, s, name, value, codes);
    }
  }

  /** An initialised process stays so, on the same area. */
  lemma StaysInited(sys: System, ev: Event)
    requires Usable(sys, ev) && ProcOf(sys, ev.p).local.inited && !ProcOf(sys, ev.p).leaving
    requires Attached(sys, ProcOf(sys, ev.p))
    ensures var pr, r := ProcOf(sys, ev.p), Step(sys, ev).0;
      && ProcOf(r, ev.p).local.inited && !ProcOf(r, ev.p).leaving && ProcOf(r, ev.p).seg == pr.seg
      && |r.segs| == |sys.segs|
  {
    if ev.SetValue? {
      var pr := ProcOf(sys, ev.p);
      UpdateStaysInited(pr.local, AreaOf(sys, pr), ev.name, ev.value, ev.codes);
    }
  }

  /** What an initialised process does depends on itself and its area alone. */
  lemma StepAlike(sys: System, other: System, ev: Event, pr: Proc, s: Shared) returns (pr': Proc, s': Shared)
    requires Stands(sys, ev.p, pr, s) && Stands(other, ev.p, pr, s) && Usable(sys, ev)
    ensures Usable(other, ev) && Step(other, ev).1 == Step(sys, ev).1
    ensures Stands(Step(sys, ev).0, ev.p, pr', s') && Stands(Step(other, ev).0, ev.p, pr', s')
  {
    var r := Step(sys, ev).0;
    StaysInited(sys, ev);
    pr' := ProcOf(r, ev.p);
    s' := AreaOf(r, pr');
  }

  /** Where others keep off its area, a process is answered as if it were alone: nothing that they set, load or give up
      shows, however the steps are interleaved. */
  lemma {:induction false} AnsweredAsAlone(sys: System, alone: System, run: seq<Event>, q: nat, pr: Proc, s: Shared)
    requires UsableRun(sys, run) && Apart(sys, run, q) && Stands(sys, q, pr, s) && Stands(alone, q, pr, s)
    ensures UsableRun(alone, Only(run, q))
    ensures Answers(sys, run, q) == Answers(alone, Only(run, q), q)
    decreases |run|
  {
    if run != [] {
      var next := Step(sys, run[0]).0;
      if run[0].p == q {
        var pr', s' := StepAlike(sys, alone, run[0], pr, s);
        AnsweredAsAlone(next, Step(alone, run[0]).0, run[1..], q, pr', s');
        assert Only(run, q) == [run[0]] + Only(run[1..], q);
        assert Only(run, q)[1..] == Only(run[1..], q);
      } else {
        StepElsewhere(sys, run[0], q, pr, s);
        AnsweredAsAlone(next, alone, run[1..], q, pr, s);
        assert Only(run, q) == Only(run[1..], q);
      }
    }
  }

  /** Gets, sets and repeated calls of bootenv_init by initialised processes. */
  ghost predicate CallsOf(run: seq<Event>, p: nat, q: nat) {
    forall k :: 0 <= k < |run| ==> (run[k].p == p || run[k].p == q) && !run[k].Attach? && !run[k].Release?
  }

  ghost predicate Parted(sys: System, p: nat, q: nat) {
    && p != q && Attached(sys, ProcOf(sys, p)) && Attached(sys, ProcOf(sys, q))
    && ProcOf(sys, p).seg != ProcOf(sys, q).seg
    && ProcOf(sys, p).local.inited && ProcOf(sys, q).local.inited
    && !ProcOf(sys, p).leaving && !ProcOf(sys, q).leaving
  }

  lemma StepStaysParted(sys: System, ev: Event, p: nat, q: nat)
    requires Parted(sys, p, q) && Usable(sys, ev) && (ev.p == p || ev.p == q) && !ev.Attach? && !ev.Release?
    ensures Parted(Step(sys, ev).0, p, q)
  {
    StaysInited(sys, ev);
  }

  lemma {:induction false} PartedApart(sys: System, run: seq<Event>, p: nat, q: nat)
    requires Parted(sys, p, q) && UsableRun(sys, run) && CallsOf(run, p, q)
    ensures Apart(sys, run, q)
    decreases |run|
  {
    if run != [] {
      StepStaysParted(sys, run[0], p, q);
      PartedApart(Step(sys, run[0]).0, run[1..], p, q);
    }
  }

  /** From the moment two initialised processes are parted, and for all that they call in any order, each is answered as
      if the other did not exist. */
  lemma PartedDisagree(sys: System, run: seq<Event>, p: nat, q: nat)
    requires Parted(sys, p, q) && UsableRun(sys, run) && CallsOf(run, p, q)
    ensures UsableRun(sys, Only(run, q)) && Answers(sys, run, q) == Answers(sys, Only(run, q), q)
  {
    PartedApart(sys, run, p, q);
    AnsweredAsAlone(sys, sys, run, q, ProcOf(sys, q), AreaOf(sys, ProcOf(sys, q)));
  }

  // ---------- what every step keeps

  /** A system together with how often the named image was ever saved, and up to which save each process is current. */
  datatype Tracked = Tracked(sys: System, saves: nat, seen: map<nat, nat>)

  function SeenOf(t: Tracked, p: nat): nat {
    if p in t.seen then t.seen[p] else 0
  }

  /** How many saves a step makes. */
  function SavesIn(sys: System, ev: Event): nat
    requires Usable(sys, ev)
  {
    var pr := ProcOf(sys, ev.p);
    if ev.SetValue? && pr.local.inited then
      SavesFor(CheckLoad(pr.local, AreaOf(sys, pr)).kv, ev.name, ev.value, ev.codes)
    else 0
  }

  /** A new area starts to count from zero. */
  function TrackedStep(t: Tracked, ev: Event): Tracked
    requires Usable(t.sys, ev)
  {
    var saves := if ev.Attach? && t.sys.named.None? then 0 else t.saves + SavesIn(t.sys, ev);
    var seen := if ev.Attempt? && ProcOf(t.sys, ev.p).local.inited then t.seen else t.seen[ev.p := saves];
    Tracked(Step(t.sys, ev).0, saves, seen)
  }

  lemma TrackedAttempt(t: Tracked, p: nat, read: ReadOutcome, l: Local, s: Shared, ret: int)
    requires Usable(t.sys, Attempt(p, read)) && !ProcOf(t.sys, p).local.inited
    requires Load(ProcOf(t.sys, p).local, AreaOf(t.sys, ProcOf(t.sys, p)), read) == (l, s, ret)
    ensures var pr := Tried(ProcOf(t.sys, p), l, ret);
      && Attached(t.sys, pr)
      && Step(t.sys, Attempt(p, read)) == (Changed(t.sys, p, pr, s), Answer(ProcOf(t.sys, p).tries + 1, ret))
      && TrackedStep(t, Attempt(p, read)) == Tracked(Changed(t.sys, p, pr, s), t.saves, t.seen[p := t.saves])
  {}

  lemma TrackedGet(t: Tracked, p: nat, key: seq<byte>, l: Local, v: Option<seq<byte>>)
    requires Usable(t.sys, GetValue(p, key)) && ProcOf(t.sys, p).local.inited
    requires Get(ProcOf(t.sys, p).local, AreaOf(t.sys, ProcOf(t.sys, p)), key) == (l, v)
    ensures var sys := Changed(t.sys, p, ProcOf(t.sys, p).(local := l), AreaOf(t.sys, ProcOf(t.sys, p)));
      && Step(t.sys, GetValue(p, key)) == (sys, Value(v))
      && TrackedStep(t, GetValue(p, key)) == Tracked(sys, t.saves, t.seen[p := t.saves])
  {}

  lemma TrackedSet(t: Tracked, p: nat, name: seq<byte>, value: seq<byte>, codes: seq<int>, l: Local, s: Shared,
                   ret: int)
    requires Usable(t.sys, SetValue(p, name, value, codes)) && ProcOf(t.sys, p).local.inited
    requires Update(ProcOf(t.sys, p).local, AreaOf(t.sys, ProcOf(t.sys, p)), name, value, codes) == (l, s, ret)
    ensures var pr := ProcOf(t.sys, p);
      var sys := Changed(t.sys, p, pr.(local := l), s);
      var saves := t.saves + SavesFor(CheckLoad(pr.local, AreaOf(t.sys, pr)).kv, name, value, codes);
      && Step(t.sys, SetValue(p, name, value, codes)) == (sys, Code(ret))
      && TrackedStep(t, SetValue(p, name, value, codes)) == Tracked(sys, saves, t.seen[p := saves])
  {}

  ghost predicate NamedGood(t: Tracked) {
    t.sys.named.Some? ==>
      && t.sys.named.value < |t.sys.segs|
      && SharedGood(t.sys.segs[t.sys.named.value], t.sys.size)
      && t.sys.segs[t.sys.named.value].revision == t.saves % WRAP
  }

  /** The image in use. */
  ghost predicate InUse(sys: System) {
    sys.named.Some? && sys.named.value < |sys.segs| && sys.segs[sys.named.value].refcnt > 0
  }

  function Named(sys: System): Shared
    requires sys.named.Some? && sys.named.value < |sys.segs|
  {
    sys.segs[sys.named.value]
  }

  ghost predicate ProcGood(t: Tracked, pr: Proc, seen: nat) {
    && pr.local.kv != []
    && (pr.seg.Some? ==> pr.seg == t.sys.named)
    && (pr.leaving ==> pr.seg.Some? && !pr.loaded)
    && (pr.local.inited ==> pr.loaded)
    && (if pr.loaded then pr.seg.Some? && InUse(t.sys) else pr.local.kv == FreshLocal.kv)
    && (pr.local.inited ==> LocalCurrent(pr.local, seen, Named(t.sys), t.saves))
  }

  /** The invariant: all processes on the named area, the area referred to by a process that loaded it whenever its
      count says so, and a cache whose process saw the last save equal to the parse of the shared image. */
  ghost predicate Coherent(t: Tracked) {
    && NamedGood(t)
    && (forall p :: p in t.sys.procs ==> ProcGood(t, t.sys.procs[p], SeenOf(t, p)))
    && (InUse(t.sys) ==> exists p :: p in t.sys.procs && t.sys.procs[p].loaded)
  }

  /** Parsing the image in use over the list of a process leaves none of its old entries. */
  ghost predicate NothingOldLeft(sys: System, pr: Proc) {
    pr.loaded && Attached(sys, pr) && Terminated(AreaOf(sys, pr).data) ==>
      |Current(AreaOf(sys, pr))| > 1 || |pr.local.kv| == 1
  }

  /** When a process may do an event: it is at that point of its code, reads give images of the right size and good
      ones if their CRC is right, it has missed fewer than 2^32 saves, names and values can come back from the image,
      and no release parts the processes. */
  ghost predicate Admissible(t: Tracked, ev: Event) {
    var pr := ProcOf(t.sys, ev.p);
    match ev
    case Attach(_) => !pr.local.inited && pr.seg.None? && !pr.leaving
    case Attempt(_, read) =>
      && ReadGood(read, t.sys.size)
      && (pr.local.inited || (pr.seg.Some? && !pr.leaving && NothingOldLeft(t.sys, pr)))
    case Release(p) => pr.leaving && !Splits(t.sys, p)
    case GetValue(p, key) => t.saves - SeenOf(t, p) < WRAP
    case SetValue(p, name, value, codes) =>
      && t.saves - SeenOf(t, p) < WRAP && |codes| == MAX_RETRY && Settable(name, value)
      && (pr.local.inited && CanRead(t.sys, pr) ==>
          var kv := SetKv(Current(AreaOf(t.sys, pr)), name, value);
          AllSet(kv) && Fits(kv, 0, t.sys.size))
  }

  lemma ProcIsGood(t: Tracked, p: nat)
    requires Coherent(t)
    ensures ProcGood(t, ProcOf(t.sys, p), SeenOf(t, p))
    ensures ProcOf(t.sys, p).seg.Some? ==>
      Attached(t.sys, ProcOf(t.sys, p)) && AreaOf(t.sys, ProcOf(t.sys, p)) == Named(t.sys)
  {}

  /** The access of an initialised process leaves its list equal to the shared one. */
  lemma AccessCurrent(t: Tracked, p: nat)
    requires Coherent(t) && ProcOf(t.sys, p).local.inited && t.saves - SeenOf(t, p) < WRAP
    ensures CanRead(t.sys, ProcOf(t.sys, p)) && InUse(t.sys)
    ensures var s := Named(t.sys);
      && AreaOf(t.sys, ProcOf(t.sys, p)) == s && GoodImage(s.data) && SharedGood(s, t.sys.size)
      && s.revision == t.saves % WRAP
      && CheckLoad(ProcOf(t.sys, p).local, s) == Local(true, s.revision, Current(s))
  {
    ProcIsGood(t, p);
    CheckLoadCurrent(ProcOf(t.sys, p).local, SeenOf(t, p), Named(t.sys), t.saves);
  }

  // ---------- attaching

  lemma AttachKeepsCoherent(t: Tracked, p: nat)
    requires Coherent(t) && Admissible(t, Attach(p))
    ensures Usable(t.sys, Attach(p)) && Coherent(TrackedStep(t, Attach(p)))
  {
    var r := TrackedStep(t, Attach(p));
    ProcIsGood(t, p);
    forall q | q in r.sys.procs
      ensures ProcGood(r, r.sys.procs[q], SeenOf(r, q))
    {
      ProcIsGood(t, q);
    }
    if InUse(r.sys) {
      var w :| w in t.sys.procs && t.sys.procs[w].loaded;
      ProcIsGood(t, w);
      assert w in r.sys.procs && r.sys.procs[w].loaded;
    }
  }

  // ---------- load attempts

  /** The outcome of a load attempt on the named area. */
  lemma LoadOutcome(t: Tracked, p: nat, read: ReadOutcome)
    requires Coherent(t) && Admissible(t, Attempt(p, read)) && !ProcOf(t.sys, p).local.inited
    ensures Usable(t.sys, Attempt(p, read))
    ensures var pr := ProcOf(t.sys, p);
      var s := Named(t.sys);
      var (l', s', ret) := Load(pr.local, s, read);
      && pr.seg == t.sys.named && AreaOf(t.sys, pr) == s
      && SharedGood(s', t.sys.size) && s'.revision == s.revision && !l'.inited
      && (s.refcnt > 0 || MatchingCrc(read) <==> ret >= 0)
      && (s.refcnt > 0 ==> s'.data == s.data)
      && (ret >= 0 ==> s'.refcnt == s.refcnt + 1 && l'.revision == s.revision && l'.kv == Current(s'))
      && (ret >= 0 && s.refcnt == 0 ==> s'.data == read.data)
      && (ret < 0 ==> s'.refcnt == 0 && l'.kv == pr.local.kv && !pr.loaded)
      && (ret < 0 ==> (ret < -2 <==> read.FullRead?))
  {
    ProcIsGood(t, p);
    var pr, s := ProcOf(t.sys, p), Named(t.sys);
    if s.refcnt > 0 {
      LoadShared(pr.local, s, read);
      ParseOverExactly(s.data, pr.local.kv);
    } else {
      LoadEmpty(pr.local, s, read, t.sys.size);
      if MatchingCrc(read) {
        ParseOverExactly(read.data, pr.local.kv);
      }
    }
  }

  /** One process and the named area change; nobody else has anything to lose, because the image is the same or was not
      in use. */
  lemma ChangeKeepsCoherent(t: Tracked, p: nat, pr: Proc, s: Shared)
    requires Coherent(t) && pr.seg.Some? && pr.seg == t.sys.named
    requires SharedGood(s, t.sys.size) && s.revision == t.saves % WRAP
    requires InUse(t.sys) ==> s.refcnt > 0 && s.data == Named(t.sys).data
    requires s.refcnt > 0 <==> pr.loaded
    requires ProcOf(t.sys, p).loaded ==> pr.loaded
    requires pr.local.kv != [] && (pr.leaving ==> !pr.loaded) && (!pr.loaded ==> pr.local.kv == FreshLocal.kv)
    requires pr.local.inited ==> pr.loaded && LocalCurrent(pr.local, t.saves, s, t.saves)
    ensures Attached(t.sys, pr) && Coherent(Tracked(Changed(t.sys, p, pr, s), t.saves, t.seen[p := t.saves]))
  {
    var r := Tracked(Changed(t.sys, p, pr, s), t.saves, t.seen[p := t.saves]);
    forall q | q in r.sys.procs
      ensures ProcGood(r, r.sys.procs[q], SeenOf(r, q))
    {
      ProcIsGood(t, q);
    }
    assert p in r.sys.procs && r.sys.procs[p] == pr;
  }

  lemma TriedKeepsCoherent(t: Tracked, p: nat, read: ReadOutcome, l: Local, s: Shared, ret: int)
    requires Coherent(t) && Admissible(t, Attempt(p, read)) && !ProcOf(t.sys, p).local.inited
    requires Usable(t.sys, Attempt(p, read)) && Load(ProcOf(t.sys, p).local, Named(t.sys), read) == (l, s, ret)
    ensures var pr := Tried(ProcOf(t.sys, p), l, ret);
      Attached(t.sys, pr) && Coherent(Tracked(Changed(t.sys, p, pr, s), t.saves, t.seen[p := t.saves]))
  {
    LoadOutcome(t, p, read);
    ProcIsGood(t, p);
    ChangeKeepsCoherent(t, p, Tried(ProcOf(t.sys, p), l, ret), s);
  }

  lemma AttemptKeepsCoherent(t: Tracked, p: nat, read: ReadOutcome)
    requires Coherent(t) && Admissible(t, Attempt(p, read))
    ensures Usable(t.sys, Attempt(p, read)) && Coherent(TrackedStep(t, Attempt(p, read)))
  {
    var pr := ProcOf(t.sys, p);
    ProcIsGood(t, p);
    if pr.local.inited {
      assert TrackedStep(t, Attempt(p, read)) == t;
    } else {
      LoadOutcome(t, p, read);
      var (l, s, ret) := Load(pr.local, Named(t.sys), read);
      TriedKeepsCoherent(t, p, read, l, s, ret);
      TrackedAttempt(t, p, read, l, s, ret);
    }
  }

  // ---------- giving the area up

  /** A release that does not part the processes: either somebody else's reference stays, or nobody else is there. */
  lemma ReleaseAlone(t: Tracked, p: nat)
    requires Coherent(t) && Admissible(t, Release(p))
    ensures Usable(t.sys, Release(p)) && ProcOf(t.sys, p).seg == t.sys.named
    ensures AreaOf(t.sys, ProcOf(t.sys, p)) == Named(t.sys)
    ensures Named(t.sys).refcnt >= 2 ||
      (!InUse(t.sys) && forall q :: q in t.sys.procs && q != p ==> t.sys.procs[q].seg.None?)
  {
    ProcIsGood(t, p);
    if Named(t.sys).refcnt <= 1 {
      forall q | q in t.sys.procs && q != p
        ensures t.sys.procs[q].seg.None?
      {
        ProcIsGood(t, q);
      }
    }
  }

  lemma ReleaseKeepsCoherent(t: Tracked, p: nat)
    requires Coherent(t) && Admissible(t, Release(p))
    ensures Usable(t.sys, Release(p)) && Coherent(TrackedStep(t, Release(p)))
  {
    ReleaseAlone(t, p);
    var r := TrackedStep(t, Release(p));
    ProcIsGood(t, p);
    forall q | q in r.sys.procs
      ensures ProcGood(r, r.sys.procs[q], SeenOf(r, q))
    {
      ProcIsGood(t, q);
    }
    if InUse(r.sys) {
      var w :| w in t.sys.procs && t.sys.procs[w].loaded;
      ProcIsGood(t, w);
      assert w in r.sys.procs && r.sys.procs[w].loaded;
    }
  }

  // ---------- reading and updating

  lemma GetKeepsCoherent(t: Tracked, p: nat, key: seq<byte>)
    requires Coherent(t) && Admissible(t, GetValue(p, key))
    ensures Usable(t.sys, GetValue(p, key)) && Coherent(TrackedStep(t, GetValue(p, key)))
  {
    ProcIsGood(t, p);
    if ProcOf(t.sys, p).local.inited {
      AccessCurrent(t, p);
      var pr := ProcOf(t.sys, p);
      var (l, v) := Get(pr.local, AreaOf(t.sys, pr), key);
      ChangeKeepsCoherent(t, p, pr.(local := l), Named(t.sys));
      TrackedGet(t, p, key, l, v);
    } else {
      IdleKeepsCoherent(t, p);
    }
  }

  /** A call that a process without an environment refuses. */
  lemma IdleKeepsCoherent(t: Tracked, p: nat)
    requires Coherent(t) && !ProcOf(t.sys, p).local.inited
    ensures Coherent(Tracked(t.sys, t.saves, t.seen[p := t.saves]))
  {
    var r := Tracked(t.sys, t.saves, t.seen[p := t.saves]);
    forall q | q in r.sys.procs
      ensures ProcGood(r, r.sys.procs[q], SeenOf(r, q))
    {
      ProcIsGood(t, q);
    }
  }

  ghost predicate CanSet(t: Tracked, p: nat, name: seq<byte>, value: seq<byte>, codes: seq<int>) {
    && Coherent(t) && ProcOf(t.sys, p).local.inited && t.saves - SeenOf(t, p) < WRAP
    && |codes| == MAX_RETRY && Settable(name, value) && InUse(t.sys) && Terminated(Named(t.sys).data)
    && Storable(SetKv(Current(Named(t.sys)), name, value), t.sys.size)
  }

  lemma CanSetList(t: Tracked, p: nat, name: seq<byte>, value: seq<byte>, codes: seq<int>)
    requires CanSet(t, p, name, value, codes)
    ensures var l, s := ProcOf(t.sys, p).local, Named(t.sys);
      && l.inited && l.kv != [] && GoodImage(s.data) && SharedGood(s, t.sys.size) && s.revision < WRAP
      && CheckLoad(l, s) == Local(true, s.revision, Current(s))
  {
    AccessCurrent(t, p);
  }

  /** What an update makes of the shared list: the same, or the changed one, saved as often as the device failed. */
  ghost predicate SetResult(s: Shared, name: seq<byte>, value: seq<byte>, codes: seq<int>, size: nat,
                            r: (Local, Shared, int))
    requires Terminated(s.data) && |codes| == MAX_RETRY
  {
    var n := SavesFor(Current(s), name, value, codes);
    && r.0.inited && r.1.refcnt == s.refcnt && SharedGood(r.1, size) && GoodImage(r.1.data)
    && r.0.kv == Current(r.1) && r.0.kv != [] && r.0.revision == r.1.revision == (s.revision + n) % WRAP
    && (if n == 0 then r.2 == 0 && r.1 == s else Current(r.1) == SetKv(Current(s), name, value) && r.2 == codes[n - 1])
  }

  /** A changing update saves a good image of the changed list. */
  lemma SetChanges(l: Local, s: Shared, name: seq<byte>, value: seq<byte>, codes: seq<int>, size: nat)
    requires l.inited && l.kv != [] && |codes| == MAX_RETRY && Settable(name, value)
    requires GoodImage(s.data) && SharedGood(s, size) && CheckLoad(l, s) == Local(true, s.revision, Current(s))
    requires Storable(SetKv(Current(s), name, value), size) && value != OrEmpty(Lookup(Current(s), name))
    ensures SetResult(s, name, value, codes, size, Update(l, s, name, value, codes))
  {
    UpdateResult(l, s, name, value, codes);
    SetKvSolid(Current(s), name, value);
    SavedImageGood(SetKv(Current(s), name, value), size);
  }

  lemma SetSame(l: Local, s: Shared, name: seq<byte>, value: seq<byte>, codes: seq<int>, size: nat)
    requires l.inited && l.kv != [] && |codes| == MAX_RETRY && s.revision < WRAP
    requires GoodImage(s.data) && SharedGood(s, size) && CheckLoad(l, s) == Local(true, s.revision, Current(s))
    requires Storable(SetKv(Current(s), name, value), size) && value == OrEmpty(Lookup(Current(s), name))
    ensures SetResult(s, name, value, codes, size, Update(l, s, name, value, codes))
  {}

  /** What an admissible update by an initialised process does to the list everyone shares. */
  lemma SetOutcome(t: Tracked, p: nat, name: seq<byte>, value: seq<byte>, codes: seq<int>)
      returns (l': Local, s': Shared, ret: int)
    requires CanSet(t, p, name, value, codes)
    ensures var s := Named(t.sys);
      && GoodImage(s.data) && ProcOf(t.sys, p).local.kv != []
      && CheckLoad(ProcOf(t.sys, p).local, s).kv == Current(s)
      && Update(ProcOf(t.sys, p).local, s, name, value, codes) == (l', s', ret)
      && SetResult(s, name, value, codes, t.sys.size, (l', s', ret))
  {
    CanSetList(t, p, name, value, codes);
    var l, s := ProcOf(t.sys, p).local, Named(t.sys);
    if value != OrEmpty(Lookup(Current(s), name)) {
      SetChanges(l, s, name, value, codes, t.sys.size);
    } else {
      SetSame(l, s, name, value, codes, t.sys.size);
    }
    var result := Update(l, s, name, value, codes);
    l', s', ret := result.0, result.1, result.2;
  }

  /** A process that has just saved is current, and every other cache is behind by the saves made. */
  lemma SaveKeepsCoherent(t: Tracked, p: nat, pr: Proc, s: Shared, saves: nat)
    requires Coherent(t) && pr.seg.Some? && pr.seg == t.sys.named && pr.loaded && !pr.leaving && InUse(t.sys)
    requires SharedGood(s, t.sys.size) && s.refcnt > 0 && s.revision == saves % WRAP && t.saves <= saves
    requires t.saves == saves ==> s.data == Named(t.sys).data
    requires pr.local.kv == Current(s) && pr.local.kv != [] && pr.local.revision == s.revision
    ensures Attached(t.sys, pr) && Coherent(Tracked(Changed(t.sys, p, pr, s), saves, t.seen[p := saves]))
  {
    var r := Tracked(Changed(t.sys, p, pr, s), saves, t.seen[p := saves]);
    forall q | q in r.sys.procs
      ensures ProcGood(r, r.sys.procs[q], SeenOf(r, q))
    {
      ProcIsGood(t, q);
    }
    assert p in r.sys.procs && r.sys.procs[p].loaded;
  }

  lemma AdmissibleCanSet(t: Tracked, p: nat, name: seq<byte>, value: seq<byte>, codes: seq<int>)
    requires Coherent(t) && Admissible(t, SetValue(p, name, value, codes)) && ProcOf(t.sys, p).local.inited
    ensures CanSet(t, p, name, value, codes) && Usable(t.sys, SetValue(p, name, value, codes))
  {
    AccessCurrent(t, p);
    SetKvSolid(Current(Named(t.sys)), name, value);
  }

  lemma SetCounts(s: Shared, name: seq<byte>, value: seq<byte>, codes: seq<int>, size: nat, saves: nat,
                  r: (Local, Shared, int))
    requires Terminated(s.data) && |codes| == MAX_RETRY && s.revision == saves % WRAP
    requires SetResult(s, name, value, codes, size, r)
    ensures var n := SavesFor(Current(s), name, value, codes);
      r.1.revision == (saves + n) % WRAP && (n == 0 ==> r.1.data == s.data)
  {
    SuccMod(saves, SavesFor(Current(s), name, value, codes));
  }

  lemma SetStep(t: Tracked, p: nat, name: seq<byte>, value: seq<byte>, codes: seq<int>)
      returns (l': Local, s': Shared, ret: int, saves': nat)
    requires CanSet(t, p, name, value, codes)
    ensures Attached(t.sys, ProcOf(t.sys, p)) && AreaOf(t.sys, ProcOf(t.sys, p)) == Named(t.sys)
    ensures ProcOf(t.sys, p).local.kv != []
    ensures CheckLoad(ProcOf(t.sys, p).local, Named(t.sys)).kv == Current(Named(t.sys))
    ensures Update(ProcOf(t.sys, p).local, Named(t.sys), name, value, codes) == (l', s', ret)
    ensures saves' == t.saves + SavesFor(Current(Named(t.sys)), name, value, codes)
    ensures Coherent(Tracked(Changed(t.sys, p, ProcOf(t.sys, p).(local := l'), s'), saves', t.seen[p := saves']))
  {
    ProcIsGood(t, p);
    l', s', ret := SetOutcome(t, p, name, value, codes);
    saves' := t.saves + SavesFor(Current(Named(t.sys)), name, value, codes);
    SetCounts(Named(t.sys), name, value, codes, t.sys.size, t.saves, (l', s', ret));
    SaveKeepsCoherent(t, p, ProcOf(t.sys, p).(local := l'), s', saves');
  }

  lemma UpdateKeepsCoherent(t: Tracked, p: nat, name: seq<byte>, value: seq<byte>, codes: seq<int>)
    requires CanSet(t, p, name, value, codes) && Usable(t.sys, SetValue(p, name, value, codes))
    ensures Coherent(TrackedStep(t, SetValue(p, name, value, codes)))
  {
    var l', s', ret, saves' := SetStep(t, p, name, value, codes);
    TrackedSet(t, p, name, value, codes, l', s', ret);
  }

  lemma SetKeepsCoherent(t: Tracked, p: nat, name: seq<byte>, value: seq<byte>, codes: seq<int>)
    requires Coherent(t) && Admissible(t, SetValue(p, name, value, codes))
    ensures Usable(t.sys, SetValue(p, name, value, codes)) && Coherent(TrackedStep(t, SetValue(p, name, value, codes)))
  {
    if ProcOf(t.sys, p).local.inited {
      AdmissibleCanSet(t, p, name, value, codes);
      UpdateKeepsCoherent(t, p, name, value, codes);
    } else {
      IdleKeepsCoherent(t, p);
    }
  }

  /** Every admissible step of any process keeps every cache coherent with the shared image. */
  lemma StepKeepsCoherent(t: Tracked, ev: Event)
    requires Coherent(t) && Admissible(t, ev)
    ensures Usable(t.sys, ev) && Coherent(TrackedStep(t, ev))
  {
    match ev
    case Attach(p) => AttachKeepsCoherent(t, p);
    case Attempt(p, read) => AttemptKeepsCoherent(t, p, read);
    case Release(p) => ReleaseKeepsCoherent(t, p);
    case GetValue(p, key) => GetKeepsCoherent(t, p, key);
    case SetValue(p, name, value, codes) => SetKeepsCoherent(t, p, name, value, codes);
  }

  // ---------- what the callers see

  /** The environment a list stands for: of duplicate keys, the first counts. */
  function EnvOf(kv: seq<Entry>): map<seq<byte>, seq<byte>>
    requires AllSet(kv)
  {
    if kv == [] then map[] else EnvOf(kv[1..])[kv[0].key := kv[0].value.value]
  }

  function Ask(env: map<seq<byte>, seq<byte>>, key: seq<byte>): Option<seq<byte>> {
    if key in env then Some(env[key]) else None
  }

  lemma {:induction false} LookupIsAsk(kv: seq<Entry>, key: seq<byte>)
    requires AllSet(kv)
    ensures Lookup(kv, key) == Ask(EnvOf(kv), key)
  {
    if kv != [] {
      LookupIsAsk(kv[1..], key);
    }
  }

  lemma {:induction false} SetKvIsUpdate(kv: seq<Entry>, key: seq<byte>, value: seq<byte>)
    requires AllSet(kv) && |key| <= MAX_KEY
    ensures AllSet(SetKv(kv, key, value))
    ensures EnvOf(SetKv(kv, key, value)) == EnvOf(kv)[key := value]
  {
    if kv != [] && kv[0].key != key {
      SetKvIsUpdate(kv[1..], key, value);
    }
  }

  /** One variable store, as if there were a single process and no cache; of each process it knows whether it has
      initialised and how many attempts its bootenv_init has made. */
  datatype Store = Store(loaded: bool, inited: set<nat>, tries: map<nat, nat>, env: map<seq<byte>, seq<byte>>)

  function TriesOf(st: Store, p: nat): nat {
    if p in st.tries then st.tries[p] else 0
  }

  ghost function StoreAttempt(st: Store, p: nat, read: ReadOutcome): (Store, Reply)
    requires MatchingCrc(read) ==> GoodImage(read.data)
  {
    var i := TriesOf(st, p) + 1;
    if p in st.inited then (st, Code(0))
    else if st.loaded || MatchingCrc(read) then
      var env := if st.loaded then st.env else EnvOf(Parse(read.data, []));
      if i < MAX_RETRY then (Store(true, st.inited + {p}, st.tries[p := 0], env), Code(0))
      else (Store(true, st.inited, st.tries[p := 0], env), Code(-2))
    else if read.FullRead? || i < MAX_RETRY then (st.(tries := st.tries[p := i]), Pending)
    else (st.(tries := st.tries[p := 0]), Code(-2))
  }

  ghost predicate Regular(ev: Event) {
    && (ev.Attempt? && MatchingCrc(ev.read) ==> GoodImage(ev.read.data))
    && (ev.SetValue? ==> |ev.codes| == MAX_RETRY)
  }

  ghost function StoreStep(st: Store, ev: Event): (Store, Reply)
    requires Regular(ev)
  {
    match ev
    case Attach(p) => (st, Pending)
    case Attempt(p, read) => StoreAttempt(st, p, read)
    case Release(p) =>
      if TriesOf(st, p) >= MAX_RETRY then (st.(tries := st.tries[p := 0]), Code(-2)) else (st, Pending)
    case GetValue(p, key) => (st, Value(if p in st.inited then Ask(st.env, key) else None))
    case SetValue(p, name, value, codes) =>
      if p !in st.inited then (st, Code(-1))
      else if value == OrEmpty(Ask(st.env, name)) then (st, Code(0))
      else (st.(env := st.env[name := value]), Code(codes[Tries(codes, 0) - 1]))
  }

  /** The store knows how far a process is. */
  ghost predicate Knows(st: Store, p: nat, pr: Proc) {
    (p in st.inited <==> pr.local.inited) && TriesOf(st, p) == pr.tries
  }

  ghost predicate Matches(t: Tracked, st: Store) {
    && (st.loaded <==> InUse(t.sys))
    && (forall p :: Knows(st, p, ProcOf(t.sys, p)))
    && (st.loaded ==> GoodImage(Named(t.sys).data) && st.env == EnvOf(Current(Named(t.sys))))
  }

  /** The step answers as the store would, and the two match again. */
  ghost predicate InStep(t: Tracked, st: Store, ev: Event)
    requires Usable(t.sys, ev) && Regular(ev)
  {
    Matches(TrackedStep(t, ev), StoreStep(st, ev).0) && Step(t.sys, ev).1 == StoreStep(st, ev).1
  }

  lemma ChangedProc(sys: System, p: nat, pr: Proc, s: Shared, q: nat)
    requires Attached(sys, pr)
    ensures ProcOf(Changed(sys, p, pr, s), q) == if q == p then pr else ProcOf(sys, q)
  {}

  lemma AttachMatches(t: Tracked, st: Store, p: nat)
    requires Coherent(t) && Admissible(t, Attach(p)) && Matches(t, st)
    ensures Usable(t.sys, Attach(p))
    ensures InStep(t, st, Attach(p))
  {
    var r := TrackedStep(t, Attach(p));
    forall q
      ensures Knows(st, q, ProcOf(r.sys, q))
    {
      assert Knows(st, q, ProcOf(t.sys, q));
    }
  }

  /** What the store knows of a process after its attempt. */
  lemma StoreTried(st: Store, p: nat, read: ReadOutcome, pr: Proc, l: Local, ret: int)
    requires p !in st.inited && TriesOf(st, p) == pr.tries && !l.inited
    requires MatchingCrc(read) ==> GoodImage(read.data)
    requires st.loaded || MatchingCrc(read) <==> ret >= 0
    requires ret < 0 ==> (ret < -2 <==> read.FullRead?)
    ensures var (st', reply) := StoreAttempt(st, p, read);
      && Knows(st', p, Tried(pr, l, ret))
      && (forall q: nat, other: Proc :: q != p && Knows(st, q, other) ==> Knows(st', q, other))
      && reply == Answer(pr.tries + 1, ret)
      && (st'.loaded <==> ret >= 0)
  {}

  /** The store knows every process again once one has changed. */
  lemma KnowsAll(sys: System, st: Store, st': Store, p: nat, pr: Proc, s: Shared)
    requires Attached(sys, pr) && Knows(st', p, pr)
    requires forall q :: Knows(st, q, ProcOf(sys, q))
    requires forall q: nat, other: Proc :: q != p && Knows(st, q, other) ==> Knows(st', q, other)
    ensures forall q :: Knows(st', q, ProcOf(Changed(sys, p, pr, s), q))
  {
    forall q
      ensures Knows(st', q, ProcOf(Changed(sys, p, pr, s), q))
    {
      ChangedProc(sys, p, pr, s, q);
      assert Knows(st, q, ProcOf(sys, q));
    }
  }

  lemma TriedMatches(t: Tracked, st: Store, p: nat, read: ReadOutcome, l: Local, s: Shared, ret: int)
    requires Coherent(t) && Admissible(t, Attempt(p, read)) && Matches(t, st) && !ProcOf(t.sys, p).local.inited
    requires Usable(t.sys, Attempt(p, read)) && Load(ProcOf(t.sys, p).local, Named(t.sys), read) == (l, s, ret)
    ensures Attached(t.sys, Tried(ProcOf(t.sys, p), l, ret))
    ensures var (st', reply) := StoreAttempt(st, p, read);
      && Matches(Tracked(Changed(t.sys, p, Tried(ProcOf(t.sys, p), l, ret), s), t.saves, t.seen[p := t.saves]), st')
      && reply == Answer(ProcOf(t.sys, p).tries + 1, ret)
  {
    var pr := ProcOf(t.sys, p);
    LoadOutcome(t, p, read);
    assert Knows(st, p, pr);
    StoreTried(st, p, read, pr, l, ret);
    KnowsAll(t.sys, st, StoreAttempt(st, p, read).0, p, Tried(pr, l, ret), s);
  }

  lemma AttemptMatches(t: Tracked, st: Store, p: nat, read: ReadOutcome)
    requires Coherent(t) && Admissible(t, Attempt(p, read)) && Matches(t, st)
    ensures Usable(t.sys, Attempt(p, read))
    ensures InStep(t, st, Attempt(p, read))
  {
    var pr := ProcOf(t.sys, p);
    assert Knows(st, p, pr);
    if !pr.local.inited {
      LoadOutcome(t, p, read);
      var (l, s, ret) := Load(pr.local, Named(t.sys), read);
      TriedMatches(t, st, p, read, l, s, ret);
      TrackedAttempt(t, p, read, l, s, ret);
    }
  }

  lemma ReleaseMatches(t: Tracked, st: Store, p: nat)
    requires Coherent(t) && Admissible(t, Release(p)) && Matches(t, st)
    ensures Usable(t.sys, Release(p))
    ensures InStep(t, st, Release(p))
  {
    ReleaseAlone(t, p);
    var r, st' := TrackedStep(t, Release(p)), StoreStep(st, Release(p)).0;
    forall q
      ensures Knows(st', q, ProcOf(r.sys, q))
    {
      assert Knows(st, q, ProcOf(t.sys, q)) && Knows(st, p, ProcOf(t.sys, p));
    }
  }

  /** A step of an initialised process that leaves it initialised. */
  lemma AccessMatches(t: Tracked, st: Store, p: nat, l: Local, s: Shared, saves: nat,
                      env: map<seq<byte>, seq<byte>>)
    requires Coherent(t) && Matches(t, st) && ProcOf(t.sys, p).local.inited && l.inited && s.refcnt > 0
    requires GoodImage(s.data) && env == EnvOf(Current(s))
    ensures Attached(t.sys, ProcOf(t.sys, p))
    ensures Matches(Tracked(Changed(t.sys, p, ProcOf(t.sys, p).(local := l), s), saves, t.seen[p := saves]),
                    st.(env := env))
  {
    ProcIsGood(t, p);
    assert Knows(st, p, ProcOf(t.sys, p));
    KnowsAll(t.sys, st, st.(env := env), p, ProcOf(t.sys, p).(local := l), s);
  }

  lemma GetMatches(t: Tracked, st: Store, p: nat, key: seq<byte>)
    requires Coherent(t) && Admissible(t, GetValue(p, key)) && Matches(t, st)
    ensures Usable(t.sys, GetValue(p, key))
    ensures InStep(t, st, GetValue(p, key))
  {
    var pr := ProcOf(t.sys, p);
    assert Knows(st, p, pr);
    if pr.local.inited {
      AccessCurrent(t, p);
      LookupIsAsk(Current(Named(t.sys)), key);
      var (l, v) := Get(pr.local, AreaOf(t.sys, pr), key);
      AccessMatches(t, st, p, l, Named(t.sys), t.saves, st.env);
      TrackedGet(t, p, key, l, v);
    }
  }

  lemma SetMatches(t: Tracked, st: Store, p: nat, name: seq<byte>, value: seq<byte>, codes: seq<int>)
    requires Coherent(t) && Admissible(t, SetValue(p, name, value, codes)) && Matches(t, st)
    ensures Usable(t.sys, SetValue(p, name, value, codes))
    ensures InStep(t, st, SetValue(p, name, value, codes))
  {
    assert Knows(st, p, ProcOf(t.sys, p));
    if ProcOf(t.sys, p).local.inited {
      AdmissibleCanSet(t, p, name, value, codes);
      var l', s', ret := SetOutcome(t, p, name, value, codes);
      LookupIsAsk(Current(Named(t.sys)), name);
      SetKvIsUpdate(Current(Named(t.sys)), name, value);
      var saves := t.saves + SavesFor(Current(Named(t.sys)), name, value, codes);
      TrackedSet(t, p, name, value, codes, l', s', ret);
      AccessMatches(t, st, p, l', s', saves, StoreStep(st, SetValue(p, name, value, codes)).0.env);
    }
  }

  /** Every admissible step answers as the store would and leaves the two in step. */
  lemma StepMatches(t: Tracked, st: Store, ev: Event)
    requires Coherent(t) && Admissible(t, ev) && Matches(t, st)
    ensures Usable(t.sys, ev)
    ensures InStep(t, st, ev)
  {
    match ev
    case Attach(p) => AttachMatches(t, st, p);
    case Attempt(p, read) => AttemptMatches(t, st, p, read);
    case Release(p) => ReleaseMatches(t, st, p);
    case GetValue(p, key) => GetMatches(t, st, p, key);
    case SetValue(p, name, value, codes) => SetMatches(t, st, p, name, value, codes);
  }

  ghost predicate AdmissibleRun(t: Tracked, run: seq<Event>)
    decreases |run|
  {
    run == [] ||
    (Admissible(t, run[0]) && Usable(t.sys, run[0]) && AdmissibleRun(TrackedStep(t, run[0]), run[1..]))
  }

  ghost function Replies(t: Tracked, run: seq<Event>): seq<Reply>
    requires AdmissibleRun(t, run)
    decreases |run|
  {
    if run == [] then []
    else [Step(t.sys, run[0]).1] + Replies(TrackedStep(t, run[0]), run[1..])
  }

  ghost function StoreReplies(t: Tracked, st: Store, run: seq<Event>): seq<Reply>
    requires AdmissibleRun(t, run)
    decreases |run|
  {
    if run == [] then []
    else
      var (st', reply) := StoreStep(st, run[0]);
      [reply] + StoreReplies(TrackedStep(t, run[0]), st', run[1..])
  }

  /**
   * In every run of any number of processes, with the attempts and releases of their initialising interleaved in any
   * way with the gets and updates of the others, each step answers as one variable store would: a get returns the last
   * value any process set for that key, written through to the device or not.
   */
  lemma {:induction false} RunMatchesStore(t: Tracked, st: Store, run: seq<Event>)
    requires Coherent(t) && Matches(t, st) && AdmissibleRun(t, run)
    ensures Replies(t, run) == StoreReplies(t, st, run)
    decreases |run|
  {
    if run != [] {
      var ev := run[0];
      StepKeepsCoherent(t, ev);
      StepMatches(t, st, ev);
      RunMatchesStore(TrackedStep(t, ev), StoreStep(st, ev).0, run[1..]);
    }
  }

  /** Before any process has run there is no area, and nobody has a list. */
  function Start(size: nat): Tracked {
    Tracked(System(size, [], None, map[]), 0, map[])
  }

  lemma RunFromStart(size: nat, run: seq<Event>)
    requires AdmissibleRun(Start(size), run)
    ensures Replies(Start(size), run) == StoreReplies(Start(size), Store(false, {}, map[], map[]), run)
  {
    RunMatchesStore(Start(size), Store(false, {}, map[], map[]), run);
  }
}
