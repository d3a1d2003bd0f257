/** logcat's merge of several log devices: one sorted queue a device, entries let out by time stamp with a delay,
    a flush when the devices are quiet, and -t, which keeps only the most recent entries. */
module LogMerge {

  import opened Wrappers

  // ---------- time stamps

  datatype Entry = Entry(sec: int, nsec: int, id: nat)

  predicate Int32(n: int) {
    -0x8000_0000 <= n < 0x8000_0000
  }

  /** A difference of two int32 values, kept in an int32. */
  function Wrap32(n: int): (r: int)
    ensures Int32(r) && (Int32(n) ==> r == n)
  {
    var m := n % 0x1_0000_0000;
    if m < 0x8000_0000 then m else m - 0x1_0000_0000
  }

  function Cmp(a: Entry, b: Entry): int {
    var n := Wrap32(a.sec - b.sec);
    if n != 0 then n else Wrap32(a.nsec - b.nsec)
  }

  /** Subtraction orders two stamps rightly exactly when the deciding difference does not wrap around. */
  lemma CmpOrdersExactly(a: Entry, b: Entry)
    requires Int32(a.sec) && Int32(b.sec) && Int32(a.nsec) && Int32(b.nsec)
    ensures a.sec != b.sec ==> ((Cmp(a, b) < 0 <==> a.sec < b.sec) <==> Int32(a.sec - b.sec))
    ensures a.sec == b.sec ==> ((Cmp(a, b) < 0 <==> a.nsec < b.nsec) <==> Int32(a.nsec - b.nsec))
  {
  }

  /** An entry stamped with a legal time since 1970. */
  type Stamped = e: Entry | 0 <= e.sec < 0x8000_0000 && 0 <= e.nsec < 1_000_000_000 witness Entry(0, 0, 0)

  function Time(e: Stamped): nat {
    e.sec * 1_000_000_000 + e.nsec
  }

  /** For legal stamps no difference wraps around. */
  lemma CmpIsTime(a: Stamped, b: Stamped)
    ensures Cmp(a, b) < 0 <==> Time(a) < Time(b)
  {
    assert Int32(a.sec - b.sec) && Int32(a.nsec - b.nsec);
  }

  // ---------- one queue

  type Queue = seq<Stamped>

  ghost predicate Sorted(q: Queue) {
    forall i, j :: 0 <= i < j < |q| ==> Time(q[i]) <= Time(q[j])
  }

  function Insert(q: Queue, e: Stamped): (r: Queue)
    ensures |r| == |q| + 1
  {
    if q == [] || Time(e) < Time(q[0]) then [e] + q else [q[0]] + Insert(q[1..], e)
  }

  lemma Splice(q: Queue, e: Stamped, i: nat)
    requires 0 < i <= |q|
    ensures [q[0]] + (q[1..][..i - 1] + [e] + q[1..][i - 1..]) == q[..i] + [e] + q[i..]
  {
    assert q[1..][i - 1..] == q[i..];
    assert [q[0]] + q[1..][..i - 1] == q[..i];
  }

  /** Insert puts the entry behind every entry that is not later and leaves the others as they were. */
  lemma {:induction false} InsertPlace(q: Queue, e: Stamped, i: nat)
    requires i <= |q|
    requires forall k :: 0 <= k < i ==> Time(q[k]) <= Time(e)
    requires i < |q| ==> Time(e) < Time(q[i])
    ensures Insert(q, e) == q[..i] + [e] + q[i..]
  {
    if i == 0 {
      assert q[..0] + [e] + q[0..] == [e] + q;
    } else {
      InsertPlace(q[1..], e, i - 1);
      Splice(q, e, i);
    }
  }

  /** Where in a sorted queue an entry belongs. */
  lemma Place(q: Queue, e: Stamped) returns (i: nat)
    requires Sorted(q)
    ensures i <= |q|
    ensures forall k :: 0 <= k < i ==> Time(q[k]) <= Time(e)
    ensures forall k :: i <= k < |q| ==> Time(e) < Time(q[k])
  {
    i := 0;
    while i < |q| && Time(q[i]) <= Time(e)
      invariant i <= |q|
      invariant forall k :: 0 <= k < i ==> Time(q[k]) <= Time(e)
    {
      i := i + 1;
    }
  }

  lemma SplicedSorted(q: Queue, e: Stamped, i: nat)
    requires Sorted(q) && i <= |q|
    requires forall k :: 0 <= k < i ==> Time(q[k]) <= Time(e)
    requires forall k :: i <= k < |q| ==> Time(e) < Time(q[k])
    ensures Sorted(q[..i] + [e] + q[i..])
  {
    var r := q[..i] + [e] + q[i..];
    assert forall k :: 0 <= k < |r| ==> r[k] == (if k < i then q[k] else if k == i then e else q[k - 1]);
  }

  /** enqueue keeps a queue sorted, and an entry never overtakes one that carries the same time. */
  lemma InsertSorted(q: Queue, e: Stamped) returns (i: nat)
    requires Sorted(q)
    ensures Sorted(Insert(q, e)) && i <= |q| && Insert(q, e) == q[..i] + [e] + q[i..]
    ensures forall k :: 0 <= k < i ==> Time(q[k]) <= Time(e)
    ensures forall k :: i <= k < |q| ==> Time(e) < Time(q[k])
  {
    i := Place(q, e);
    InsertPlace(q, e, i);
    SplicedSorted(q, e, i);
  }

  lemma InsertAtEnd(q: Queue, e: Stamped)
    requires Sorted(q) && (q != [] ==> Time(q[|q| - 1]) <= Time(e))
    ensures Insert(q, e) == q + [e]
  {
    InsertPlace(q, e, |q|);
    assert q[..|q|] == q && q[|q|..] == [];
  }

  /** How many entries of a queue are not older than time t. */
  function FromOn(q: Queue, t: int): (n: nat)
    ensures n <= |q|
  {
    if q == [] then 0 else (if Time(q[0]) >= t then 1 else 0) + FromOn(q[1..], t)
  }

  lemma {:induction false} FromOnInsert(q: Queue, e: Stamped, t: int)
    ensures FromOn(Insert(q, e), t) == FromOn(q, t) + (if Time(e) >= t then 1 else 0)
    ensures multiset(Insert(q, e)) == multiset(q) + multiset{e}
  {
    var r := Insert(q, e);
    if q == [] || Time(e) < Time(q[0]) {
      assert r[1..] == q;
    } else {
      FromOnInsert(q[1..], e, t);
      assert r[1..] == Insert(q[1..], e);
      assert q == [q[0]] + q[1..];
    }
  }

  lemma {:induction false} FromOnAll(q: Queue, t: int)
    requires forall e :: e in q ==> Time(e) >= t
    ensures FromOn(q, t) == |q|
  {
    if q != [] {
      FromOnAll(q[1..], t);
    }
  }

  // ---------- all queues

  type Queues = seq<Queue>

  ghost predicate AllSorted(qs: Queues) {
    forall i :: 0 <= i < |qs| ==> Sorted(qs[i])
  }

  function Total(qs: Queues): nat {
    if qs == [] then 0 else |qs[0]| + Total(qs[1..])
  }

  function CountFrom(qs: Queues, t: int): (n: nat)
    ensures n <= Total(qs)
  {
    if qs == [] then 0 else FromOn(qs[0], t) + CountFrom(qs[1..], t)
  }

  ghost function Contents(qs: Queues): multiset<Stamped> {
    if qs == [] then multiset{} else multiset(qs[0]) + Contents(qs[1..])
  }

  /** dev is the first of the first n devices whose head is older than every head before it and later than none. */
  ghost predicate IsFirst(qs: Queues, n: nat, dev: nat)
    requires n <= |qs|
  {
    && dev < n && qs[dev] != []
    && (forall i :: 0 <= i < n && qs[i] != [] ==> Time(qs[dev][0]) <= Time(qs[i][0]))
    && (forall i :: 0 <= i < dev && qs[i] != [] ==> Time(qs[dev][0]) < Time(qs[i][0]))
  }

  function FirstOf(qs: Queues, n: nat): (dev: Option<nat>)
    requires n <= |qs|
    ensures dev.None? <==> forall i :: 0 <= i < n ==> qs[i] == []
    ensures dev.Some? ==> IsFirst(qs, n, dev.value)
  {
    if n == 0 then None
    else
      var first := FirstOf(qs, n - 1);
      if qs[n - 1] != [] && (first.None? || Time(qs[n - 1][0]) < Time(qs[first.value][0])) then Some(n - 1) else first
  }

  function ChooseFirst(qs: Queues): (dev: Option<nat>)
    ensures dev.None? <==> forall i :: 0 <= i < |qs| ==> qs[i] == []
    ensures dev.Some? ==> IsFirst(qs, |qs|, dev.value)
  {
    FirstOf(qs, |qs|)
  }

  /** The queues after the head of queue i has been taken out. */
  function Pop(qs: Queues, i: nat): Queues
    requires i < |qs| && qs[i] != []
  {
    qs[i := qs[i][1..]]
  }

  lemma {:induction false} PopCounts(qs: Queues, i: nat, t: int)
    requires i < |qs| && qs[i] != []
    ensures Total(Pop(qs, i)) == Total(qs) - 1
    ensures CountFrom(Pop(qs, i), t) == CountFrom(qs, t) - (if Time(qs[i][0]) >= t then 1 else 0)
  {
    if i == 0 {
      assert Pop(qs, i)[1..] == qs[1..];
    } else {
      PopCounts(qs[1..], i - 1, t);
      assert Pop(qs, i)[1..] == Pop(qs[1..], i - 1);
    }
  }

  lemma {:induction false} PopContents(qs: Queues, i: nat)
    requires i < |qs| && qs[i] != []
    ensures Contents(qs) == Contents(Pop(qs, i)) + multiset{qs[i][0]}
  {
    if i == 0 {
      assert Pop(qs, i)[1..] == qs[1..];
      assert qs[0] == [qs[0][0]] + qs[0][1..];
    } else {
      PopContents(qs[1..], i - 1);
      assert Pop(qs, i)[1..] == Pop(qs[1..], i - 1);
    }
  }

  lemma {:induction false} AllFrom(qs: Queues, t: int)
    requires AllSorted(qs)
    requires forall i :: 0 <= i < |qs| && qs[i] != [] ==> t <= Time(qs[i][0])
    ensures CountFrom(qs, t) == Total(qs)
  {
    if qs != [] {
      FromOnAll(qs[0], t);
      AllFrom(qs[1..], t);
    }
  }

  lemma {:induction false} NothingQueued(qs: Queues)
    requires forall i :: 0 <= i < |qs| ==> qs[i] == []
    ensures Total(qs) == 0 && Contents(qs) == multiset{}
  {
    if qs != [] {
      NothingQueued(qs[1..]);
    }
  }

  // ---------- reading a round

  type Arrivals = seq<Option<Stamped>>

  /** One entry at most for each device; a device that was not ready, or was not reached, has none. */
  function Arrive(qs: Queues, arrivals: Arrivals): (r: Queues)
    requires |qs| == |arrivals|
    ensures |r| == |qs|
    ensures forall i :: 0 <= i < |qs| ==>
      r[i] == (if arrivals[i].Some? then Insert(qs[i], arrivals[i].value) else qs[i])
  {
    if qs == [] then []
    else
      [if arrivals[0].Some? then Insert(qs[0], arrivals[0].value) else qs[0]] + Arrive(qs[1..], arrivals[1..])
  }

  ghost function Arrived(arrivals: Arrivals): multiset<Stamped> {
    if arrivals == [] then multiset{}
    else (if arrivals[0].Some? then multiset{arrivals[0].value} else multiset{}) + Arrived(arrivals[1..])
  }

  function Ready(arrivals: Arrivals): nat {
    if arrivals == [] then 0 else (if arrivals[0].Some? then 1 else 0) + Ready(arrivals[1..])
  }

  lemma {:induction false} ReadyOne(arrivals: Arrivals, i: nat)
    requires i < |arrivals|
    ensures Ready(arrivals[..i + 1]) == Ready(arrivals[..i]) + (if arrivals[i].Some? then 1 else 0)
  {
    if i > 0 {
      ReadyOne(arrivals[1..], i - 1);
      assert arrivals[..i + 1][1..] == arrivals[1..][..i] && arrivals[..i][1..] == arrivals[1..][..i - 1];
    }
  }

  lemma {:induction false} ArriveCounts(qs: Queues, arrivals: Arrivals, t: int)
    requires |qs| == |arrivals|
    ensures Total(Arrive(qs, arrivals)) == Total(qs) + Ready(arrivals)
    ensures CountFrom(Arrive(qs, arrivals), t) >= CountFrom(qs, t)
    ensures Contents(Arrive(qs, arrivals)) == Contents(qs) + Arrived(arrivals)
  {
    if qs != [] {
      ArriveCounts(qs[1..], arrivals[1..], t);
      if arrivals[0].Some? {
        FromOnInsert(qs[0], arrivals[0].value, t);
      }
    }
  }

  lemma ArriveSorted(qs: Queues, arrivals: Arrivals)
    requires |qs| == |arrivals| && AllSorted(qs)
    ensures AllSorted(Arrive(qs, arrivals))
  {
    forall i | 0 <= i < |qs|
      ensures Sorted(Arrive(qs, arrivals)[i])
    {
      if arrivals[i].Some? {
        var k := InsertSorted(qs[i], arrivals[i].value);
      }
    }
  }

  // ---------- letting entries out

  datatype State = State(queues: Queues, printed: Queue, skipped: Queue)

  /** printNextEntry or skipNextEntry on device i. */
  function Take(st: State, i: nat, printIt: bool): State
    requires i < |st.queues| && st.queues[i] != []
  {
    var e := st.queues[i][0];
    if printIt then State(Pop(st.queues, i), st.printed + [e], st.skipped)
    else State(Pop(st.queues, i), st.printed, st.skipped + [e])
  }

  datatype Move = Move(dev: nat, printIt: bool)

  /** The next entry to go, if any. After new data it is printed, or skipped with -t, unless it is the last in its
      list; after a quiet spell every entry goes, and -t skips all but the last ones. */
  function Next(st: State, tail: int, quiet: bool): (move: Option<Move>)
    ensures move.Some? ==> IsFirst(st.queues, |st.queues|, move.value.dev)
  {
    match ChooseFirst(st.queues)
    case None => None
    case Some(i) =>
      if quiet then Some(Move(i, tail == 0 || Total(st.queues) <= tail))
      else if (tail == 0 || Total(st.queues) > tail) && |st.queues[i]| > 1 then Some(Move(i, tail == 0))
      else None
  }

  function LetOut(st: State, tail: int, quiet: bool): (r: State)
    ensures |r.queues| == |st.queues|
    decreases Total(st.queues)
  {
    match Next(st, tail, quiet)
    case None => st
    case Some(move) =>
      PopCounts(st.queues, move.dev, 0);
      LetOut(Take(st, move.dev, move.printIt), tail, quiet)
  }

  /** One turn of the endless loop. A read that a signal cut short ends the turn before anything is let out. */
  datatype Event = Data(arrivals: Arrivals, interrupted: bool) | Timeout

  predicate Fits(ev: Event, devices: nat) {
    ev.Data? ==> |ev.arrivals| == devices
  }

  function Turn(st: State, ev: Event, tail: int): (r: State)
    requires Fits(ev, |st.queues|)
    ensures |r.queues| == |st.queues|
  {
    match ev
    case Data(arrivals, interrupted) =>
      var s := st.(queues := Arrive(st.queues, arrivals));
      if interrupted then s else LetOut(s, tail, false)
    case Timeout => LetOut(st, tail, true)
  }

  predicate AllFit(events: seq<Event>, devices: nat) {
    forall k :: 0 <= k < |events| ==> Fits(events[k], devices)
  }

  predicate NoTimeout(events: seq<Event>) {
    forall k :: 0 <= k < |events| ==> events[k].Data?
  }

  function Run(st: State, events: seq<Event>, tail: int): (r: State)
    requires AllFit(events, |st.queues|)
    ensures |r.queues| == |st.queues|
    decreases |events|
  {
    if events == [] then st else Run(Turn(st, events[0], tail), events[1..], tail)
  }

  /** The whole loop: with -d or -t, logcat exits after the first quiet spell. */
  function Session(st: State, events: seq<Event>, tail: int, nonblock: bool): State
    requires AllFit(events, |st.queues|)
    decreases |events|
  {
    if events == [] then st
    else if events[0].Timeout? && nonblock then Turn(st, events[0], tail)
    else Session(Turn(st, events[0], tail), events[1..], tail, nonblock)
  }

  lemma SessionStep(st: State, events: seq<Event>, tail: int, nonblock: bool)
    requires AllFit(events, |st.queues|) && events != []
    ensures Fits(events[0], |st.queues|)
    ensures Session(st, events, tail, nonblock) ==
      if events[0].Timeout? && nonblock then Turn(st, events[0], tail)
      else Session(Turn(st, events[0], tail), events[1..], tail, nonblock)
  {
  }

  lemma SessionFrom(st: State, events: seq<Event>, n: nat, tail: int, nonblock: bool)
    requires n < |events| && AllFit(events, |st.queues|)
    ensures Fits(events[n], |st.queues|) && AllFit(events[n..], |st.queues|) && AllFit(events[n + 1..], |st.queues|)
    ensures Session(st, events[n..], tail, nonblock) ==
      if events[n].Timeout? && nonblock then Turn(st, events[n], tail)
      else Session(Turn(st, events[n], tail), events[n + 1..], tail, nonblock)
  {
    SessionStep(st, events[n..], tail, nonblock);
    assert events[n..][1..] == events[n + 1..];
  }

  /** Without the early exit the loop is the run; with it, the run up to and with the first quiet spell. */
  lemma {:induction false} SessionIsRun(st: State, data: seq<Event>, rest: seq<Event>, tail: int, nonblock: bool)
    requires AllFit(data, |st.queues|) && AllFit(rest, |st.queues|) && NoTimeout(data)
    requires nonblock ==> rest != [] && rest[0].Timeout?
    ensures AllFit(data + rest, |st.queues|)
    ensures Session(st, data + rest, tail, nonblock) ==
      if nonblock then Turn(Run(st, data, tail), Timeout, tail) else Run(Run(st, data, tail), rest, tail)
    decreases |data| + |rest|
  {
    if data != [] {
      assert (data + rest)[1..] == data[1..] + rest;
      SessionStep(st, data + rest, tail, nonblock);
      SessionIsRun(Turn(st, data[0], tail), data[1..], rest, tail, nonblock);
    } else {
      assert data + rest == rest;
      if rest != [] {
        SessionStep(st, rest, tail, nonblock);
        if !nonblock {
          assert rest[1..] == [] + rest[1..];
          SessionIsRun(Turn(st, rest[0], tail), [], rest[1..], tail, nonblock);
        }
      }
    }
  }

  ghost function ReadBy(events: seq<Event>): multiset<Stamped> {
    if events == [] then multiset{}
    else ReadIn(events[0]) + ReadBy(events[1..])
  }

  // ---------- conservation

  /** Everything the reader holds or has let out. */
  ghost function Accounted(st: State): multiset<Stamped> {
    Contents(st.queues) + multiset(st.printed) + multiset(st.skipped)
  }

  lemma TakeConserves(st: State, i: nat, printIt: bool)
    requires i < |st.queues| && st.queues[i] != []
    ensures Accounted(Take(st, i, printIt)) == Accounted(st)
  {
    PopContents(st.queues, i);
  }

  lemma {:induction false} LetOutConserves(st: State, tail: int, quiet: bool)
    ensures Accounted(LetOut(st, tail, quiet)) == Accounted(st)
    decreases Total(st.queues)
  {
    var move := Next(st, tail, quiet);
    if move.Some? {
      PopCounts(st.queues, move.value.dev, 0);
      TakeConserves(st, move.value.dev, move.value.printIt);
      LetOutConserves(Take(st, move.value.dev, move.value.printIt), tail, quiet);
    }
  }

  ghost function ReadIn(ev: Event): multiset<Stamped> {
    if ev.Data? then Arrived(ev.arrivals) else multiset{}
  }

  lemma TurnConserves(st: State, ev: Event, tail: int)
    requires Fits(ev, |st.queues|)
    ensures Accounted(Turn(st, ev, tail)) == Accounted(st) + ReadIn(ev)
  {
    match ev
    case Data(arrivals, interrupted) =>
      ArriveCounts(st.queues, arrivals, 0);
      LetOutConserves(st.(queues := Arrive(st.queues, arrivals)), tail, false);
    case Timeout =>
      LetOutConserves(st, tail, true);
  }

  /** In every run, an entry read is printed, skipped or still queued, and exactly one of them, once. */
  lemma {:induction false} RunConserves(st: State, events: seq<Event>, tail: int)
    requires AllFit(events, |st.queues|)
    ensures Accounted(Run(st, events, tail)) == Accounted(st) + ReadBy(events)
    decreases |events|
  {
    if events != [] {
      assert Fits(events[0], |st.queues|);
      TurnConserves(st, events[0], tail);
      RunConserves(Turn(st, events[0], tail), events[1..], tail);
    }
  }

  // ---------- data rounds keep the last entry of every device

  function Last(q: Queue): Option<Stamped> {
    if q == [] then None else Some(q[|q| - 1])
  }

  lemma PopKeepsLast(qs: Queues, dev: nat, i: nat)
    requires dev < |qs| && |qs[dev]| > 1 && i < |qs|
    ensures Last(Pop(qs, dev)[i]) == Last(qs[i])
  {
    assert qs[dev][1..][|qs[dev]| - 2] == qs[dev][|qs[dev]| - 1];
  }

  /** A data round never empties a queue: the entry at its end stays. */
  lemma {:induction false} DataKeepsLast(st: State, tail: int, i: nat)
    requires i < |st.queues|
    ensures Last(LetOut(st, tail, false).queues[i]) == Last(st.queues[i])
    decreases Total(st.queues)
  {
    var move := Next(st, tail, false);
    if move.Some? {
      PopCounts(st.queues, move.value.dev, 0);
      PopKeepsLast(st.queues, move.value.dev, i);
      DataKeepsLast(Take(st, move.value.dev, move.value.printIt), tail, i);
    }
  }

  // ---------- order of what is printed

  /** No printed entry is later than one still queued. */
  ghost predicate AheadOf(printed: Queue, qs: Queues) {
    forall p, i :: 0 <= p < |printed| && 0 <= i < |qs| && qs[i] != [] ==> Time(printed[p]) <= Time(qs[i][0])
  }

  ghost predicate InOrder(st: State) {
    AllSorted(st.queues) && Sorted(st.printed) && AheadOf(st.printed, st.queues)
  }

  lemma TakeInOrder(st: State, i: nat, printIt: bool)
    requires InOrder(st) && IsFirst(st.queues, |st.queues|, i)
    ensures InOrder(Take(st, i, printIt))
  {
    assert Sorted(st.queues[i]);
  }

  lemma {:induction false} LetOutInOrder(st: State, tail: int, quiet: bool)
    requires InOrder(st)
    ensures InOrder(LetOut(st, tail, quiet)) && st.printed <= LetOut(st, tail, quiet).printed
    decreases Total(st.queues)
  {
    var move := Next(st, tail, quiet);
    if move.Some? {
      PopCounts(st.queues, move.value.dev, 0);
      TakeInOrder(st, move.value.dev, move.value.printIt);
      LetOutInOrder(Take(st, move.value.dev, move.value.printIt), tail, quiet);
    }
  }

  /** When each device last delivered an entry. */
  type Clock = seq<nat>

  ghost predicate EndsAt(qs: Queues, clock: Clock) {
    && |clock| == |qs|
    && forall i :: 0 <= i < |qs| ==> Last(qs[i]).Some? && Time(Last(qs[i]).value) == clock[i]
  }

  function Tick(clock: Clock, arrivals: Arrivals): (r: Clock)
    requires |clock| == |arrivals|
    ensures |r| == |clock|
  {
    seq(|clock|, i requires 0 <= i < |clock| => if arrivals[i].Some? then Time(arrivals[i].value) else clock[i])
  }

  /** Each device delivers in nondecreasing time order, and there is no quiet spell. */
  ghost predicate DeviceOrder(clock: Clock, events: seq<Event>)
    decreases |events|
  {
    events == [] ||
    (&& events[0].Data? && Fits(events[0], |clock|)
     && (forall i :: 0 <= i < |clock| && events[0].arrivals[i].Some? ==>
           clock[i] <= Time(events[0].arrivals[i].value))
     && DeviceOrder(Tick(clock, events[0].arrivals), events[1..]))
  }

  /** An entry that is not older than the end of its queue goes to the end. */
  lemma InsertKeepsHead(q: Queue, e: Stamped)
    requires Sorted(q) && q != [] && Time(q[|q| - 1]) <= Time(e)
    ensures var r := Insert(q, e);
      r != [] && r[0] == q[0] && Last(r) == Some(e)
  {
    InsertAtEnd(q, e);
  }

  lemma ArriveAtEnd(qs: Queues, clock: Clock, arrivals: Arrivals, i: nat)
    requires AllSorted(qs) && EndsAt(qs, clock) && |arrivals| == |qs| && i < |qs|
    requires arrivals[i].Some? ==> clock[i] <= Time(arrivals[i].value)
    ensures var q := Arrive(qs, arrivals)[i];
      q != [] && q[0] == qs[i][0] && Time(Last(q).value) == Tick(clock, arrivals)[i]
  {
    assert Last(qs[i]).Some? && Time(Last(qs[i]).value) == clock[i];
    if arrivals[i].Some? {
      InsertKeepsHead(qs[i], arrivals[i].value);
    }
  }

  lemma ArriveInOrder(st: State, clock: Clock, arrivals: Arrivals)
    requires InOrder(st) && EndsAt(st.queues, clock) && |arrivals| == |st.queues|
    requires forall i :: 0 <= i < |clock| && arrivals[i].Some? ==> clock[i] <= Time(arrivals[i].value)
    ensures InOrder(st.(queues := Arrive(st.queues, arrivals)))
    ensures EndsAt(Arrive(st.queues, arrivals), Tick(clock, arrivals))
  {
    var qs := Arrive(st.queues, arrivals);
    ArriveSorted(st.queues, arrivals);
    forall i: nat | i < |qs|
      ensures qs[i] != [] && qs[i][0] == st.queues[i][0] && Time(Last(qs[i]).value) == Tick(clock, arrivals)[i]
    {
      ArriveAtEnd(st.queues, clock, arrivals, i);
    }
    SameHeads(st.printed, st.queues, qs);
  }

  lemma SameHeads(printed: Queue, qs: Queues, r: Queues)
    requires AheadOf(printed, qs) && |r| == |qs|
    requires forall i :: 0 <= i < |qs| ==> qs[i] != [] && r[i] != [] && r[i][0] == qs[i][0]
    ensures AheadOf(printed, r)
  {
  }

  lemma LetOutKeepsEnds(st: State, clock: Clock, tail: int)
    requires EndsAt(st.queues, clock)
    ensures EndsAt(LetOut(st, tail, false).queues, clock)
  {
    forall i: nat | i < |st.queues|
      ensures Last(LetOut(st, tail, false).queues[i]) == Last(st.queues[i])
    {
      DataKeepsLast(st, tail, i);
    }
  }

  lemma DataTurnInOrder(st: State, clock: Clock, arrivals: Arrivals, interrupted: bool, tail: int)
    requires InOrder(st) && EndsAt(st.queues, clock) && |arrivals| == |st.queues|
    requires forall i :: 0 <= i < |clock| && arrivals[i].Some? ==> clock[i] <= Time(arrivals[i].value)
    ensures var r := Turn(st, Data(arrivals, interrupted), tail);
      InOrder(r) && EndsAt(r.queues, Tick(clock, arrivals)) && st.printed <= r.printed
  {
    var s := st.(queues := Arrive(st.queues, arrivals));
    ArriveInOrder(st, clock, arrivals);
    LetOutInOrder(s, tail, false);
    LetOutKeepsEnds(s, Tick(clock, arrivals), tail);
  }

  /** From a state where every device has an entry waiting, and for as long as no quiet spell forces a flush, what is
      printed over all rounds is in time order across the devices, and nothing that is queued, then or later, is
      older than anything already printed. */
  lemma {:induction false} PrintedInOrder(st: State, clock: Clock, events: seq<Event>, tail: int)
    requires InOrder(st) && EndsAt(st.queues, clock) && DeviceOrder(clock, events)
    requires AllFit(events, |st.queues|)
    ensures var r := Run(st, events, tail);
      InOrder(r) && st.printed <= r.printed && forall i :: 0 <= i < |r.queues| ==> r.queues[i] != []
    decreases |events|
  {
    if events == [] {
      assert forall i :: 0 <= i < |st.queues| ==> Last(st.queues[i]).Some?;
    } else {
      assert Fits(events[0], |st.queues|);
      DataTurnInOrder(st, clock, events[0].arrivals, events[0].interrupted, tail);
      PrintedInOrder(Turn(st, events[0], tail), Tick(clock, events[0].arrivals), events[1..], tail);
    }
  }

  // ---------- the flush

  /** All queued entries in the order chooseFirst takes them. */
  ghost function Merge(qs: Queues): (r: Queue)
    ensures |r| == Total(qs)
    decreases Total(qs)
  {
    match ChooseFirst(qs)
    case None => NothingQueued(qs); []
    case Some(i) =>
      PopCounts(qs, i, 0);
      [qs[i][0]] + Merge(Pop(qs, i))
  }

  lemma {:induction false} MergeContents(qs: Queues)
    ensures multiset(Merge(qs)) == Contents(qs)
    decreases Total(qs)
  {
    match ChooseFirst(qs)
    case None =>
      NothingQueued(qs);
    case Some(i) =>
      PopCounts(qs, i, 0);
      PopContents(qs, i);
      MergeContents(Pop(qs, i));
  }

  ghost predicate HeadsFrom(qs: Queues, t: int) {
    forall i :: 0 <= i < |qs| && qs[i] != [] ==> t <= Time(qs[i][0])
  }

  ghost predicate NoneBefore(q: Queue, t: int) {
    forall k :: 0 <= k < |q| ==> t <= Time(q[k])
  }

  lemma PopHeads(qs: Queues, i: nat)
    requires AllSorted(qs) && IsFirst(qs, |qs|, i)
    ensures AllSorted(Pop(qs, i)) && HeadsFrom(Pop(qs, i), Time(qs[i][0]))
  {
    assert Sorted(qs[i]);
  }

  lemma SortedCons(e: Stamped, q: Queue)
    requires Sorted(q) && NoneBefore(q, Time(e))
    ensures Sorted([e] + q) && forall t: int :: NoneBefore([e] + q, t) <==> t <= Time(e)
  {
    assert ([e] + q)[0] == e;
    assert forall k :: 0 < k < |[e] + q| ==> ([e] + q)[k] == q[k - 1];
  }

  lemma {:induction false} MergeSorted(qs: Queues, t: int)
    requires AllSorted(qs) && HeadsFrom(qs, t)
    ensures Sorted(Merge(qs)) && NoneBefore(Merge(qs), t)
    decreases Total(qs)
  {
    match ChooseFirst(qs)
    case None =>
      assert Merge(qs) == [];
    case Some(i) =>
      PopCounts(qs, i, 0);
      PopHeads(qs, i);
      MergeSorted(Pop(qs, i), Time(qs[i][0]));
      SortedCons(qs[i][0], Merge(Pop(qs, i)));
  }

  /** How many of a number of entries -t lets through; without -t (0), all. */
  function Kept(tail: int, total: nat): nat {
    if tail == 0 then total else if tail < 0 then 0 else if tail < total then tail else total
  }

  ghost predicate Emptied(qs: Queues) {
    forall i :: 0 <= i < |qs| ==> qs[i] == []
  }

  /** r is st after the entries m have left it, the last Kept of them printed. */
  ghost predicate Gone(st: State, m: Queue, r: State, tail: int) {
    var k := |m| - Kept(tail, |m|);
    r.printed == st.printed + m[k..] && r.skipped == st.skipped + m[..k]
  }

  lemma GoneOneMore(st: State, next: State, e: Stamped, rest: Queue, r: State, tail: int)
    requires Gone(next, rest, r, tail)
    requires if tail == 0 || |rest| < tail then next.printed == st.printed + [e] && next.skipped == st.skipped
             else next.printed == st.printed && next.skipped == st.skipped + [e]
    ensures Gone(st, [e] + rest, r, tail)
  {
    var m := [e] + rest;
    var k := |rest| - Kept(tail, |rest|);
    if tail == 0 || |rest| < tail {
      assert rest[0..] == rest && m[0..] == m;
      assert (st.printed + [e]) + rest == st.printed + m;
    } else {
      assert m[k + 1..] == rest[k..];
      assert (st.skipped + [e]) + rest[..k] == st.skipped + m[..k + 1];
    }
  }

  lemma NothingToFlush(st: State, tail: int)
    requires ChooseFirst(st.queues).None?
    ensures Gone(st, Merge(st.queues), LetOut(st, tail, true), tail) && Emptied(LetOut(st, tail, true).queues)
  {
    assert Merge(st.queues) == [];
  }

  lemma FlushStep(st: State, tail: int, i: nat)
    requires ChooseFirst(st.queues) == Some(i)
    ensures var next := Take(st, i, tail == 0 || Total(st.queues) <= tail);
      && LetOut(st, tail, true) == LetOut(next, tail, true)
      && Merge(st.queues) == [st.queues[i][0]] + Merge(next.queues)
      && Total(next.queues) == Total(st.queues) - 1
  {
    PopCounts(st.queues, i, 0);
  }

  /** A flush empties every queue; of the merged entries it skips the first and prints the last Kept(tail). */
  lemma {:induction false} FlushPrintsTail(st: State, tail: int)
    ensures Gone(st, Merge(st.queues), LetOut(st, tail, true), tail) && Emptied(LetOut(st, tail, true).queues)
    decreases Total(st.queues)
  {
    var first := ChooseFirst(st.queues);
    if first.None? {
      NothingToFlush(st, tail);
    } else {
      var i := first.value;
      var next := Take(st, i, tail == 0 || Total(st.queues) <= tail);
      FlushStep(st, tail, i);
      FlushPrintsTail(next, tail);
      GoneOneMore(st, next, st.queues[i][0], Merge(next.queues), LetOut(next, tail, true), tail);
    }
  }

  // ---------- where a data round stops

  /** Nothing is queued, or the oldest queued entry is the last in its list. */
  ghost predicate Held(qs: Queues) {
    Emptied(qs) || exists dev: nat :: IsFirst(qs, |qs|, dev) && |qs[dev]| == 1
  }

  /** st has let the first k of its merged entries go, and holds the others. Without -t they are printed, with it they
      are skipped. */
  ghost predicate LetGone(st: State, k: nat, r: State, tail: int) {
    var m := Merge(st.queues);
    && k <= |m| && Merge(r.queues) == m[k..]
    && r.printed == (if tail == 0 then st.printed + m[..k] else st.printed)
    && r.skipped == (if tail == 0 then st.skipped else st.skipped + m[..k])
  }

  /** A data round goes on as far as it may and no further. */
  ghost predicate StopsRight(k: nat, qs: Queues, tail: int) {
    && (Held(qs) || (tail != 0 && Total(qs) <= tail))
    && (k > 0 && tail != 0 ==> Total(qs) >= tail)
  }

  lemma DataStep(st: State, tail: int, i: nat)
    requires Next(st, tail, false) == Some(Move(i, tail == 0))
    ensures var next := Take(st, i, tail == 0);
      && LetOut(st, tail, false) == LetOut(next, tail, false)
      && Merge(st.queues) == [st.queues[i][0]] + Merge(next.queues)
      && Total(next.queues) == Total(st.queues) - 1
  {
    PopCounts(st.queues, i, 0);
  }

  lemma OneMoreGone(st: State, i: nat, k: nat, r: State, tail: int)
    requires ChooseFirst(st.queues) == Some(i)
    requires Merge(st.queues) == [st.queues[i][0]] + Merge(Take(st, i, tail == 0).queues)
    requires LetGone(Take(st, i, tail == 0), k, r, tail)
    ensures LetGone(st, k + 1, r, tail)
  {
    var rest := Merge(Take(st, i, tail == 0).queues);
    OneMoreInFront(if tail == 0 then st.printed else st.skipped, st.queues[i][0], rest, k);
  }

  lemma OneMoreInFront(before: Queue, e: Stamped, rest: Queue, k: nat)
    requires k <= |rest|
    ensures ([e] + rest)[k + 1..] == rest[k..]
    ensures before + [e] + rest[..k] == before + ([e] + rest)[..k + 1]
  {
    assert ([e] + rest)[..k + 1] == [e] + rest[..k];
  }

  lemma StopHere(st: State, tail: int)
    requires Next(st, tail, false).None?
    ensures LetGone(st, 0, st, tail) && StopsRight(0, st.queues, tail)
  {
    var first := ChooseFirst(st.queues);
    if first.Some? && |st.queues[first.value]| == 1 {
      assert IsFirst(st.queues, |st.queues|, first.value);
    }
  }

  /** A data round lets a first part of the merged entries go, prints it, or skips it with -t, and stops when nothing is
      queued, when the oldest entry left is the last in its list, or, with -t, when no more than `tail` are left. */
  lemma {:induction false} DataRoundExactly(st: State, tail: int) returns (k: nat)
    ensures LetGone(st, k, LetOut(st, tail, false), tail)
    ensures StopsRight(k, LetOut(st, tail, false).queues, tail)
    decreases Total(st.queues)
  {
    var move := Next(st, tail, false);
    if move.None? {
      StopHere(st, tail);
      k := 0;
    } else {
      var i := move.value.dev;
      DataStep(st, tail, i);
      var n := DataRoundExactly(Take(st, i, tail == 0), tail);
      OneMoreGone(st, i, n, LetOut(st, tail, false), tail);
      PopCounts(st.queues, i, 0);
      StopsLater(st, i, n, LetOut(st, tail, false), tail);
      k := n + 1;
    }
  }

  lemma StopsLater(st: State, i: nat, n: nat, r: State, tail: int)
    requires Next(st, tail, false) == Some(Move(i, tail == 0))
    requires Total(Pop(st.queues, i)) == Total(st.queues) - 1
    requires n == 0 ==> Total(r.queues) == Total(Pop(st.queues, i))
    requires StopsRight(n, r.queues, tail)
    ensures StopsRight(n + 1, r.queues, tail)
  {
  }

  /** A whole data turn: a signal that cuts the read short lets nothing go; otherwise the turn lets a first part of what
      is then queued go, and stops where a data round stops. */
  lemma DataTurnExactly(st: State, arrivals: Arrivals, interrupted: bool, tail: int) returns (k: nat)
    requires |arrivals| == |st.queues|
    ensures var s := st.(queues := Arrive(st.queues, arrivals));
      var r := Turn(st, Data(arrivals, interrupted), tail);
      && LetGone(s, k, r, tail)
      && (if interrupted then k == 0 && r == s else StopsRight(k, r.queues, tail))
  {
    var s := st.(queues := Arrive(st.queues, arrivals));
    if interrupted {
      k := 0;
      assert s.printed + [] == s.printed && s.skipped + [] == s.skipped;
    } else {
      k := DataRoundExactly(s, tail);
    }
  }

  // ---------- -t over a whole run

  /** With -t nothing is printed before the flush, and every entry skipped has `tail` queued ones that are not older. */
  ghost predicate TailKept(st: State, tail: int) {
    && AllSorted(st.queues) && st.printed == []
    && (forall k :: 0 <= k < |st.skipped| ==> CountFrom(st.queues, Time(st.skipped[k])) >= tail)
  }

  lemma TakeTail(st: State, i: nat, tail: int)
    requires TailKept(st, tail) && Total(st.queues) > tail && IsFirst(st.queues, |st.queues|, i)
    ensures TailKept(Take(st, i, false), tail)
  {
    var next := Take(st, i, false);
    var e := st.queues[i][0];
    PopHeads(st.queues, i);
    forall k | 0 <= k < |next.skipped|
      ensures CountFrom(next.queues, Time(next.skipped[k])) >= tail
    {
      var s := next.skipped[k];
      PopCounts(st.queues, i, Time(s));
      if Time(s) <= Time(e) {
        AllFrom(next.queues, Time(s));
      }
    }
  }

  lemma {:induction false} DataTail(st: State, tail: int)
    requires tail != 0 && TailKept(st, tail)
    ensures TailKept(LetOut(st, tail, false), tail)
    decreases Total(st.queues)
  {
    var move := Next(st, tail, false);
    if move.Some? {
      TakeTail(st, move.value.dev, tail);
      PopCounts(st.queues, move.value.dev, 0);
      DataTail(Take(st, move.value.dev, false), tail);
    }
  }

  lemma {:induction false} RunTail(st: State, events: seq<Event>, tail: int)
    requires tail != 0 && TailKept(st, tail) && AllFit(events, |st.queues|)
    requires NoTimeout(events)
    ensures TailKept(Run(st, events, tail), tail)
    decreases |events|
  {
    if events != [] {
      var arrivals := events[0].arrivals;
      var s := st.(queues := Arrive(st.queues, arrivals));
      ArriveSorted(st.queues, arrivals);
      forall k | 0 <= k < |st.skipped|
        ensures CountFrom(s.queues, Time(st.skipped[k])) >= tail
      {
        ArriveCounts(st.queues, arrivals, Time(st.skipped[k]));
      }
      DataTail(s, tail);
      RunTail(Turn(st, events[0], tail), events[1..], tail);
    }
  }

  lemma {:induction false} SortedTail(q: Queue, t: int, n: nat)
    requires Sorted(q) && n <= FromOn(q, t)
    ensures NoneBefore(q[|q| - n..], t)
  {
    if n == |q| {
      if q != [] && Time(q[0]) < t {
        assert false;
      }
    } else if Time(q[0]) < t {
      SortedTail(q[1..], t, n);
      assert q[1..][|q| - 1 - n..] == q[|q| - n..];
    }
  }

  lemma {:induction false} MergeCounts(qs: Queues, t: int)
    ensures FromOn(Merge(qs), t) == CountFrom(qs, t)
    decreases Total(qs)
  {
    match ChooseFirst(qs)
    case None =>
      NothingQueued(qs);
      assert Merge(qs) == [] && CountFrom(qs, t) == 0;
    case Some(i) =>
      PopCounts(qs, i, t);
      MergeCounts(Pop(qs, i), t);
      assert Merge(qs)[1..] == Merge(Pop(qs, i));
  }

  ghost predicate NotAfter(early: Queue, late: Queue) {
    forall i, j :: 0 <= i < |early| && 0 <= j < |late| ==> Time(early[i]) <= Time(late[j])
  }

  lemma SortedSplit(m: Queue, k: nat)
    requires Sorted(m) && k <= |m|
    ensures Sorted(m[k..]) && NotAfter(m[..k], m[k..])
  {
  }

  lemma SkippedNotAfter(st: State, tail: int, k: nat)
    requires tail != 0 && TailKept(st, tail) && k == Total(st.queues) - Kept(tail, Total(st.queues))
    ensures NotAfter(st.skipped, Merge(st.queues)[k..])
  {
    var m := Merge(st.queues);
    MergeSorted(st.queues, 0);
    forall i, j | 0 <= i < |st.skipped| && 0 <= j < |m[k..]|
      ensures Time(st.skipped[i]) <= Time(m[k..][j])
    {
      MergeCounts(st.queues, Time(st.skipped[i]));
      SortedTail(m, Time(st.skipped[i]), |m| - k);
    }
  }

  lemma NotAfterUnion(a: Queue, b: Queue, late: Queue)
    requires NotAfter(a, late) && NotAfter(b, late)
    ensures NotAfter(a + b, late)
  {
  }

  /** Once something has been skipped, -t has all the entries it wants. */
  lemma KeptIsSettled(st: State, tail: int)
    requires tail != 0 && TailKept(st, tail)
    ensures Kept(tail, Total(st.queues)) == Kept(tail, Total(st.queues) + |st.skipped|)
  {
    if st.skipped != [] {
      assert CountFrom(st.queues, Time(st.skipped[0])) >= tail;
    }
  }

  /** What the flush makes of a state in which every skipped entry has enough queued ones behind it. */
  lemma FlushSplits(st: State, tail: int, r: State)
    requires tail != 0 && TailKept(st, tail) && r == LetOut(st, tail, true)
    ensures Sorted(r.printed) && NotAfter(r.skipped, r.printed) && Emptied(r.queues)
    ensures |r.printed| == Kept(tail, Total(st.queues) + |st.skipped|)
  {
    var m := Merge(st.queues);
    var k := |m| - Kept(tail, |m|);
    FlushPrintsTail(st, tail);
    MergeSorted(st.queues, 0);
    SkippedNotAfter(st, tail, k);
    SplitParts(st, m, k, r);
    KeptIsSettled(st, tail);
  }

  lemma SplitParts(st: State, m: Queue, k: nat, r: State)
    requires Sorted(m) && k <= |m| && NotAfter(st.skipped, m[k..]) && st.printed == []
    requires r.printed == st.printed + m[k..] && r.skipped == st.skipped + m[..k]
    ensures Sorted(r.printed) && NotAfter(r.skipped, r.printed) && |r.printed| == |m| - k
  {
    assert r.printed == m[k..];
    SortedSplit(m, k);
    NotAfterUnion(st.skipped, m[..k], m[k..]);
  }

  lemma {:induction false} ContentsCount(qs: Queues)
    ensures |Contents(qs)| == Total(qs)
  {
    if qs != [] {
      ContentsCount(qs[1..]);
    }
  }

  function Idle(devices: nat): (qs: Queues)
    ensures |qs| == devices && Emptied(qs)
  {
    seq(devices, _ => [])
  }

  lemma IdleStart(devices: nat, start: State)
    requires start == State(Idle(devices), [], [])
    ensures Accounted(start) == multiset{} && AllSorted(start.queues)
  {
    NothingQueued(start.queues);
    assert multiset(start.printed) == multiset(start.skipped) == multiset{};
  }

  /** A run of data rounds from the start, with -t. */
  lemma RunFromIdle(devices: nat, events: seq<Event>, tail: int) returns (st: State)
    requires tail != 0 && AllFit(events, devices) && NoTimeout(events)
    ensures st == Run(State(Idle(devices), [], []), events, tail)
    ensures TailKept(st, tail) && Contents(st.queues) + multiset(st.skipped) == ReadBy(events)
  {
    var start := State(Idle(devices), [], []);
    st := Run(start, events, tail);
    IdleStart(devices, start);
    RunTail(start, events, tail);
    RunConserves(start, events, tail);
    assert multiset(st.printed) == multiset{};
    assert Accounted(st) == Contents(st.queues) + multiset(st.skipped);
  }

  lemma CountUnion(c: multiset<Stamped>, s: Queue, r: multiset<Stamped>)
    requires c + multiset(s) == r
    ensures |r| == |c| + |s|
  {
    assert |multiset(s)| == |s|;
    assert |c + multiset(s)| == |c| + |multiset(s)|;
  }

  lemma SameAccount(st: State, r: State)
    requires Accounted(r) == Accounted(st) && st.printed == [] && Contents(r.queues) == multiset{}
    ensures multiset(r.printed) + multiset(r.skipped) == Contents(st.queues) + multiset(st.skipped)
  {
    assert multiset(st.printed) == multiset{};
    assert Accounted(r) == multiset(r.printed) + multiset(r.skipped);
    assert Accounted(st) == Contents(st.queues) + multiset(st.skipped);
  }

  lemma FlushConserves(st: State, tail: int, r: State)
    requires r == LetOut(st, tail, true) && st.printed == [] && Emptied(r.queues)
    ensures multiset(r.printed) + multiset(r.skipped) == Contents(st.queues) + multiset(st.skipped)
  {
    LetOutConserves(st, tail, true);
    NothingQueued(r.queues);
    SameAccount(st, r);
  }

  /** r is all that was read, with the `tail` latest entries printed in time order. */
  ghost predicate MostRecent(r: State, read: multiset<Stamped>, tail: int) {
    && Sorted(r.printed) && |r.printed| == Kept(tail, |read|)
    && NotAfter(r.skipped, r.printed)
    && multiset(r.printed) + multiset(r.skipped) == read
  }

  lemma MostRecentParts(st: State, r: State, read: multiset<Stamped>, tail: int)
    requires Contents(st.queues) + multiset(st.skipped) == read
    requires Sorted(r.printed) && NotAfter(r.skipped, r.printed)
    requires |r.printed| == Kept(tail, Total(st.queues) + |st.skipped|)
    requires multiset(r.printed) + multiset(r.skipped) == Contents(st.queues) + multiset(st.skipped)
    ensures MostRecent(r, read, tail)
  {
    ContentsCount(st.queues);
    CountUnion(Contents(st.queues), st.skipped, read);
  }

  lemma FlushMostRecent(st: State, tail: int, r: State, read: multiset<Stamped>)
    requires tail != 0 && TailKept(st, tail) && r == LetOut(st, tail, true)
    requires Contents(st.queues) + multiset(st.skipped) == read
    ensures MostRecent(r, read, tail)
  {
    FlushSplits(st, tail, r);
    FlushConserves(st, tail, r);
    MostRecentParts(st, r, read, tail);
  }

  /** "-t <count>: print only the most recent <count> lines": over a whole session, whatever the order in which the
      devices deliver, the entries printed are the `tail` latest of all entries read, in time order. */
  lemma TailPrintsMostRecent(devices: nat, data: seq<Event>, rest: seq<Event>, tail: int)
    requires tail != 0 && AllFit(data, devices) && AllFit(rest, devices) && AllFit(data + rest, devices)
    requires NoTimeout(data) && rest != [] && rest[0].Timeout?
    ensures MostRecent(Session(State(Idle(devices), [], []), data + rest, tail, true), ReadBy(data), tail)
  {
    var start := State(Idle(devices), [], []);
    SessionIsRun(start, data, rest, tail, true);
    var st := RunFromIdle(devices, data, tail);
    FlushMostRecent(st, tail, LetOut(st, tail, true), ReadBy(data));
  }

  /** Without -t a flush prints everything that waits, in time order, and leaves nothing. */
  lemma FlushPrintsAll(st: State)
    requires AllSorted(st.queues)
    ensures var r := Turn(st, Timeout, 0);
      && Emptied(r.queues) && r.skipped == st.skipped && st.printed <= r.printed
      && Sorted(r.printed[|st.printed|..])
      && multiset(r.printed[|st.printed|..]) == Contents(st.queues)
  {
    FlushPrintsTail(st, 0);
    MergeSorted(st.queues, 0);
    MergeContents(st.queues);
    var m := Merge(st.queues);
    assert m[0..] == m && m[..0] == [];
    assert (st.printed + m)[|st.printed|..] == m;
  }

  // ---------- order across flushes

  /** No arriving entry is older than one already printed. */
  ghost predicate NotOlder(arrivals: Arrivals, printed: Queue) {
    forall p, i :: 0 <= p < |printed| && 0 <= i < |arrivals| && arrivals[i].Some? ==>
      Time(printed[p]) <= Time(arrivals[i].value)
  }

  ghost predicate ArrivesInTime(st: State, ev: Event) {
    ev.Data? ==> NotOlder(ev.arrivals, st.printed)
  }

  /** No turn of the run reads an entry that is older than one printed by then. */
  ghost predicate InTime(st: State, events: seq<Event>)
    requires AllFit(events, |st.queues|)
    decreases |events|
  {
    events == [] || (ArrivesInTime(st, events[0]) && InTime(Turn(st, events[0], 0), events[1..]))
  }

  /** An entry still queued is older than one already printed. */
  ghost predicate Late(st: State, p: nat, i: nat, k: nat) {
    p < |st.printed| && i < |st.queues| && k < |st.queues[i]| && Time(st.queues[i][k]) < Time(st.printed[p])
  }

  /** The order is lost, or is going to be. */
  ghost predicate OutOfOrder(st: State) {
    !Sorted(st.printed) || exists p: nat, i: nat, k: nat :: Late(st, p, i, k)
  }

  lemma OutOfOrderExactly(st: State)
    requires AllSorted(st.queues)
    ensures OutOfOrder(st) <==> !InOrder(st)
  {
    if !AheadOf(st.printed, st.queues) {
      var p: nat, i: nat :| p < |st.printed| && i < |st.queues| && st.queues[i] != []
        && Time(st.queues[i][0]) < Time(st.printed[p]);
      assert Late(st, p, i, 0);
    }
    if p: nat, i: nat, k: nat :| Late(st, p, i, k) {
      assert Sorted(st.queues[i]);
      assert Time(st.queues[i][0]) <= Time(st.queues[i][k]);
    }
  }

  lemma TakeStaysOut(st: State, i: nat)
    requires OutOfOrder(st) && i < |st.queues| && st.queues[i] != []
    ensures OutOfOrder(Take(st, i, true))
  {
    var r := Take(st, i, true);
    assert forall k :: 0 <= k < |st.printed| ==> r.printed[k] == st.printed[k];
    if Sorted(st.printed) {
      var p: nat, j: nat, k: nat :| Late(st, p, j, k);
      if j != i {
        assert Late(r, p, j, k);
      } else if k > 0 {
        assert Late(r, p, j, k - 1);
      } else {
        assert Time(r.printed[|st.printed|]) < Time(r.printed[p]);
      }
    }
  }

  /** An entry printed too early cannot be taken back. */
  lemma {:induction false} LetOutStaysOut(st: State, quiet: bool)
    requires OutOfOrder(st)
    ensures OutOfOrder(LetOut(st, 0, quiet))
    decreases Total(st.queues)
  {
    var move := Next(st, 0, quiet);
    if move.Some? {
      PopCounts(st.queues, move.value.dev, 0);
      TakeStaysOut(st, move.value.dev);
      LetOutStaysOut(Take(st, move.value.dev, true), quiet);
    }
  }

  lemma {:induction false} LetOutSorted(st: State, tail: int, quiet: bool)
    requires AllSorted(st.queues)
    ensures AllSorted(LetOut(st, tail, quiet).queues)
    decreases Total(st.queues)
  {
    var move := Next(st, tail, quiet);
    if move.Some? {
      PopCounts(st.queues, move.value.dev, 0);
      PopHeads(st.queues, move.value.dev);
      LetOutSorted(Take(st, move.value.dev, move.value.printIt), tail, quiet);
    }
  }

  lemma TurnSorted(st: State, ev: Event, tail: int)
    requires AllSorted(st.queues) && Fits(ev, |st.queues|)
    ensures AllSorted(Turn(st, ev, tail).queues)
  {
    match ev
    case Data(arrivals, interrupted) =>
      ArriveSorted(st.queues, arrivals);
      LetOutSorted(st.(queues := Arrive(st.queues, arrivals)), tail, false);
    case Timeout =>
      LetOutSorted(st, tail, true);
  }

  /** Where an entry of a queue is after another has been put in. */
  lemma StaysQueued(q: Queue, e: Stamped, k: nat) returns (n: nat)
    requires Sorted(q) && k < |q|
    ensures n < |Insert(q, e)| && Insert(q, e)[n] == q[k]
  {
    var at := InsertSorted(q, e);
    n := if k < at then k else k + 1;
  }

  lemma ArriveStaysLate(st: State, arrivals: Arrivals, p: nat, i: nat, k: nat)
    requires AllSorted(st.queues) && |arrivals| == |st.queues| && Late(st, p, i, k)
    ensures OutOfOrder(st.(queues := Arrive(st.queues, arrivals)))
  {
    var r := st.(queues := Arrive(st.queues, arrivals));
    var n := k;
    if arrivals[i].Some? {
      n := StaysQueued(st.queues[i], arrivals[i].value, k);
    }
    assert Late(r, p, i, n);
  }

  lemma ArriveStaysOut(st: State, arrivals: Arrivals)
    requires AllSorted(st.queues) && |arrivals| == |st.queues| && OutOfOrder(st)
    ensures OutOfOrder(st.(queues := Arrive(st.queues, arrivals)))
  {
    if Sorted(st.printed) {
      var p: nat, i: nat, k: nat :| Late(st, p, i, k);
      ArriveStaysLate(st, arrivals, p, i, k);
    }
  }

  /** Entries that arrive in time keep what is printed ahead of what is queued, and an older one loses the order. */
  lemma ArriveInTime(st: State, arrivals: Arrivals)
    requires InOrder(st) && |arrivals| == |st.queues|
    ensures InOrder(st.(queues := Arrive(st.queues, arrivals))) <==> NotOlder(arrivals, st.printed)
  {
    var r := st.(queues := Arrive(st.queues, arrivals));
    ArriveSorted(st.queues, arrivals);
    forall i: nat | i < |arrivals| && arrivals[i].Some?
      ensures var e := arrivals[i].value;
        && r.queues[i] != [] && Time(r.queues[i][0]) <= Time(e)
        && (r.queues[i][0] == e || (st.queues[i] != [] && r.queues[i][0] == st.queues[i][0]))
    {
      var at := InsertSorted(st.queues[i], arrivals[i].value);
    }
  }

  /** One turn of the loop, flush or not, keeps the order exactly when it reads nothing older than what is printed. */
  lemma TurnInOrderExactly(st: State, ev: Event)
    requires InOrder(st) && Fits(ev, |st.queues|)
    ensures InOrder(Turn(st, ev, 0)) <==> ArrivesInTime(st, ev)
  {
    match ev
    case Data(arrivals, interrupted) =>
      var s := st.(queues := Arrive(st.queues, arrivals));
      ArriveInTime(st, arrivals);
      ArriveSorted(st.queues, arrivals);
      OutOfOrderExactly(s);
      if InOrder(s) {
        LetOutInOrder(s, 0, false);
      } else {
        LetOutStaysOut(s, false);
        LetOutSorted(s, 0, false);
        OutOfOrderExactly(LetOut(s, 0, false));
      }
    case Timeout =>
      LetOutInOrder(st, 0, true);
  }

  lemma TurnStaysOut(st: State, ev: Event)
    requires AllSorted(st.queues) && Fits(ev, |st.queues|) && OutOfOrder(st)
    ensures OutOfOrder(Turn(st, ev, 0))
  {
    match ev
    case Data(arrivals, interrupted) =>
      ArriveStaysOut(st, arrivals);
      LetOutStaysOut(st.(queues := Arrive(st.queues, arrivals)), false);
    case Timeout =>
      LetOutStaysOut(st, true);
  }

  /** Once lost, the order stays lost. */
  lemma {:induction false} RunStaysOut(st: State, events: seq<Event>)
    requires AllSorted(st.queues) && AllFit(events, |st.queues|) && OutOfOrder(st)
    ensures !InOrder(Run(st, events, 0))
    decreases |events|
  {
    if events == [] {
      OutOfOrderExactly(st);
    } else {
      assert Fits(events[0], |st.queues|);
      TurnStaysOut(st, events[0]);
      TurnSorted(st, events[0], 0);
      RunStaysOut(Turn(st, events[0], 0), events[1..]);
    }
  }

  /** A whole run, with any flushes in it, keeps the order exactly when no entry is read after a later one has been
      printed. */
  lemma {:induction false} RunInOrderExactly(st: State, events: seq<Event>)
    requires InOrder(st) && AllFit(events, |st.queues|)
    ensures InOrder(Run(st, events, 0)) <==> InTime(st, events)
    decreases |events|
  {
    if events != [] {
      assert Fits(events[0], |st.queues|);
      var next := Turn(st, events[0], 0);
      TurnInOrderExactly(st, events[0]);
      TurnSorted(st, events[0], 0);
      if InOrder(next) {
        RunInOrderExactly(next, events[1..]);
      } else {
        OutOfOrderExactly(next);
        RunStaysOut(next, events[1..]);
      }
    }
  }

  lemma {:induction false} RunConcat(st: State, first: seq<Event>, second: seq<Event>, tail: int)
    requires AllFit(first, |st.queues|) && AllFit(second, |st.queues|)
    ensures AllFit(first + second, |st.queues|)
    ensures Run(st, first + second, tail) == Run(Run(st, first, tail), second, tail)
    decreases |first|
  {
    if first == [] {
      assert first + second == second;
    } else {
      assert Fits(first[0], |st.queues|);
      assert (first + second)[1..] == first[1..] + second;
      RunConcat(Turn(st, first[0], tail), first[1..], second, tail);
    }
  }

  lemma {:induction false} RunSorted(st: State, events: seq<Event>)
    requires AllSorted(st.queues) && AllFit(events, |st.queues|)
    ensures AllSorted(Run(st, events, 0).queues)
    decreases |events|
  {
    if events != [] {
      assert Fits(events[0], |st.queues|);
      TurnSorted(st, events[0], 0);
      RunSorted(Turn(st, events[0], 0), events[1..]);
    }
  }

  /** What is printed from the start up to any flush is in time order exactly when no entry up to then was read after a
      later one had been printed. */
  lemma PrintedSortedExactly(devices: nat, events: seq<Event>)
    requires AllFit(events, devices) && AllFit(events + [Timeout], devices)
    ensures var start := State(Idle(devices), [], []);
      Sorted(Run(start, events + [Timeout], 0).printed) <==> InTime(start, events)
  {
    var start := State(Idle(devices), [], []);
    RunInOrderExactly(start, events);
    var st := Run(start, events, 0);
    RunConcat(start, events, [Timeout], 0);
    assert Run(st, [Timeout], 0) == Turn(st, Timeout, 0) by {
      assert [Timeout][1..] == [];
    }
    RunSorted(start, events);
    FlushPrintsAll(st);
    if InOrder(st) {
      TurnInOrderExactly(st, Timeout);
    } else {
      OutOfOrderExactly(st);
      TurnStaysOut(st, Timeout);
    }
  }

  ghost predicate OnlyEntry(qs: Queues, i: nat, e: Stamped) {
    i < |qs| && qs[i] == [e] && forall j :: 0 <= j < |qs| && j != i ==> qs[j] == []
  }

  lemma LoneEntry(st: State, i: nat, e: Stamped)
    requires OnlyEntry(st.queues, i, e)
    ensures LetOut(st, 0, false) == st
    ensures LetOut(st, 0, true) == State(st.queues[i := []], st.printed + [e], st.skipped)
  {
    assert ChooseFirst(st.queues) == Some(i);
    var next := Take(st, i, true);
    assert LetOut(next, 0, true) == next;
  }

  /** With empty queues, one entry delivered and flushed is printed, whatever was printed before. */
  lemma DeliverAndFlush(st: State, arrivals: Arrivals, i: nat, e: Stamped)
    requires Emptied(st.queues) && |arrivals| == |st.queues| && i < |arrivals| && arrivals[i] == Some(e)
    requires forall j :: 0 <= j < |arrivals| && j != i ==> arrivals[j].None?
    ensures Turn(Turn(st, Data(arrivals, false), 0), Timeout, 0) == st.(printed := st.printed + [e])
  {
    var s := st.(queues := Arrive(st.queues, arrivals));
    assert s.queues[i] == Insert([], e) == [e];
    LoneEntry(s, i, e);
    assert s.queues[i := []] == st.queues;
  }

  /** The order is not kept across a flush: an older entry that another device delivers after it is printed later. */
  lemma LateEntryAfterTimeout(late: Stamped, early: Stamped, st: State, one: Arrivals, two: Arrivals)
    requires Time(early) < Time(late)
    requires |one| == |two| == 2 && one[0] == Some(late) && one[1].None? && two[0].None? && two[1] == Some(early)
    requires st == State(Idle(2), [], [])
    ensures var a := Turn(Turn(st, Data(one, false), 0), Timeout, 0);
      var b := Turn(Turn(a, Data(two, false), 0), Timeout, 0);
      b.printed == [late, early] && !Sorted(b.printed)
  {
    DeliverAndFlush(st, one, 0, late);
    var a := st.(printed := st.printed + [late]);
    DeliverAndFlush(a, two, 1, early);
    var r := a.printed + [early];
    assert r == [late, early];
    assert Time(r[0]) > Time(r[1]);
  }

  /** One step, and the end, of the loops that let entries out. */
  lemma LetOutStep(st: State, tail: int, quiet: bool)
    ensures match Next(st, tail, quiet)
      case None => LetOut(st, tail, quiet) == st
      case Some(move) =>
        && LetOut(st, tail, quiet) == LetOut(Take(st, move.dev, move.printIt), tail, quiet)
        && Total(Take(st, move.dev, move.printIt).queues) == Total(st.queues) - 1
  {
    var move := Next(st, tail, quiet);
    if move.Some? {
      PopCounts(st.queues, move.value.dev, 0);
    }
  }

  // ---------- the program

  class LogDevice {
    var queue: Queue

    constructor ()
      ensures queue == []
    {
      queue := [];
    }

    method Enqueue(e: Stamped)
      modifies this
      ensures queue == Insert(old(queue), e)
    {
      if |queue| == 0 {
        queue := [e];
      } else {
        var i := 0;
        while i < |queue| && Cmp(e, queue[i]) >= 0
          invariant i <= |queue| && queue == old(queue)
          invariant forall k :: 0 <= k < i ==> Time(queue[k]) <= Time(e)
        {
          CmpIsTime(e, queue[i]);
          i := i + 1;
        }
        if i < |queue| {
          CmpIsTime(e, queue[i]);
        }
        InsertPlace(queue, e, i);
        queue := queue[..i] + [e] + queue[i..];
      }
    }

    /** skipNextEntry: takes the head out. */
    method SkipNextEntry() returns (e: Stamped)
      requires queue != []
      modifies this
      ensures e == old(queue)[0] && queue == old(queue)[1..]
    {
      e := queue[0];
      queue := queue[1..];
    }
  }

  ghost function QueuesOf(devices: seq<LogDevice>): (qs: Queues)
    reads devices
    ensures |qs| == |devices| && forall i :: 0 <= i < |qs| ==> qs[i] == devices[i].queue
  {
    seq(|devices|, i requires 0 <= i < |devices| reads devices => devices[i].queue)
  }

  class Reader {
    const devices: seq<LogDevice>
    const tail: int
    const nonblock: bool
    var queuedLines: int
    var printed: Queue
    ghost var skipped: Queue

    ghost function Now(): State
      reads this, devices
    {
      State(QueuesOf(devices), printed, skipped)
    }

    ghost predicate Valid()
      reads this, devices
    {
      && Distinct()
      && queuedLines == Total(QueuesOf(devices))
    }

    constructor (devices: seq<LogDevice>, tail: int, nonblock: bool)
      requires forall i, j :: 0 <= i < j < |devices| ==> devices[i] != devices[j]
      requires forall d :: d in devices ==> d.queue == []
      ensures Valid() && Now() == State(Idle(|devices|), [], [])
      ensures this.devices == devices && this.tail == tail && this.nonblock == nonblock
    {
      this.devices, this.tail, this.nonblock := devices, tail, nonblock;
      queuedLines, printed, skipped := 0, [], [];
      new;
      NothingQueued(QueuesOf(devices));
      assert QueuesOf(devices) == Idle(|devices|);
    }

    method ChooseFirstDevice() returns (dev: LogDevice?, ghost at: nat)
      ensures dev == null <==> ChooseFirst(QueuesOf(devices)).None?
      ensures dev != null ==> at < |devices| && dev == devices[at] && ChooseFirst(QueuesOf(devices)) == Some(at)
    {
      dev, at := null, 0;
      ghost var qs := QueuesOf(devices);
      var i := 0;
      while i < |devices|
        invariant i <= |devices|
        invariant dev == null <==> FirstOf(qs, i).None?
        invariant dev != null ==> at < i && dev == devices[at] && FirstOf(qs, i) == Some(at)
      {
        if devices[i].queue != [] {
          if dev == null {
            dev, at := devices[i], i;
          } else {
            CmpIsTime(devices[i].queue[0], dev.queue[0]);
            if Cmp(devices[i].queue[0], dev.queue[0]) < 0 {
              dev, at := devices[i], i;
            }
          }
        }
        i := i + 1;
      }
    }

    /** One entry leaves the queue of the device, and is printed or dropped. */
    method LetGo(dev: LogDevice, ghost at: nat, printIt: bool)
      requires Valid() && at < |devices| && devices[at] == dev && dev.queue != []
      modifies this, dev
      ensures Valid() && Now() == Take(old(Now()), at, printIt)
    {
      ghost var qs := QueuesOf(devices);
      PopCounts(qs, at, 0);
      var e := dev.SkipNextEntry();
      if printIt {
        printed := printed + [e];
      } else {
        skipped := skipped + [e];
      }
      queuedLines := queuedLines - 1;
      assert QueuesOf(devices) == Pop(qs, at);
    }

    /** The queues while the devices are read in turn: the first i are as in `to`, the others as in `from`. */
    ghost predicate ReadUpTo(from: Queues, to: Queues, i: nat)
      requires i <= |devices| == |from| == |to|
      reads devices
    {
      && (forall k :: 0 <= k < i ==> devices[k].queue == to[k])
      && (forall k :: i <= k < |devices| ==> devices[k].queue == from[k])
    }

    /** The read from one device, if it is ready. */
    method ReadDevice(i: nat, entry: Option<Stamped>, ghost from: Queues, ghost to: Queues)
      requires Distinct()
      requires i < |devices| == |from| == |to| && ReadUpTo(from, to, i)
      requires to[i] == if entry.Some? then Insert(from[i], entry.value) else from[i]
      modifies this`queuedLines, devices[i]
      ensures ReadUpTo(from, to, i + 1)
      ensures queuedLines == old(queuedLines) + (if entry.Some? then 1 else 0)
    {
      assert forall k :: 0 <= k < |devices| && k != i ==> devices[k] != devices[i];
      if entry.Some? {
        devices[i].Enqueue(entry.value);
        queuedLines := queuedLines + 1;
      }
    }

    ghost predicate Distinct() {
      forall i, j :: 0 <= i < j < |devices| ==> devices[i] != devices[j]
    }

    /** The loop over the devices. */
    method ReadAll(arrivals: Arrivals, ghost qs: Queues)
      requires Distinct() && |arrivals| == |devices| == |qs| && ReadUpTo(qs, Arrive(qs, arrivals), 0)
      modifies this`queuedLines, devices
      ensures ReadUpTo(qs, Arrive(qs, arrivals), |devices|) && queuedLines == old(queuedLines) + Ready(arrivals)
    {
      ghost var to := Arrive(qs, arrivals);
      var i := 0;
      while i < |devices|
        invariant i <= |devices| && ReadUpTo(qs, to, i)
        invariant queuedLines == old(queuedLines) + Ready(arrivals[..i])
      {
        ReadyOne(arrivals, i);
        ReadDevice(i, arrivals[i], qs, to);
        i := i + 1;
      }
      assert arrivals[..i] == arrivals;
    }

    /** Reads one entry from every device that is ready. */
    method ReadReady(arrivals: Arrivals)
      requires Valid() && |arrivals| == |devices|
      modifies this`queuedLines, devices
      ensures Valid() && Now() == old(Now()).(queues := Arrive(old(QueuesOf(devices)), arrivals))
    {
      ghost var qs := QueuesOf(devices);
      ReadAll(arrivals, qs);
      assert QueuesOf(devices) == Arrive(qs, arrivals);
      ArriveCounts(qs, arrivals, 0);
    }

    method DataRound()
      requires Valid()
      modifies this, devices
      ensures Valid() && Now() == LetOut(old(Now()), tail, false)
      ensures exists k :: LetGone(old(Now()), k, Now(), tail) && StopsRight(k, Now().queues, tail)
    {
      ghost var before := Now();
      ghost var st, goal := Now(), LetOut(Now(), tail, false);
      while tail == 0 || queuedLines > tail
        invariant Valid() && Now() == st && LetOut(st, tail, false) == goal
        decreases queuedLines
      {
        var dev, at := ChooseFirstDevice();
        LetOutStep(st, tail, false);
        if dev == null || |dev.queue| == 1 {
          break;
        }
        LetGo(dev, at, tail == 0);
        st := Take(st, at, tail == 0);
      }
      LetOutStep(st, tail, false);
      ghost var k := DataRoundExactly(before, tail);
    }

    method Flush()
      requires Valid()
      modifies this, devices
      ensures Valid() && Now() == LetOut(old(Now()), tail, true)
    {
      ghost var st, goal := Now(), LetOut(Now(), tail, true);
      while true
        invariant Valid() && Now() == st && LetOut(st, tail, true) == goal
        decreases queuedLines
      {
        var dev, at := ChooseFirstDevice();
        LetOutStep(st, tail, true);
        if dev == null {
          break;
        }
        var printIt := tail == 0 || queuedLines <= tail;
        LetGo(dev, at, printIt);
        st := Take(st, at, printIt);
      }
    }

    method TakeTurn(ev: Event)
      requires Valid() && Fits(ev, |devices|)
      modifies this, devices
      ensures Valid() && Now() == Turn(old(Now()), ev, tail)
    {
      match ev
      case Data(arrivals, interrupted) =>
        ReadReady(arrivals);
        if !interrupted {
          DataRound();
        }
      case Timeout =>
        Flush();
    }

    /** readLogLines, given what select and read make of each turn. */
    method ReadLogLines(events: seq<Event>)
      requires Valid() && AllFit(events, |devices|)
      modifies this, devices
      ensures Valid() && Now() == Session(old(Now()), events, tail, nonblock)
    {
      var n := 0;
      ghost var st, goal := Now(), Session(Now(), events, tail, nonblock);
      assert events[0..] == events;
      while n < |events|
        invariant n <= |events| && Valid()
        invariant Now() == st && |st.queues| == |devices| && AllFit(events[n..], |devices|)
        invariant Session(st, events[n..], tail, nonblock) == goal
      {
        SessionFrom(st, events, n, tail, nonblock);
        TakeTurn(events[n]);
        if events[n].Timeout? && nonblock {
          return;
        }
        st := Turn(st, events[n], tail);
        n := n + 1;
      }
    }
  }
}
