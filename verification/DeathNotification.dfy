/**
 * Death notification of a binder proxy (libbinder/binder/BpBinder.cpp): linkToDeath and unlinkToDeath run under the
 * proxy's lock, sendObituary tests one flag before it takes the lock and reports after it has released it. The first
 * part gives each critical section as a function; the second runs them in every interleaving; the third is the class.
 */
module DeathNotification {
  import opened Wrappers

  /** A registration. `id` names the linkToDeath call that made it; no code looks at it. */
  datatype Obituary = Obituary(id: nat, recipient: nat, cookie: int, flags: int)

  datatype Status = NoError | DeadObject | NoMemory | NameNotFound

  /** The proxy's fields, and how many notification requests and clears went to the driver. */
  datatype Proxy = Proxy(
    alive: bool, obitsSent: bool, obituaries: Option<seq<Obituary>>, requests: nat, clears: nat)

  // ---------- critical sections

  /** linkToDeath; allocating the vector and growing it may each fail. */
  function Link(b: Proxy, ob: Obituary, newOk: bool, addOk: bool): (Proxy, Status) {
    if b.obitsSent then (b, DeadObject)
    else if b.obituaries.None? && !newOk then (b, NoMemory)
    else
      var b' := if b.obituaries.None? then b.(obituaries := Some([]), requests := b.requests + 1) else b;
      if addOk then (b'.(obituaries := Some(b'.obituaries.value + [ob])), NoError) else (b', NoMemory)
  }

  predicate Selected(ob: Obituary, recipient: Option<nat>, cookie: int, flags: int) {
    (recipient == Some(ob.recipient) || (recipient == None && ob.cookie == cookie)) && ob.flags == flags
  }

  function Vector(b: Proxy): seq<Obituary> {
    if b.obituaries.Some? then b.obituaries.value else []
  }

  function FirstSelected(v: seq<Obituary>, recipient: Option<nat>, cookie: int, flags: int): (i: nat)
    ensures i <= |v|
    ensures i < |v| ==> Selected(v[i], recipient, cookie, flags)
    ensures forall k :: 0 <= k < i ==> !Selected(v[k], recipient, cookie, flags)
  {
    if v == [] || Selected(v[0], recipient, cookie, flags) then 0
    else 1 + FirstSelected(v[1..], recipient, cookie, flags)
  }

  lemma FirstSelectedIs(v: seq<Obituary>, recipient: Option<nat>, cookie: int, flags: int, i: nat)
    requires i <= |v| && forall k :: 0 <= k < i ==> !Selected(v[k], recipient, cookie, flags)
    requires i < |v| ==> Selected(v[i], recipient, cookie, flags)
    ensures FirstSelected(v, recipient, cookie, flags) == i
  {}

  function Without<T>(v: seq<T>, i: nat): seq<T>
    requires i < |v|
  {
    v[..i] + v[i + 1..]
  }

  function Unlink(b: Proxy, recipient: Option<nat>, cookie: int, flags: int): (Proxy, Status, Option<Obituary>) {
    if b.obitsSent then (b, DeadObject, None)
    else
      var v := Vector(b);
      var i := FirstSelected(v, recipient, cookie, flags);
      if i == |v| then (b, NameNotFound, None)
      else if |v| == 1 then (b.(obituaries := None, clears := b.clears + 1), NoError, Some(v[i]))
      else (b.(obituaries := Some(Without(v, i))), NoError, Some(v[i]))
  }

  /** The locked part of sendObituary: it takes the vector away and closes the proxy for further links. */
  function TakeObits(b: Proxy): (Proxy, Option<seq<Obituary>>) {
    (b.(obituaries := None, obitsSent := true, clears := if b.obituaries.Some? then b.clears + 1 else b.clears),
     b.obituaries)
  }

  /** transact; `dead` tells whether the driver answered that the object is dead. */
  function Transacted(b: Proxy, dead: bool): (Proxy, Status) {
    if !b.alive then (b, DeadObject) else if dead then (b.(alive := false), DeadObject) else (b, NoError)
  }

  // ---------- what each call comes to

  /** A link succeeds exactly while the obituaries have not been sent and there is memory for it; then it is registered
      behind all others. One that fails registers nothing. Only the one that creates the vector asks the driver. */
  lemma LinkExactly(b: Proxy, ob: Obituary, newOk: bool, addOk: bool)
    ensures var (r, status) := Link(b, ob, newOk, addOk);
      && (status == NoError <==> !b.obitsSent && addOk && (b.obituaries.Some? || newOk))
      && (status == DeadObject <==> b.obitsSent)
      && (status == NoMemory <==> !b.obitsSent && (!addOk || (b.obituaries.None? && !newOk)))
      && Vector(r) == Vector(b) + (if status == NoError then [ob] else [])
      && r.alive == b.alive && r.obitsSent == b.obitsSent && r.clears == b.clears
      && (r.requests == b.requests + 1 <==> !b.obitsSent && b.obituaries.None? && newOk)
      && (r.requests == b.requests || r.requests == b.requests + 1)
      && (r.obituaries.Some? <==> b.obituaries.Some? || (!b.obitsSent && newOk))
  {
    assert Vector(b) + [] == Vector(b);
  }

  /** A registration that a caller asks to take back: with the recipient given or, without one, with the cookie, and in
      both cases with the flags. */
  lemma SelectedExactly(ob: Obituary, recipient: Option<nat>, cookie: int, flags: int)
    ensures recipient.Some? ==>
      (Selected(ob, recipient, cookie, flags) <==> ob.recipient == recipient.value && ob.flags == flags)
    ensures recipient.None? ==>
      (Selected(ob, recipient, cookie, flags) <==> ob.cookie == cookie && ob.flags == flags)
  {
  }

  /** Position i is the first at which this recipient, or without one this cookie, stands with these flags. */
  ghost predicate FirstWith(v: seq<Obituary>, i: nat, recipient: Option<nat>, cookie: int, flags: int) {
    i < |v| &&
    if recipient.Some? then
      && v[i].recipient == recipient.value && v[i].flags == flags
      && forall k :: 0 <= k < i ==> v[k].recipient != recipient.value || v[k].flags != flags
    else
      && v[i].cookie == cookie && v[i].flags == flags
      && forall k :: 0 <= k < i ==> v[k].cookie != cookie || v[k].flags != flags
  }

  lemma FirstWithIs(v: seq<Obituary>, recipient: Option<nat>, cookie: int, flags: int, i: nat)
    ensures FirstWith(v, i, recipient, cookie, flags) <==> i < |v| && FirstSelected(v, recipient, cookie, flags) == i
  {
    forall k | 0 <= k < |v|
      ensures recipient.Some? ==> (Selected(v[k], recipient, cookie, flags) <==>
        v[k].recipient == recipient.value && v[k].flags == flags)
      ensures recipient.None? ==> (Selected(v[k], recipient, cookie, flags) <==>
        v[k].cookie == cookie && v[k].flags == flags)
    {
      SelectedExactly(v[k], recipient, cookie, flags);
    }
    if FirstWith(v, i, recipient, cookie, flags) {
      FirstSelectedIs(v, recipient, cookie, flags, i);
    }
  }

  /** An unlink succeeds exactly while the obituaries have not been sent and a registration meets it. It takes out the
      first that does, leaves the others in order, and clears the request with the last. */
  lemma UnlinkExactly(b: Proxy, recipient: Option<nat>, cookie: int, flags: int)
    ensures var (r, status, out) := Unlink(b, recipient, cookie, flags);
      var v := Vector(b);
      && (status == DeadObject <==> b.obitsSent)
      && (status == NoError <==> !b.obitsSent && exists i :: FirstWith(v, i, recipient, cookie, flags))
      && (status == NoError || status == DeadObject || status == NameNotFound)
      && (status != NoError ==> r == b && out == None)
      && (status == NoError ==>
            exists i: nat ::
              FirstWith(v, i, recipient, cookie, flags) && out == Some(v[i]) && Vector(r) == v[..i] + v[i + 1..])
      && r.alive == b.alive && r.obitsSent == b.obitsSent && r.requests == b.requests
      && r.clears == (if status == NoError && |v| == 1 then b.clears + 1 else b.clears)
      && (status == NoError ==> (r.obituaries.None? <==> |v| == 1))
  {
    var v := Vector(b);
    var i := FirstSelected(v, recipient, cookie, flags);
    forall k: nat
      ensures FirstWith(v, k, recipient, cookie, flags) <==> k < |v| && i == k
    {
      FirstWithIs(v, recipient, cookie, flags, k);
    }
    if !b.obitsSent && i < |v| {
      assert FirstWith(v, i, recipient, cookie, flags);
    }
  }

  /** A living proxy hands every transaction to the driver, stays alive unless the answer is that the object is dead,
      and returns that answer. */
  lemma TransactedExactly(b: Proxy, dead: bool)
    ensures var (r, status) := Transacted(b, dead);
      && r.alive == (b.alive && !dead) && (status == NoError <==> b.alive && !dead)
      && (status == NoError || status == DeadObject) && r == b.(alive := r.alive)
  {
  }

  // ---------- every interleaving

  /** Where a thread stands in sendObituary. */
  datatype Sender =
    | Entered
    | MarkedDead
    | PassedCheck
    | Reporting(left: seq<Obituary>)
    | Finished

  /** `linked` are the successful links in order, `unlinked` the ids of those taken back. */
  datatype State = State(
    b: Proxy, senders: map<nat, Sender>, taker: Option<nat>,
    linked: seq<Obituary>, unlinked: set<nat>, reported: seq<Obituary>)

  datatype Event =
    | DoLink(ob: Obituary, newOk: bool, addOk: bool)
    | DoUnlink(recipient: Option<nat>, cookie: int, flags: int)
    | DoTransact(dead: bool)
    | StartSend(t: nat)
    | SendStep(t: nat)

  ghost predicate Enabled(s: State, ev: Event) {
    match ev
    case DoLink(ob, _, _) => forall o :: o in s.linked ==> o.id != ob.id
    case DoUnlink(_, _, _) => true
    case DoTransact(_) => true
    case StartSend(t) => t !in s.senders
    case SendStep(t) => t in s.senders && !s.senders[t].Finished?
  }

  ghost function Step(s: State, ev: Event): State
    requires Enabled(s, ev)
  {
    match ev
    case DoLink(ob, newOk, addOk) =>
      var (b, status) := Link(s.b, ob, newOk, addOk);
      s.(b := b, linked := if status == NoError then s.linked + [ob] else s.linked)
    case DoUnlink(recipient, cookie, flags) =>
      var (b, status, out) := Unlink(s.b, recipient, cookie, flags);
      s.(b := b, unlinked := if out.Some? then s.unlinked + {out.value.id} else s.unlinked)
    case DoTransact(dead) => s.(b := Transacted(s.b, dead).0)
    case StartSend(t) => s.(senders := s.senders[t := Entered])
    case SendStep(t) => SenderStep(s, t)
  }

  ghost function SenderStep(s: State, t: nat): State
    requires t in s.senders && !s.senders[t].Finished?
  {
    match s.senders[t]
    case Entered => s.(b := s.b.(alive := false), senders := s.senders[t := MarkedDead])
    case MarkedDead => s.(senders := s.senders[t := if s.b.obitsSent then Finished else PassedCheck])
    case PassedCheck =>
      var (b, obits) := TakeObits(s.b);
      s.(b := b, senders := s.senders[t := Reporting(if obits.Some? then obits.value else [])],
         taker := if obits.Some? then Some(t) else s.taker)
    case Reporting(left) =>
      if left == [] then s.(senders := s.senders[t := Finished])
      else s.(senders := s.senders[t := Reporting(left[1..])], reported := s.reported + [left[0]])
  }

  /** The links in order, without those taken back. */
  function Survivors(linked: seq<Obituary>, gone: set<nat>): seq<Obituary> {
    if linked == [] then []
    else if linked[0].id in gone then Survivors(linked[1..], gone)
    else [linked[0]] + Survivors(linked[1..], gone)
  }

  /** What the one thread that took the vector has still to report. */
  ghost function Pending(s: State): seq<Obituary> {
    if s.taker.Some? && s.taker.value in s.senders && s.senders[s.taker.value].Reporting?
    then s.senders[s.taker.value].left else []
  }

  ghost predicate DistinctIds(v: seq<Obituary>) {
    forall i, j :: 0 <= i < j < |v| ==> v[i].id != v[j].id
  }

  ghost predicate Invariant(s: State) {
    && DistinctIds(s.linked)
    && (forall id :: id in s.unlinked ==> exists o :: o in s.linked && o.id == id)
    && (forall t :: t in s.senders && s.senders[t].Reporting? && s.senders[t].left != [] ==> s.taker == Some(t))
    && (!s.b.obitsSent ==>
          && s.taker == None && s.reported == []
          && Vector(s.b) == Survivors(s.linked, s.unlinked))
    && (s.b.obitsSent ==>
          && s.b.obituaries == None
          && s.reported + Pending(s) == Survivors(s.linked, s.unlinked))
    && (forall t :: t in s.senders && s.senders[t].Reporting? ==> s.b.obitsSent)
    && s.b.requests - s.b.clears == (if s.b.obituaries.Some? then 1 else 0)
  }

  lemma {:induction false} SurvivorsAppend(linked: seq<Obituary>, gone: set<nat>, ob: Obituary)
    requires ob.id !in gone
    ensures Survivors(linked + [ob], gone) == Survivors(linked, gone) + [ob]
  {
    if linked == [] {
      assert [ob][1..] == [];
    } else {
      assert (linked + [ob])[1..] == linked[1..] + [ob];
      SurvivorsAppend(linked[1..], gone, ob);
    }
  }

  lemma {:induction false} SurvivorsIn(linked: seq<Obituary>, gone: set<nat>)
    ensures forall o :: o in Survivors(linked, gone) <==> o in linked && o.id !in gone
  {
    if linked != [] {
      SurvivorsIn(linked[1..], gone);
    }
  }

  lemma {:induction false} SurvivorsUnaffected(linked: seq<Obituary>, gone: set<nat>, id: nat)
    requires forall o :: o in linked ==> o.id != id
    ensures Survivors(linked, gone + {id}) == Survivors(linked, gone)
  {
    if linked != [] {
      SurvivorsUnaffected(linked[1..], gone, id);
    }
  }

  /** A later survivor has another id than the first link. */
  lemma SurvivorBehind(linked: seq<Obituary>, gone: set<nat>, i: nat)
    requires DistinctIds(linked) && linked != [] && linked[0].id !in gone && 0 < i < |Survivors(linked, gone)|
    ensures Survivors(linked, gone)[i] == Survivors(linked[1..], gone)[i - 1]
    ensures Survivors(linked, gone)[i].id != linked[0].id
  {
    var rest := linked[1..];
    SurvivorsIn(rest, gone);
    assert Survivors(rest, gone)[i - 1] in rest;
  }

  lemma {:induction false} SurvivorsRemove(linked: seq<Obituary>, gone: set<nat>, i: nat)
    requires DistinctIds(linked) && i < |Survivors(linked, gone)|
    ensures Survivors(linked, gone + {Survivors(linked, gone)[i].id}) == Without(Survivors(linked, gone), i)
  {
    var o, rest := linked[0], linked[1..];
    var r := Survivors(rest, gone);
    if o.id in gone {
      SurvivorsRemove(rest, gone, i);
    } else if i == 0 {
      SurvivorsUnaffected(rest, gone, o.id);
      assert Without([o] + r, 0) == r;
    } else {
      SurvivorBehind(linked, gone, i);
      SurvivorsRemove(rest, gone, i - 1);
      assert Without([o] + r, i) == [o] + Without(r, i - 1);
    }
  }

  lemma {:induction false} SurvivorsDistinct(linked: seq<Obituary>, gone: set<nat>)
    requires DistinctIds(linked)
    ensures DistinctIds(Survivors(linked, gone))
  {
    if linked != [] {
      SurvivorsDistinct(linked[1..], gone);
      SurvivorsIn(linked[1..], gone);
    }
  }

  lemma LinkKeepsInvariant(s: State, ev: Event)
    requires Invariant(s) && Enabled(s, ev) && ev.DoLink?
    ensures Invariant(Step(s, ev))
  {
    if !s.b.obitsSent {
      SurvivorsAppend(s.linked, s.unlinked, ev.ob);
    }
  }

  lemma UnlinkKeepsInvariant(s: State, ev: Event)
    requires Invariant(s) && Enabled(s, ev) && ev.DoUnlink?
    ensures Invariant(Step(s, ev))
  {
    var v := Vector(s.b);
    var i := FirstSelected(v, ev.recipient, ev.cookie, ev.flags);
    if !s.b.obitsSent && i < |v| {
      SurvivorsRemove(s.linked, s.unlinked, i);
      SurvivorsIn(s.linked, s.unlinked);
      assert v[i] in s.linked;
    }
  }

  lemma SendKeepsInvariant(s: State, ev: Event)
    requires Invariant(s) && Enabled(s, ev) && ev.SendStep?
    ensures Invariant(Step(s, ev))
  {
    var t := ev.t;
    match s.senders[t]
    case Entered =>
    case MarkedDead =>
    case PassedCheck =>
    case Reporting(left) =>
      if left != [] {
        assert s.reported + left == (s.reported + [left[0]]) + left[1..];
      }
    case Finished =>
  }

  /** Every step of every thread keeps the invariant. */
  lemma StepKeepsInvariant(s: State, ev: Event)
    requires Invariant(s) && Enabled(s, ev)
    ensures Invariant(Step(s, ev))
  {
    match ev
    case DoLink(_, _, _) => LinkKeepsInvariant(s, ev);
    case DoUnlink(_, _, _) => UnlinkKeepsInvariant(s, ev);
    case DoTransact(_) =>
    case StartSend(_) =>
    case SendStep(_) => SendKeepsInvariant(s, ev);
  }

  const InitialProxy := Proxy(true, false, None, 0, 0)
  const Initial := State(InitialProxy, map[], None, [], {}, [])

  ghost predicate Schedulable(s: State, run: seq<Event>)
    decreases |run|
  {
    run == [] || (Enabled(s, run[0]) && Schedulable(Step(s, run[0]), run[1..]))
  }

  ghost function After(s: State, run: seq<Event>): State
    requires Schedulable(s, run)
    decreases |run|
  {
    if run == [] then s else After(Step(s, run[0]), run[1..])
  }

  lemma {:induction false} RunKeepsInvariant(s: State, run: seq<Event>)
    requires Invariant(s) && Schedulable(s, run)
    ensures Invariant(After(s, run))
    decreases |run|
  {
    if run != [] {
      StepKeepsInvariant(s, run[0]);
      RunKeepsInvariant(Step(s, run[0]), run[1..]);
    }
  }

  /** A sender has got as far as taking the registrations, or has found them taken. */
  ghost predicate Past(sender: Sender) {
    sender.Reporting? || sender.Finished?
  }

  /** The flag is set exactly when a sender has got past it. */
  ghost predicate FlagTells(s: State) {
    s.b.obitsSent <==> exists t :: t in s.senders && Past(s.senders[t])
  }

  lemma LinksLeaveFlag(s: State, ev: Event)
    requires Enabled(s, ev) && !ev.StartSend? && !ev.SendStep?
    ensures Step(s, ev).b.obitsSent == s.b.obitsSent && Step(s, ev).senders == s.senders
  {
  }

  lemma StepKeepsFlag(s: State, ev: Event)
    requires Enabled(s, ev) && FlagTells(s)
    ensures FlagTells(Step(s, ev))
  {
    var r := Step(s, ev);
    if !ev.StartSend? && !ev.SendStep? {
      LinksLeaveFlag(s, ev);
    } else {
      if s.b.obitsSent {
        var w :| w in s.senders && Past(s.senders[w]);
        assert w in r.senders && Past(r.senders[w]);
      }
      assert ev.t in r.senders;
    }
  }

  lemma {:induction false} RunKeepsFlag(s: State, run: seq<Event>)
    requires Schedulable(s, run) && FlagTells(s)
    ensures FlagTells(After(s, run))
    decreases |run|
  {
    if run != [] {
      StepKeepsFlag(s, run[0]);
      RunKeepsFlag(Step(s, run[0]), run[1..]);
    }
  }

  /** A send has come to its end, and none is still reporting. */
  ghost predicate SendsFinished(s: State) {
    && (exists t :: t in s.senders && s.senders[t].Finished?)
    && forall t :: t in s.senders ==> !s.senders[t].Reporting?
  }

  /**
   * Whatever the interleaving, once a send has come to its end and no other is still reporting, the reports made are
   * exactly the links that were not taken back, in the order they were linked, each once.
   */
  lemma EachLinkReportedOnce(run: seq<Event>)
    requires Schedulable(Initial, run)
    requires SendsFinished(After(Initial, run))
    ensures var s := After(Initial, run);
      && s.reported == Survivors(s.linked, s.unlinked)
      && DistinctIds(s.reported)
      && (forall o :: o in s.linked ==> (o.id in s.unlinked <==> o !in s.reported))
  {
    RunKeepsInvariant(Initial, run);
    RunKeepsFlag(Initial, run);
    var s := After(Initial, run);
    assert s.b.obitsSent;
    assert s.reported + Pending(s) == s.reported;
    SurvivorsIn(s.linked, s.unlinked);
    SurvivorsDistinct(s.linked, s.unlinked);
  }

  /** At any moment no registration has been reported twice, nor reported and taken back. */
  lemma NeverReportedTwice(run: seq<Event>)
    requires Schedulable(Initial, run)
    ensures var s := After(Initial, run);
      DistinctIds(s.reported) && forall o :: o in s.reported ==> o in s.linked && o.id !in s.unlinked
  {
    RunKeepsInvariant(Initial, run);
    var s := After(Initial, run);
    SurvivorsIn(s.linked, s.unlinked);
    SurvivorsDistinct(s.linked, s.unlinked);
    if s.b.obitsSent {
      var all := s.reported + Pending(s);
      assert forall i :: 0 <= i < |s.reported| ==> all[i] == s.reported[i];
      assert forall o :: o in s.reported ==> o in all;
    }
  }

  /** The links of a run that find the obituaries unsent and memory for themselves. */
  ghost function Linkable(s: State, run: seq<Event>): seq<Obituary>
    requires Schedulable(s, run)
    decreases |run|
  {
    if run == [] then []
    else
      var ev := run[0];
      var own := if ev.DoLink? && !s.b.obitsSent && ev.addOk && (ev.newOk || s.b.obituaries.Some?) then [ev.ob] else [];
      own + Linkable(Step(s, ev), run[1..])
  }

  lemma StepLinks(s: State, ev: Event)
    requires Enabled(s, ev)
    ensures var own := if ev.DoLink? && !s.b.obitsSent && ev.addOk && (ev.newOk || s.b.obituaries.Some?) then [ev.ob]
                       else [];
      Step(s, ev).linked == s.linked + own
  {
    if ev.DoLink? {
      LinkExactly(s.b, ev.ob, ev.newOk, ev.addOk);
    }
  }

  /** Exactly these have been linked at the end of any run, in their order. */
  lemma {:induction false} LinkedExactly(s: State, run: seq<Event>)
    requires Schedulable(s, run)
    ensures After(s, run).linked == s.linked + Linkable(s, run)
    decreases |run|
  {
    if run != [] {
      StepLinks(s, run[0]);
      LinkedExactly(Step(s, run[0]), run[1..]);
    }
  }

  /** The steps of one sender that no other thread interrupts. */
  function SendSteps(t: nat, n: nat): seq<Event> {
    if n == 0 then [] else [SendStep(t)] + SendSteps(t, n - 1)
  }

  lemma OneSendStep(s: State, t: nat, n: nat)
    requires n > 0 && Enabled(s, SendStep(t)) && Schedulable(Step(s, SendStep(t)), SendSteps(t, n - 1))
    ensures Schedulable(s, SendSteps(t, n))
    ensures After(s, SendSteps(t, n)) == After(Step(s, SendStep(t)), SendSteps(t, n - 1))
  {
    assert SendSteps(t, n)[1..] == SendSteps(t, n - 1);
  }

  /** A sender that is reporting comes to its end in one step for each registration left and one more. */
  lemma {:induction false} ReportsAll(s: State, t: nat)
    requires t in s.senders && s.senders[t].Reporting?
    ensures var left := s.senders[t].left;
      && Schedulable(s, SendSteps(t, |left| + 1))
      && After(s, SendSteps(t, |left| + 1))
           == s.(senders := s.senders[t := Finished], reported := s.reported + left)
    decreases |s.senders[t].left|
  {
    var left := s.senders[t].left;
    var next := Step(s, SendStep(t));
    if left == [] {
      assert SendSteps(t, 0) == [] && Schedulable(next, []) && After(next, []) == next;
      assert s.reported + [] == s.reported;
    } else {
      ReportsAll(next, t);
      assert s.reported + left == (s.reported + [left[0]]) + left[1..];
      var r := next.(senders := next.senders[t := Finished], reported := next.reported + left[1..]);
      assert r == s.(senders := s.senders[t := Finished], reported := s.reported + left);
    }
    OneSendStep(s, t, |left| + 1);
  }

  /** An obituary sent without interruption marks the proxy dead and reports every registration in order, unless they
      have been taken already; then it reports nothing. */
  lemma SendCompletes(s: State, t: nat)
    requires t in s.senders && s.senders[t].Entered?
    ensures var n := if s.b.obitsSent then 2 else |Vector(s.b)| + 4;
      && Schedulable(s, SendSteps(t, n))
      && var r := After(s, SendSteps(t, n));
        && t in r.senders && r.senders[t].Finished? && r.b.obitsSent && !r.b.alive
        && r.reported == s.reported + (if s.b.obitsSent then [] else Vector(s.b))
        && (!s.b.obitsSent ==> r.b.obituaries == None)
  {
    var s1 := Step(s, SendStep(t));
    var s2 := Step(s1, SendStep(t));
    if s.b.obitsSent {
      assert SendSteps(t, 0) == [] && Schedulable(s2, []) && After(s2, []) == s2;
      assert s.reported + [] == s.reported;
      OneSendStep(s1, t, 1);
      OneSendStep(s, t, 2);
    } else {
      var s3 := Step(s2, SendStep(t));
      var n := |Vector(s.b)|;
      ReportsAll(s3, t);
      OneSendStep(s2, t, n + 2);
      OneSendStep(s1, t, n + 3);
      OneSendStep(s, t, n + 4);
    }
  }

  /** Once the obituaries are sent, links fail, and what is linked and what is taken back stay as they are. */
  lemma {:induction false} ClosedAfterSending(s: State, run: seq<Event>)
    requires s.b.obitsSent && Schedulable(s, run)
    ensures var s' := After(s, run);
      s'.b.obitsSent && s'.linked == s.linked && s'.unlinked == s.unlinked
    decreases |run|
  {
    if run != [] {
      ClosedAfterSending(Step(s, run[0]), run[1..]);
    }
  }

  /** A dead proxy never comes back: no later transaction reaches the driver. */
  lemma {:induction false} DeadForGood(s: State, run: seq<Event>)
    requires !s.b.alive && Schedulable(s, run)
    ensures !After(s, run).b.alive
    ensures forall dead :: Transacted(After(s, run).b, dead).1 == DeadObject
    decreases |run|
  {
    if run != [] {
      DeadForGood(Step(s, run[0]), run[1..]);
    }
  }

  // ---------- the driver's view

  /** Whether growing a just created vector failed: the vector is there but empty. */
  ghost predicate AddFailedFirst(s: State, ev: Event) {
    ev.DoLink? && ev.newOk && !ev.addOk && !s.b.obitsSent && s.b.obituaries.None?
  }

  ghost predicate NoFailedFirstAdd(s: State, run: seq<Event>)
    requires Schedulable(s, run)
    decreases |run|
  {
    run == [] || (!AddFailedFirst(s, run[0]) && NoFailedFirstAdd(Step(s, run[0]), run[1..]))
  }

  /** One request is outstanding at the driver when a registration is waiting, and none otherwise. */
  ghost predicate RequestMatches(b: Proxy) {
    b.requests - b.clears == (if Vector(b) != [] then 1 else 0)
  }

  /** It is so now and after every further step of the run. */
  ghost predicate MatchesThroughout(s: State, run: seq<Event>)
    requires Schedulable(s, run)
    decreases |run|
  {
    RequestMatches(s.b) && (run == [] || MatchesThroughout(Step(s, run[0]), run[1..]))
  }

  /** In every state that can be reached, a failed first add leaves a request outstanding with nothing registered. */
  lemma FailedAddLeavesRequest(s: State, ev: Event)
    requires Invariant(s) && Enabled(s, ev) && AddFailedFirst(s, ev)
    ensures Link(s.b, ev.ob, ev.newOk, ev.addOk).1 == NoMemory
    ensures var b := Step(s, ev).b;
      Vector(b) == [] && b.requests - b.clears == 1
  {
  }

  lemma RequestsCounted(s: State)
    requires Invariant(s)
    ensures s.b.requests - s.b.clears == (if s.b.obituaries.Some? then 1 else 0)
  {
  }

  /** A vector becomes empty only by a failed first add. */
  lemma StepLeavesVector(s: State, ev: Event)
    requires Enabled(s, ev) && s.b.obituaries != Some([])
    ensures Step(s, ev).b.obituaries == Some([]) <==> AddFailedFirst(s, ev)
  {
  }

  /** Any other step keeps request and registrations together. */
  lemma StepMatchesExactly(s: State, ev: Event)
    requires Invariant(s) && Enabled(s, ev) && RequestMatches(s.b)
    ensures RequestMatches(Step(s, ev).b) <==> !AddFailedFirst(s, ev)
  {
    RequestsCounted(s);
    StepLeavesVector(s, ev);
    StepKeepsInvariant(s, ev);
    RequestsCounted(Step(s, ev));
  }

  lemma {:induction false} MatchesExactly(s: State, run: seq<Event>)
    requires Schedulable(s, run) && Invariant(s) && RequestMatches(s.b)
    ensures MatchesThroughout(s, run) <==> NoFailedFirstAdd(s, run)
    decreases |run|
  {
    if run != [] {
      StepKeepsInvariant(s, run[0]);
      StepMatchesExactly(s, run[0]);
      if !AddFailedFirst(s, run[0]) {
        MatchesExactly(Step(s, run[0]), run[1..]);
      }
    }
  }

  lemma InitialMatches()
    ensures Invariant(Initial) && RequestMatches(Initial.b)
  {
  }

  /**
   * From the initial state, and every other that the invariant describes: at every lock release one notification
   * request is outstanding exactly when the vector exists, and that it is always exactly when a registration is waiting
   * holds of those runs in which growing a new vector never failed, and of no others.
   */
  lemma OneRequestOutstanding(start: State, run: seq<Event>)
    requires Invariant(start) && RequestMatches(start.b) && Schedulable(start, run)
    ensures var b := After(start, run).b;
      b.requests - b.clears == (if b.obituaries.Some? then 1 else 0)
    ensures MatchesThroughout(start, run) <==> NoFailedFirstAdd(start, run)
  {
    RunKeepsInvariant(start, run);
    RequestsCounted(After(start, run));
    MatchesExactly(start, run);
  }

  // ---------- the class

  class BpBinder {
    var mAlive: bool
    var mObitsSent: bool
    var mObituaries: Option<seq<Obituary>>
    /** Notification requests sent to and cleared at the driver. */
    var requests: nat
    var clears: nat
    /** The recipients told so far, in order. */
    var told: seq<Obituary>

    constructor ()
      ensures View() == InitialProxy && told == []
    {
      mAlive, mObitsSent, mObituaries := true, false, None;
      requests, clears, told := 0, 0, [];
    }

    function View(): Proxy
      reads this
    {
      Proxy(mAlive, mObitsSent, mObituaries, requests, clears)
    }

    method Transact(dead: bool) returns (status: Status)
      modifies this`mAlive
      ensures (View(), status) == Transacted(old(View()), dead)
      ensures mAlive == (old(mAlive) && !dead) && status == if mAlive then NoError else DeadObject
    {
      if mAlive {
        status := if dead then DeadObject else NoError;
        if status == DeadObject {
          mAlive := false;
        }
        return;
      }
      return DeadObject;
    }

    method LinkToDeath(ob: Obituary, newOk: bool, addOk: bool) returns (status: Status)
      modifies this`mObituaries, this`requests
      ensures (View(), status) == Link(old(View()), ob, newOk, addOk)
      ensures status == NoError <==> !mObitsSent && addOk && (old(mObituaries).Some? || newOk)
      ensures status == DeadObject <==> mObitsSent
      ensures Vector(View()) == Vector(old(View())) + if status == NoError then [ob] else []
    {
      LinkExactly(View(), ob, newOk, addOk);
      if !mObitsSent {
        if mObituaries == None {
          if !newOk {
            return NoMemory;
          }
          mObituaries := Some([]);
          requests := requests + 1;
        }
        if addOk {
          mObituaries := Some(mObituaries.value + [ob]);
          return NoError;
        }
        return NoMemory;
      }
      return DeadObject;
    }

    /** Takes one registration out, and gives the vector up with its last one. */
    method RemoveObituary(i: nat)
      requires mObituaries.Some? && i < |mObituaries.value|
      modifies this`mObituaries, this`clears
      ensures |old(mObituaries).value| == 1 ==> mObituaries == None && clears == old(clears) + 1
      ensures |old(mObituaries).value| != 1 ==>
        mObituaries == Some(Without(old(mObituaries).value, i)) && clears == old(clears)
    {
      mObituaries := Some(mObituaries.value[..i] + mObituaries.value[i + 1..]);
      if |mObituaries.value| == 0 {
        clears := clears + 1;
        mObituaries := None;
      }
    }

    method UnlinkToDeath(recipient: Option<nat>, cookie: int, flags: int)
        returns (status: Status, out: Option<Obituary>)
      modifies this`mObituaries, this`clears
      ensures (View(), status, out) == Unlink(old(View()), recipient, cookie, flags)
      ensures status == DeadObject <==> mObitsSent
      ensures status == NoError <==>
        !mObitsSent && exists i :: FirstWith(Vector(old(View())), i, recipient, cookie, flags)
    {
      UnlinkExactly(View(), recipient, cookie, flags);
      if mObitsSent {
        return DeadObject, None;
      }
      var n := if mObituaries.Some? then |mObituaries.value| else 0;
      ghost var v := Vector(View());
      var i := 0;
      while i < n
        invariant 0 <= i <= n == |v|
        invariant forall k :: 0 <= k < i ==> !Selected(v[k], recipient, cookie, flags)
      {
        var obit := mObituaries.value[i];
        if (recipient == Some(obit.recipient) || (recipient == None && obit.cookie == cookie)) && obit.flags == flags {
          FirstSelectedIs(v, recipient, cookie, flags, i);
          RemoveObituary(i);
          return NoError, Some(obit);
        }
        i := i + 1;
      }
      FirstSelectedIs(v, recipient, cookie, flags, n);
      return NameNotFound, None;
    }

    /** The part of sendObituary between lock and unlock. */
    method TakeObituaries() returns (obits: Option<seq<Obituary>>)
      modifies this`mObituaries, this`mObitsSent, this`clears
      ensures (View(), obits) == TakeObits(old(View()))
    {
      obits := mObituaries;
      if obits.Some? {
        clears := clears + 1;
        mObituaries := None;
      }
      mObitsSent := true;
    }

    /** sendObituary with no other thread in between. */
    method SendObituary()
      modifies this
      ensures !mAlive && mObitsSent
      ensures old(mObitsSent) ==> told == old(told) && View() == old(View()).(alive := false)
      ensures !old(mObitsSent) ==>
        told == old(told) + Vector(old(View())) && View() == TakeObits(old(View())).0.(alive := false)
    {
      mAlive := false;
      if mObitsSent {
        return;
      }
      var obits := TakeObituaries();
      if obits.Some? {
        var i := 0;
        while i < |obits.value|
          modifies this`told
          invariant 0 <= i <= |obits.value|
          invariant told == old(told) + obits.value[..i]
        {
          told := told + [obits.value[i]];
          i := i + 1;
        }
        assert obits.value[..i] == obits.value;
      }
    }
  }
}
