/** The publish/subscribe sender of the IPC server: messages queued by any thread, one sender thread that takes the
    front message, writes it to every registered client that asked for its event, and pops it. */
module MessageSender {

  import opened Wrappers
  import opened NodeList
  import Registration

  datatype Kind = Business | Heartbeat

  datatype Message = Message(kind: Kind, event: nat, id: nat)

  /** A registration: the client's descriptor, and the bitmap of the events it asked for. */
  type Client = Item<int>

  datatype Delivery = Delivery(fd: int, msg: Message)

  /** bitmap & (1 << event). */
  predicate HasBit(bitmap: int, event: nat)
    decreases event
  {
    if event == 0 then bitmap % 2 == 1 else HasBit(bitmap / 2, event - 1)
  }

  predicate Wants(c: Client, msg: Message) {
    msg.kind == Heartbeat || HasBit(c.typeData, msg.event)
  }

  // ---------- the bitmap

  /** 2 to the power of n: 1 << n. */
  function Pow2(n: nat): (p: nat)
    ensures p > 0
  {
    if n == 0 then 1 else 2 * Pow2(n - 1)
  }

  lemma HalfOfQuotient(b: int, p: int)
    requires p > 0
    ensures b / 2 / p == b / (2 * p)
  {
    var q := b / 2 / p;
    var rest := b / 2 % p * 2 + b % 2;
    assert b / 2 == q * p + b / 2 % p;
    assert b == 2 * (b / 2) + b % 2;
    assert b == q * (2 * p) + rest;
    QuotientIs(b, 2 * p, q, rest);
  }

  lemma QuotientIs(a: int, d: int, q: int, r: int)
    requires d > 0 && a == q * d + r && 0 <= r < d
    ensures a / d == q
  {
    var e := a / d - q;
    assert e * d == r - a % d;
    assert e >= 1 ==> e * d >= d;
    assert e <= -1 ==> e * d <= -d;
  }

  /** It is the bit of weight 2^event of the bitmap in two's complement. */
  lemma {:induction false} BitExactly(bitmap: int, event: nat)
    ensures HasBit(bitmap, event) <==> bitmap / Pow2(event) % 2 == 1
    decreases event, bitmap
  {
    if event > 0 {
      BitExactly(bitmap / 2, event - 1);
      HalfOfQuotient(bitmap, Pow2(event - 1));
    }
  }

  /** The bitmap of a list of events: the bit of each is set, by bitmap |= 1 << event. */
  function BitmapOf(events: seq<nat>): nat {
    if events == [] then 0
    else
      var rest := BitmapOf(events[1..]);
      if rest / Pow2(events[0]) % 2 == 1 then rest else rest + Pow2(events[0])
  }

  lemma {:induction false} BitAdded(b: int, added: nat, event: nat)
    requires !HasBit(b, added)
    ensures HasBit(b + Pow2(added), event) <==> event == added || HasBit(b, event)
    decreases added, event
  {
    if added > 0 && event > 0 {
      assert (b + Pow2(added)) / 2 == b / 2 + Pow2(added - 1);
      BitAdded(b / 2, added - 1, event - 1);
    } else if added > 0 {
      assert (b + Pow2(added)) % 2 == b % 2;
    } else if event > 0 {
      assert (b + 1) / 2 == b / 2;
    }
  }

  /** It has exactly the bits of its events. */
  lemma {:induction false} BitmapHas(events: seq<nat>, event: nat)
    ensures HasBit(BitmapOf(events), event) <==> event in events
  {
    if events == [] {
      BitExactly(0, event);
      ZeroQuotient(Pow2(event));
    } else {
      var rest := BitmapOf(events[1..]);
      BitmapHas(events[1..], event);
      BitmapHas(events[1..], events[0]);
      BitExactly(rest, events[0]);
      if rest / Pow2(events[0]) % 2 != 1 {
        BitAdded(rest, events[0], event);
      }
    }
  }

  lemma ZeroQuotient(d: int)
    requires d > 0
    ensures 0 / d == 0
  {
    QuotientIs(0, d, 0, 0);
  }

  /** What is written when the sender walks over these clients with a message. */
  function Writes(msg: Message, visited: seq<Client>): seq<Delivery> {
    if visited == [] then []
    else
      var last := visited[|visited| - 1];
      Writes(msg, visited[..|visited| - 1]) + if Wants(last, msg) then [Delivery(last.data, msg)] else []
  }

  lemma WritesOneMore(msg: Message, visited: seq<Client>, c: Client)
    ensures Writes(msg, visited + [c]) == Writes(msg, visited) + if Wants(c, msg) then [Delivery(c.data, msg)] else []
  {
    assert (visited + [c])[..|visited|] == visited;
  }

  lemma WritesUpTo(msg: Message, all: seq<Client>, pos: nat)
    requires pos < |all|
    ensures Writes(msg, all[..pos + 1])
      == Writes(msg, all[..pos]) + if Wants(all[pos], msg) then [Delivery(all[pos].data, msg)] else []
  {
    assert all[..pos + 1] == all[..pos] + [all[pos]];
    WritesOneMore(msg, all[..pos], all[pos]);
  }

  /** How many of the registrations carry this descriptor and ask for the message. */
  function Asking(visited: seq<Client>, fd: int, msg: Message): nat {
    if visited == [] then 0
    else
      var last := visited[|visited| - 1];
      Asking(visited[..|visited| - 1], fd, msg) + if last.data == fd && Wants(last, msg) then 1 else 0
  }

  /** A walk writes the message once for every registration that asks for it, to its descriptor, and nothing else. */
  lemma {:induction false} OncePerRegistration(msg: Message, visited: seq<Client>, d: Delivery)
    ensures multiset(Writes(msg, visited))[d] == if d.msg == msg then Asking(visited, d.fd, msg) else 0
  {
    if visited != [] {
      var most := visited[..|visited| - 1];
      OncePerRegistration(msg, most, d);
      var last := visited[|visited| - 1];
      assert multiset(Writes(msg, visited)) ==
        multiset(Writes(msg, most)) + multiset(if Wants(last, msg) then [Delivery(last.data, msg)] else []);
    }
  }

  /** A client asks for every heartbeat, and for the business messages whose bit its bitmap has. */
  lemma WantsExactly(c: Client, msg: Message)
    ensures Wants(c, msg) <==> msg.kind == Heartbeat || c.typeData / Pow2(msg.event) % 2 == 1
  {
    BitExactly(c.typeData, msg.event);
  }

  /** A client with the events it registers for. */
  datatype Subscriber = Subscriber(fd: int, events: seq<nat>)

  function Registrations(subscribers: seq<Subscriber>): (r: seq<Client>)
    ensures |r| == |subscribers|
    ensures forall i :: 0 <= i < |r| ==> r[i] == Item(subscribers[i].fd, BitmapOf(subscribers[i].events))
  {
    seq(|subscribers|, i requires 0 <= i < |subscribers| =>
      Item(subscribers[i].fd, BitmapOf(subscribers[i].events)))
  }

  lemma {:induction false} WritesExactly(msg: Message, visited: seq<Client>, d: Delivery)
    ensures d in Writes(msg, visited) <==>
      d.msg == msg && exists i :: 0 <= i < |visited| && visited[i].data == d.fd && Wants(visited[i], msg)
  {
    if visited != [] {
      var most, last := visited[..|visited| - 1], visited[|visited| - 1];
      WritesExactly(msg, most, d);
      if d.msg == msg && last.data == d.fd && Wants(last, msg) {
        assert visited[|visited| - 1] == last && d == Delivery(last.data, msg);
      }
    }
  }

  predicate Subscribed(s: Subscriber, fd: int, msg: Message) {
    s.fd == fd && (msg.kind == Heartbeat || msg.event in s.events)
  }

  /** Clients that register for lists of events are written exactly the business messages of their events, and every
      heartbeat. */
  lemma SubscribersServed(msg: Message, subscribers: seq<Subscriber>, fd: int)
    ensures Delivery(fd, msg) in Writes(msg, Registrations(subscribers)) <==>
      exists i :: 0 <= i < |subscribers| && Subscribed(subscribers[i], fd, msg)
  {
    var cs := Registrations(subscribers);
    forall i | 0 <= i < |cs|
      ensures cs[i].data == fd && Wants(cs[i], msg) <==> Subscribed(subscribers[i], fd, msg)
    {
      BitmapHas(subscribers[i].events, msg.event);
    }
    WritesExactly(msg, cs, Delivery(fd, msg));
  }

  // ---------- the steps of all threads

  /** Where the sender thread is: waiting, at client number `pos`, through the clients, or inside pop_front: with the
      link behind the front node read (`last`: there was none), with the head stored, or about to clear the tail because
      it found no head. */
  datatype Phase = Idle | Sending(pos: nat) | Walked | Loaded(last: bool) | Stored | Emptying

  /** The front message is being sent and still in the queue. */
  predicate Busy(phase: Phase) {
    phase.Sending? || phase.Walked? || phase.Loaded?
  }

  /** One turn of the sender: the message popped, the clients that were registered from the turn's beginning until the
      pop, the clients visited, those registered at the beginning or during the walk, and the messages that the pop
      dropped with it. */
  datatype Round = Round(msg: Message, stayed: seq<Client>, visited: seq<Client>, offered: seq<Client>,
                         dropped: seq<Message>)

  /** `tailLost`: the list has nodes, but its tail is NULL. `failed`: a thread is left to use a NULL tail or a freed
      node, and nothing is said of what follows. */
  datatype State = State(queue: seq<Message>, clients: seq<Client>, phase: Phase, log: seq<Delivery>,
                         accepted: seq<Message>, rounds: seq<Round>, stayed: seq<Client>, visited: seq<Client>,
                         still: seq<Client>, offered: seq<Client>, tailLost: bool, failed: bool)

  const START := State([], [], Idle, [], [], [], [], [], [], [], false, false)

  /** A post is the locked part of EnqueueServerMsg; its test for a client comes some time before, so that it may be
      queued when there is none any more. */
  datatype Event =
    | Post(msg: Message)
    | Register(client: Client)
    | Deregister(fd: int)
    | TakeFront
    | Visit
    | PopLoad
    | PopHead
    | PopTest
    | PopTail

  function PostStep(st: State, msg: Message): State {
    if st.queue != [] && st.tailLost then st.(failed := true)
    else st.(queue := st.queue + [msg], accepted := st.accepted + [msg], tailLost := false)
  }

  /** A walk under way comes to the new client, too. */
  function RegisterStep(st: State, c: Client): State {
    st.(clients := st.clients + [c], offered := if st.phase.Sending? then st.offered + [c] else st.offered)
  }

  /** All nodes of a descriptor are freed. The sender must not stand at one of them. */
  function DeregisterStep(st: State, fd: int): State {
    if st.phase.Sending? && st.phase.pos < |st.clients| && st.clients[st.phase.pos].data == fd then st.(failed := true)
    else
      var still := Without(st.still, fd);
      st.(clients := Without(st.clients, fd), stayed := Without(st.stayed, fd), still := still,
          phase := if st.phase.Sending? then Sending(|still|) else st.phase)
  }

  function VisitStep(st: State): State
    requires st.phase.Sending? && st.phase.pos < |st.clients| && st.queue != []
  {
    var c, next := st.clients[st.phase.pos], st.phase.pos + 1;
    st.(log := st.log + (if Wants(c, st.queue[0]) then [Delivery(c.data, st.queue[0])] else []),
        visited := st.visited + [c], still := st.still + [c],
        phase := if next < |st.clients| then Sending(next) else Walked)
  }

  /** Without a link behind the front node the head becomes NULL, and what was linked since is lost. */
  function PopHeadStep(st: State): State
    requires st.phase.Loaded? && st.queue != []
  {
    var rest := st.queue[1..];
    var dropped := if st.phase.last then rest else [];
    st.(phase := Stored, queue := if st.phase.last then [] else rest,
        rounds := st.rounds + [Round(st.queue[0], st.stayed, st.visited, st.offered, dropped)])
  }

  /** One step of some thread; a step that is not possible in a state leaves it as it is. */
  function Step(st: State, ev: Event): State {
    if st.failed then st
    else
      match ev
      case Post(msg) => PostStep(st, msg)
      case Register(c) => RegisterStep(st, c)
      case Deregister(fd) => DeregisterStep(st, fd)
      case TakeFront =>
        if st.phase.Idle? && st.queue != [] then
          st.(phase := if st.clients == [] then Walked else Sending(0),
              stayed := st.clients, visited := [], still := [], offered := st.clients)
        else st
      case Visit =>
        if st.phase.Sending? && st.phase.pos < |st.clients| && st.queue != [] then VisitStep(st) else st
      case PopLoad => if st.phase.Walked? then st.(phase := Loaded(|st.queue| == 1)) else st
      case PopHead => if st.phase.Loaded? && st.queue != [] then PopHeadStep(st) else st
      case PopTest => if st.phase.Stored? then st.(phase := if st.queue == [] then Emptying else Idle) else st
      case PopTail => if st.phase.Emptying? then st.(phase := Idle, tailLost := st.queue != []) else st
  }

  function Run(st: State, events: seq<Event>): State
    decreases |events|
  {
    if events == [] then st else Run(Step(st, events[0]), events[1..])
  }

  // ---------- what every run keeps

  /** All messages that have left the queue, in order. */
  function Gone(rounds: seq<Round>): seq<Message> {
    if rounds == [] then []
    else
      var last := rounds[|rounds| - 1];
      Gone(rounds[..|rounds| - 1]) + [last.msg] + last.dropped
  }

  function Dropped(rounds: seq<Round>): seq<Message> {
    if rounds == [] then [] else Dropped(rounds[..|rounds| - 1]) + rounds[|rounds| - 1].dropped
  }

  /** What the sender had to write in all its turns. */
  function Due(rounds: seq<Round>): seq<Delivery> {
    if rounds == [] then []
    else
      var last := rounds[|rounds| - 1];
      Due(rounds[..|rounds| - 1]) + Writes(last.msg, last.visited)
  }

  lemma OneMoreRound(rounds: seq<Round>, r: Round)
    ensures Gone(rounds + [r]) == Gone(rounds) + [r.msg] + r.dropped
    ensures Dropped(rounds + [r]) == Dropped(rounds) + r.dropped
    ensures Due(rounds + [r]) == Due(rounds) + Writes(r.msg, r.visited)
  {
    assert (rounds + [r])[..|rounds|] == rounds;
  }

  /** A message has visited every registration that lasted from the beginning of its turn to the end, and no
      registration more than once: those at the beginning, and those made during the walk. */
  ghost predicate Served(r: Round) {
    multiset(r.stayed) <= multiset(r.visited) <= multiset(r.offered)
  }

  ghost predicate AllServed(rounds: seq<Round>) {
    forall i :: 0 <= i < |rounds| ==> Served(rounds[i])
  }

  /** The walk: it has passed the clients before `pos` that are still there, what is before it and what it has visited
      are offered to it, and the clients of its beginning that are left stand at the front of the list. */
  ghost predicate WalkInv(st: State) {
    match st.phase
    case Sending(pos) =>
      && pos < |st.clients| && st.stayed <= st.clients && st.still == st.clients[..pos]
      && multiset(st.still) <= multiset(st.visited)
      && multiset(st.visited) + multiset(st.clients[pos..]) <= multiset(st.offered)
    case Walked => multiset(st.stayed) <= multiset(st.visited) <= multiset(st.offered)
    case Loaded(_) => multiset(st.stayed) <= multiset(st.visited) <= multiset(st.offered)
    case _ => true
  }

  ghost predicate Walk(st: State) {
    WalkInv(st) && AllServed(st.rounds)
  }

  predicate QueueInv(st: State) {
    Busy(st.phase) ==> st.queue != [] && (st.phase == Loaded(false) ==> |st.queue| > 1)
  }

  /** What has been written: all that the turns before had to write, and the part of the walk under way. */
  ghost predicate LogInv(st: State) {
    st.log == Due(st.rounds) + if Busy(st.phase) && st.queue != [] then Writes(st.queue[0], st.visited) else []
  }

  /** Messages leave the queue in the order in which they were accepted, each once; what has been written is what the
      messages sent so far had to write, plus the part of the walk under way. */
  ghost predicate Account(st: State) {
    QueueInv(st) && st.accepted == Gone(st.rounds) + st.queue && LogInv(st)
  }

  ghost predicate Inv(st: State) {
    Account(st) && Walk(st)
  }

  // ---------- the account

  lemma PostKeepsAccount(st: State, msg: Message)
    requires Account(st)
    ensures Account(PostStep(st, msg))
  {
    assert Gone(st.rounds) + (st.queue + [msg]) == (Gone(st.rounds) + st.queue) + [msg];
    assert st.queue != [] ==> (st.queue + [msg])[0] == st.queue[0];
  }

  lemma VisitKeepsAccount(st: State)
    requires Account(st) && st.phase.Sending? && st.phase.pos < |st.clients| && st.queue != []
    ensures Account(VisitStep(st))
  {
    WritesOneMore(st.queue[0], st.visited, st.clients[st.phase.pos]);
  }

  lemma Regroup(gone: seq<Message>, queue: seq<Message>, dropped: seq<Message>, rest: seq<Message>)
    requires queue != [] && queue[1..] == dropped + rest
    ensures gone + queue == gone + [queue[0]] + dropped + rest
  {
    assert queue == [queue[0]] + queue[1..];
  }

  lemma PopKeepsAccount(st: State)
    requires Account(st) && st.phase.Loaded? && st.queue != []
    ensures Account(PopHeadStep(st))
  {
    var dropped := if st.phase.last then st.queue[1..] else [];
    var rest := if st.phase.last then [] else st.queue[1..];
    var turn := Round(st.queue[0], st.stayed, st.visited, st.offered, dropped);
    assert st.queue[1..] == dropped + rest;
    Regroup(Gone(st.rounds), st.queue, dropped, rest);
    OneMoreRound(st.rounds, turn);
    assert Due(st.rounds + [turn]) + [] == Due(st.rounds + [turn]);
  }

  lemma TakeKeepsAccount(st: State)
    requires Account(st) && !st.failed
    ensures Account(Step(st, TakeFront))
  {
    assert Due(st.rounds) + [] == Due(st.rounds);
  }

  /** The steps that touch neither queue nor log. */
  lemma ClientsKeepAccount(st: State, ev: Event)
    requires Account(st) && (ev.Register? || ev.Deregister?)
    ensures Account(Step(st, ev))
  {
    var r := Step(st, ev);
    assert r.queue == st.queue && r.rounds == st.rounds && r.log == st.log && r.accepted == st.accepted;
    assert r.visited == st.visited && (Busy(r.phase) <==> Busy(st.phase));
  }

  lemma PhaseKeepsAccount(st: State, ev: Event)
    requires Account(st) && (ev.PopLoad? || ev.PopTest? || ev.PopTail?)
    ensures Account(Step(st, ev))
  {
  }

  lemma StepKeepsAccount(st: State, ev: Event)
    requires Account(st)
    ensures Account(Step(st, ev))
  {
    if !st.failed {
      match ev
      case Post(msg) => PostKeepsAccount(st, msg);
      case TakeFront => TakeKeepsAccount(st);
      case Visit =>
        if st.phase.Sending? && st.phase.pos < |st.clients| && st.queue != [] {
          VisitKeepsAccount(st);
        }
      case PopHead =>
        if st.phase.Loaded? && st.queue != [] {
          PopKeepsAccount(st);
        }
      case Register(_) => ClientsKeepAccount(st, ev);
      case Deregister(_) => ClientsKeepAccount(st, ev);
      case _ => PhaseKeepsAccount(st, ev);
    }
  }

  // ---------- the walks

  lemma PrefixWithin(a: seq<Client>, b: seq<Client>)
    requires a <= b
    ensures multiset(a) <= multiset(b)
  {
    assert b == a + b[|a|..];
  }

  /** One more client behind those the walk has passed, and one less before it. */
  lemma PassedOneMore(clients: seq<Client>, pos: nat, visited: seq<Client>, offered: seq<Client>)
    requires pos < |clients| && multiset(clients[..pos]) <= multiset(visited)
    requires multiset(visited) + multiset(clients[pos..]) <= multiset(offered)
    ensures clients[..pos] + [clients[pos]] == clients[..pos + 1]
    ensures multiset(clients[..pos + 1]) <= multiset(visited + [clients[pos]])
    ensures multiset(visited + [clients[pos]]) + multiset(clients[pos + 1..]) <= multiset(offered)
  {
    assert clients[..pos + 1] == clients[..pos] + [clients[pos]];
    assert clients[pos..] == [clients[pos]] + clients[pos + 1..];
  }

  /** The last client visited. */
  lemma PassedAll(clients: seq<Client>, pos: nat, stayed: seq<Client>, visited: seq<Client>, offered: seq<Client>)
    requires pos + 1 == |clients| && stayed <= clients && multiset(clients[..pos]) <= multiset(visited)
    requires multiset(visited) + multiset(clients[pos..]) <= multiset(offered)
    ensures multiset(stayed) <= multiset(visited + [clients[pos]]) <= multiset(offered)
  {
    PassedOneMore(clients, pos, visited, offered);
    assert clients[..pos + 1] == clients;
    PrefixWithin(stayed, clients);
  }

  lemma VisitKeepsWalk(st: State)
    requires WalkInv(st) && st.phase.Sending? && st.queue != []
    ensures WalkInv(VisitStep(st))
  {
    var pos := st.phase.pos;
    if pos + 1 < |st.clients| {
      PassedOneMore(st.clients, pos, st.visited, st.offered);
    } else {
      PassedAll(st.clients, pos, st.stayed, st.visited, st.offered);
    }
  }

  /** A client at the end of the list is before every walk. */
  lemma OneMoreBefore(clients: seq<Client>, pos: nat, c: Client)
    requires pos < |clients|
    ensures (clients + [c])[..pos] == clients[..pos]
    ensures multiset((clients + [c])[pos..]) == multiset(clients[pos..]) + multiset{c}
  {
    assert (clients + [c])[pos..] == clients[pos..] + [c];
  }

  lemma RegisterKeepsWalk(st: State, c: Client)
    requires WalkInv(st)
    ensures WalkInv(RegisterStep(st, c))
  {
    if st.phase.Sending? {
      OneMoreBefore(st.clients, st.phase.pos, c);
    }
  }

  lemma PrefixWithout(a: seq<Client>, b: seq<Client>, fd: int)
    requires a <= b
    ensures Without(a, fd) <= Without(b, fd)
  {
    assert b == a + b[|a|..];
    WithoutConcat(a, b[|a|..], fd);
  }

  /** The walk in a list from which a descriptor goes that it does not stand at. */
  lemma WalkGoesOn(clients: seq<Client>, pos: nat, fd: int)
    requires pos < |clients| && clients[pos].data != fd
    ensures var n := |Without(clients[..pos], fd)|;
      && n < |Without(clients, fd)| && Without(clients, fd)[..n] == Without(clients[..pos], fd)
      && multiset(Without(clients, fd)[n..]) <= multiset(clients[pos..])
  {
    var rest := clients[pos..];
    assert clients == clients[..pos] + rest && rest[0] == clients[pos];
    WithoutConcat(clients[..pos], rest, fd);
    WithoutWithin(rest, fd);
  }

  lemma DeregisterKeepsWalk(st: State, fd: int)
    requires WalkInv(st)
    ensures WalkInv(DeregisterStep(st, fd))
  {
    WithoutWithin(st.stayed, fd);
    WithoutWithin(st.still, fd);
    if st.phase.Sending? && st.clients[st.phase.pos].data != fd {
      WalkGoesOn(st.clients, st.phase.pos, fd);
      PrefixWithout(st.stayed, st.clients, fd);
    }
  }

  lemma ServedOneMore(rounds: seq<Round>, r: Round)
    requires AllServed(rounds) && Served(r)
    ensures AllServed(rounds + [r])
  {
  }

  lemma PopKeepsWalk(st: State)
    requires Walk(st) && st.phase.Loaded? && st.queue != []
    ensures Walk(PopHeadStep(st))
  {
    var dropped := if st.phase.last then st.queue[1..] else [];
    ServedOneMore(st.rounds, Round(st.queue[0], st.stayed, st.visited, st.offered, dropped));
  }

  lemma TakeKeepsWalk(st: State)
    requires WalkInv(st)
    ensures WalkInv(Step(st, TakeFront))
  {
    assert st.clients[0..] == st.clients;
  }

  lemma StepKeepsWalk(st: State, ev: Event)
    requires Walk(st)
    ensures Walk(Step(st, ev))
  {
    if !st.failed {
      match ev
      case Register(c) => RegisterKeepsWalk(st, c);
      case Deregister(fd) => DeregisterKeepsWalk(st, fd);
      case TakeFront => TakeKeepsWalk(st);
      case Visit =>
        if st.phase.Sending? && st.queue != [] {
          VisitKeepsWalk(st);
        }
      case PopHead =>
        if st.phase.Loaded? && st.queue != [] {
          PopKeepsWalk(st);
        }
      case _ =>
    }
  }

  // ---------- all together

  /** Every step of every thread keeps the account and the walks in order. */
  lemma StepKeepsInv(st: State, ev: Event)
    requires Inv(st)
    ensures Inv(Step(st, ev))
  {
    StepKeepsAccount(st, ev);
    StepKeepsWalk(st, ev);
  }

  lemma {:induction false} RunKeepsAccount(st: State, events: seq<Event>)
    requires Account(st)
    ensures Account(Run(st, events))
    decreases |events|
  {
    if events != [] {
      StepKeepsAccount(st, events[0]);
      RunKeepsAccount(Step(st, events[0]), events[1..]);
    }
  }

  lemma {:induction false} RunKeepsWalk(st: State, events: seq<Event>)
    requires Walk(st)
    ensures Walk(Run(st, events))
    decreases |events|
  {
    if events != [] {
      StepKeepsWalk(st, events[0]);
      RunKeepsWalk(Step(st, events[0]), events[1..]);
    }
  }

  /** In every run of posters, registrations, disconnects and one sender, messages are settled in the order in which
      they were accepted, each exactly once, and exactly what the walks had to write has been written: a walk comes to
      every registration that lasts through it, and to none twice. */
  lemma RunKeepsInv(st: State, events: seq<Event>)
    requires Inv(st)
    ensures Inv(Run(st, events))
  {
    RunKeepsAccount(st, events);
    RunKeepsWalk(st, events);
  }

  lemma StartInv()
    ensures Inv(START)
  {
  }

  // ---------- pop_front runs outside the lock

  function Posts(msgs: seq<Message>): seq<Event> {
    if msgs == [] then [] else [Post(msgs[0])] + Posts(msgs[1..])
  }

  lemma RunCons(st: State, ev: Event, rest: seq<Event>)
    ensures Run(st, [ev] + rest) == Run(Step(st, ev), rest)
  {
    assert ([ev] + rest)[1..] == rest;
  }

  /** The state after posts that find the list in order. */
  function Posted(st: State, msgs: seq<Message>): State {
    st.(queue := st.queue + msgs, accepted := st.accepted + msgs)
  }

  lemma {:induction false} PostsQueue(st: State, msgs: seq<Message>, rest: seq<Event>)
    requires !st.failed && !st.tailLost
    ensures Run(st, Posts(msgs) + rest) == Run(Posted(st, msgs), rest)
    decreases |msgs|
  {
    if msgs == [] {
      assert Posts(msgs) + rest == rest;
      assert Posted(st, msgs) == st;
    } else {
      var next := Step(st, Post(msgs[0]));
      assert Posts(msgs) + rest == [Post(msgs[0])] + (Posts(msgs[1..]) + rest);
      RunCons(st, Post(msgs[0]), Posts(msgs[1..]) + rest);
      PostsQueue(next, msgs[1..], rest);
      assert Posted(next, msgs[1..]) == Posted(st, msgs);
    }
  }

  /** pop_front in its four accesses, with posts in the three places between. */
  function PopWith(a: seq<Message>, b: seq<Message>, c: seq<Message>): seq<Event> {
    [PopLoad] + (Posts(a) + ([PopHead] + (Posts(b) + ([PopTest] + (Posts(c) + ([PopTail] + []))))))
  }

  lemma PopWithRun(st: State, a: seq<Message>, b: seq<Message>, c: seq<Message>)
      returns (s1: State, s2: State, s3: State)
    requires st.queue != [] && st.phase.Walked? && !st.failed && !st.tailLost
    ensures s1 == Posted(st.(phase := Loaded(|st.queue| == 1)), a) && s1.queue != []
    ensures s2 == Posted(PopHeadStep(s1), b)
    ensures s3 == Posted(s2.(phase := if s2.queue == [] then Emptying else Idle), c)
    ensures Run(st, PopWith(a, b, c)) == Step(s3, PopTail)
  {
    var e3 := [PopTail] + [];
    var e2 := [PopTest] + (Posts(c) + e3);
    var e1 := [PopHead] + (Posts(b) + e2);
    s1 := Posted(Step(st, PopLoad), a);
    s2 := Posted(Step(s1, PopHead), b);
    s3 := Posted(Step(s2, PopTest), c);
    RunCons(st, PopLoad, Posts(a) + e1);
    PostsQueue(Step(st, PopLoad), a, e1);
    RunCons(s1, PopHead, Posts(b) + e2);
    PostsQueue(Step(s1, PopHead), b, e2);
    RunCons(s2, PopTest, Posts(c) + e3);
    PostsQueue(Step(s2, PopTest), c, e3);
    RunCons(s3, PopTail, []);
  }

  /** The store of the head, when the link was read with `queue` in the list and `a` has been posted since. */
  lemma HeadStored(s: State, queue: seq<Message>, a: seq<Message>)
    requires queue != [] && s.phase == Loaded(|queue| == 1) && s.queue == queue + a
    ensures var r := PopHeadStep(s);
      && r.queue == (if |queue| == 1 then [] else queue[1..] + a)
      && Dropped(r.rounds) == Dropped(s.rounds) + (if |queue| == 1 then a else [])
  {
    assert s.queue[1..] == queue[1..] + a;
    assert |queue| == 1 ==> queue[1..] + a == a;
    var dropped := if s.phase.last then s.queue[1..] else [];
    OneMoreRound(s.rounds, Round(s.queue[0], s.stayed, s.visited, s.offered, dropped));
  }

  lemma TailStored(s2: State, c: seq<Message>, s3: State, msg: Message)
    requires !s2.failed && !s2.tailLost && s3 == Posted(s2.(phase := if s2.queue == [] then Emptying else Idle), c)
    ensures var r := Step(s3, PopTail);
      && r.queue == s2.queue + c && r.rounds == s2.rounds && r.phase.Idle? && !r.failed
      && (r.tailLost <==> s2.queue == [] && c != [])
      && (Step(r, Post(msg)).failed <==> s2.queue == [] && c != [])
  {
  }

  /** What a post between two accesses of pop_front comes to, when the popped node was the only one: behind the read of
      its link it is lost; behind the store of the head it is kept, and then the list is in order; behind the test of
      the head it is kept, but the tail is cleared under it, so that the next post uses a NULL pointer. With more nodes,
      and for every other post, nothing is lost. */
  lemma WindowsExactly(st: State, a: seq<Message>, b: seq<Message>, c: seq<Message>, msg: Message)
    requires QueueInv(st) && st.phase.Walked? && !st.failed && !st.tailLost
    ensures var r := Run(st, PopWith(a, b, c));
      var last := |st.queue| == 1;
      && Dropped(r.rounds) == Dropped(st.rounds) + (if last then a else [])
      && r.queue == (if last then [] else st.queue[1..] + a) + b + c
      && r.phase.Idle? && !r.failed
      && (r.tailLost <==> last && b == [] && c != [])
      && (Step(r, Post(msg)).failed <==> last && b == [] && c != [])
  {
    var s1, s2, s3 := PopWithRun(st, a, b, c);
    HeadStored(s1, st.queue, a);
    TailStored(s2, c, s3, msg);
  }

  /** Some store of the head finds more behind the front node than the read of its link did. */
  ghost predicate Loses(st: State, events: seq<Event>)
    decreases |events|
  {
    events != [] &&
    (|| (!st.failed && events[0].PopHead? && st.phase == Loaded(true) && |st.queue| > 1)
     || Loses(Step(st, events[0]), events[1..]))
  }

  lemma StepDrops(st: State, ev: Event)
    ensures var lost := !st.failed && ev.PopHead? && st.phase == Loaded(true) && |st.queue| > 1;
      Dropped(Step(st, ev).rounds) == Dropped(st.rounds) + if lost then st.queue[1..] else []
  {
    if !st.failed && ev.PopHead? && st.phase.Loaded? && st.queue != [] {
      var dropped := if st.phase.last then st.queue[1..] else [];
      OneMoreRound(st.rounds, Round(st.queue[0], st.stayed, st.visited, st.offered, dropped));
    }
  }

  /** Exactly the runs that lose a message: those in which the sender unlinks a node that had none behind it when its
      link was read and has one now. */
  lemma {:induction false} LostExactly(st: State, events: seq<Event>)
    ensures Dropped(st.rounds) <= Dropped(Run(st, events).rounds)
    ensures Dropped(Run(st, events).rounds) != Dropped(st.rounds) <==> Loses(st, events)
    decreases |events|
  {
    if events != [] {
      StepDrops(st, events[0]);
      LostExactly(Step(st, events[0]), events[1..]);
    }
  }

  /** Some step uses a tail that is NULL although the list has nodes, or frees the node at which the walk stands. */
  ghost predicate Fails(st: State, events: seq<Event>)
    decreases |events|
  {
    events != [] &&
    (|| (events[0].Post? && st.queue != [] && st.tailLost)
     || (events[0].Deregister? && st.phase.Sending? && st.phase.pos < |st.clients|
         && st.clients[st.phase.pos].data == events[0].fd)
     || Fails(Step(st, events[0]), events[1..]))
  }

  lemma {:induction false} FailedExactly(st: State, events: seq<Event>)
    requires !st.failed
    ensures Run(st, events).failed <==> Fails(st, events)
    decreases |events|
  {
    if events != [] {
      var next := Step(st, events[0]);
      if next.failed {
        FailedStays(next, events[1..]);
      } else {
        FailedExactly(next, events[1..]);
      }
    }
  }

  function MessagesOf(events: seq<Event>): seq<Message> {
    if events == [] then []
    else (if events[0].Post? then [events[0].msg] else []) + MessagesOf(events[1..])
  }

  /** The client list as the registrations and disconnects leave it. */
  function Connected(clients: seq<Client>, events: seq<Event>): seq<Client>
    decreases |events|
  {
    if events == [] then clients
    else
      var now := match events[0]
        case Register(c) => clients + [c]
        case Deregister(fd) => Without(clients, fd)
        case _ => clients;
      Connected(now, events[1..])
  }

  lemma StepAccepts(st: State, ev: Event)
    requires !Step(st, ev).failed
    ensures Step(st, ev).accepted == st.accepted + MessagesOf([ev])
    ensures Step(st, ev).clients == Connected(st.clients, [ev])
  {
    assert [ev][1..] == [];
  }

  lemma MessagesCons(ev: Event, rest: seq<Event>, before: seq<Message>)
    ensures before + MessagesOf([ev] + rest) == before + MessagesOf([ev]) + MessagesOf(rest)
  {
    assert ([ev] + rest)[1..] == rest && [ev][1..] == [];
  }

  lemma ConnectedCons(clients: seq<Client>, ev: Event, rest: seq<Event>)
    ensures Connected(clients, [ev] + rest) == Connected(Connected(clients, [ev]), rest)
  {
    assert ([ev] + rest)[1..] == rest && [ev][1..] == [];
  }

  lemma RunGoesOn(st: State, ev: Event, rest: seq<Event>)
    requires !Run(st, [ev] + rest).failed
    ensures Run(st, [ev] + rest) == Run(Step(st, ev), rest) && !Step(st, ev).failed
  {
    RunCons(st, ev, rest);
    if Step(st, ev).failed {
      FailedStays(Step(st, ev), rest);
    }
  }

  /** Every message posted is accepted, in order, and every registration stands until its descriptor is closed, whatever
      the sender does meanwhile. */
  lemma {:induction false} AcceptedExactly(st: State, events: seq<Event>)
    requires !Run(st, events).failed
    ensures Run(st, events).accepted == st.accepted + MessagesOf(events)
    ensures Run(st, events).clients == Connected(st.clients, events)
    decreases |events|
  {
    if events != [] {
      var ev, rest := events[0], events[1..];
      assert events == [ev] + rest;
      RunGoesOn(st, ev, rest);
      StepAccepts(st, ev);
      AcceptedExactly(Step(st, ev), rest);
      MessagesCons(ev, rest, st.accepted);
      ConnectedCons(st.clients, ev, rest);
    }
  }

  lemma LosingPop(st: State, second: Message)
    requires st.phase.Walked? && |st.queue| == 1 && !st.failed && !st.tailLost
    ensures var r := Run(st, [PopLoad, Post(second), PopHead]);
      && r.accepted == st.accepted + [second] && r.queue == [] && !r.failed
      && Dropped(r.rounds) == Dropped(st.rounds) + [second]
  {
    var s1 := Step(st, PopLoad);
    var s2 := Step(s1, Post(second));
    RunCons(st, PopLoad, [Post(second), PopHead]);
    RunCons(s1, Post(second), [PopHead]);
    RunCons(s2, PopHead, []);
    StepDrops(s2, PopHead);
  }

  /** A run from the start that loses the second of two messages. */
  lemma LosingRun(c: Client, first: Message, second: Message)
    ensures var r := Run(START, [Register(c), Post(first), TakeFront, Visit, PopLoad, Post(second), PopHead]);
      r.accepted == [first, second] && Dropped(r.rounds) == [second] && r.queue == [] && !r.failed
  {
    var s1 := Step(START, Register(c));
    var s2 := Step(s1, Post(first));
    var s3 := Step(s2, TakeFront);
    RunCons(START, Register(c), [Post(first), TakeFront, Visit, PopLoad, Post(second), PopHead]);
    RunCons(s1, Post(first), [TakeFront, Visit, PopLoad, Post(second), PopHead]);
    RunCons(s2, TakeFront, [Visit, PopLoad, Post(second), PopHead]);
    RunCons(s3, Visit, [PopLoad, Post(second), PopHead]);
    LosingPop(Step(s3, Visit), second);
  }

  /** A run in which no other step falls inside pop_front, as under the lock. */
  predicate PopsAtOnce(events: seq<Event>) {
    events == [] ||
    if events[0] == PopLoad then
      && |events| > 3 && events[1] == PopHead && events[2] == PopTest && events[3] == PopTail
      && PopsAtOnce(events[4..])
    else PopsAtOnce(events[1..])
  }

  /** Outside pop_front, with the tail in order. */
  predicate Whole(st: State) {
    && (st.phase.Idle? || st.phase.Sending? || st.phase.Walked?) && !st.tailLost
    && (Busy(st.phase) ==> st.queue != [])
  }

  function PopSteps(st: State): State {
    Step(Step(Step(Step(st, PopLoad), PopHead), PopTest), PopTail)
  }

  lemma HeadTaken(st: State)
    requires Whole(st) && st.phase.Walked? && !st.failed
    ensures var r := Step(Step(st, PopLoad), PopHead);
      && r.phase.Stored? && !r.tailLost && !r.failed && r.log == st.log
      && r.queue == st.queue[1..] && Dropped(r.rounds) == Dropped(st.rounds)
  {
    assert st.queue + [] == st.queue && st.queue[1..] + [] == st.queue[1..];
    HeadStored(Step(st, PopLoad), st.queue, []);
    assert Dropped(st.rounds) + [] == Dropped(st.rounds);
    assert |st.queue| == 1 ==> st.queue[1..] == [];
  }

  lemma PopStepsValue(st: State)
    requires Whole(st) && st.phase.Walked? && !st.failed
    ensures var r := PopSteps(st);
      && r.phase.Idle? && Whole(r) && !r.failed && r.log == st.log
      && r.queue == st.queue[1..] && Dropped(r.rounds) == Dropped(st.rounds)
  {
    HeadTaken(st);
  }

  /** The accesses of pop_front do nothing before the walk has ended. */
  lemma NoPopYet(st: State)
    requires Whole(st) && (st.failed || !st.phase.Walked?)
    ensures PopSteps(st) == st
  {
  }

  lemma PopAtOnce(st: State)
    requires Whole(st)
    ensures Whole(PopSteps(st)) && Dropped(PopSteps(st).rounds) == Dropped(st.rounds)
  {
    if st.phase.Walked? && !st.failed {
      PopStepsValue(st);
    } else {
      NoPopYet(st);
    }
  }

  lemma OtherKeepsWhole(st: State, ev: Event)
    requires Whole(st) && !ev.PopLoad?
    ensures Whole(Step(st, ev)) && Step(st, ev).rounds == st.rounds
  {
  }

  /** With pop_front in one piece nothing is ever dropped and the tail stays in order: every message that leaves the
      queue has been sent. */
  lemma {:induction false} NothingLostAtOnce(st: State, events: seq<Event>)
    requires Whole(st) && PopsAtOnce(events)
    ensures Whole(Run(st, events)) && Dropped(Run(st, events).rounds) == Dropped(st.rounds)
    decreases |events|
  {
    if events != [] {
      if events[0] == PopLoad {
        PopAtOnce(st);
        FourSteps(st, events);
        NothingLostAtOnce(PopSteps(st), events[4..]);
      } else {
        OtherKeepsWhole(st, events[0]);
        NothingLostAtOnce(Step(st, events[0]), events[1..]);
      }
    }
  }

  lemma FourSteps(st: State, events: seq<Event>)
    requires |events| > 3
    ensures Run(st, events)
      == Run(Step(Step(Step(Step(st, events[0]), events[1]), events[2]), events[3]), events[4..])
  {
    assert events == [events[0]] + ([events[1]] + ([events[2]] + ([events[3]] + events[4..])));
    var e3 := [events[3]] + events[4..];
    var e2 := [events[2]] + e3;
    RunCons(st, events[0], [events[1]] + e2);
    RunCons(Step(st, events[0]), events[1], e2);
    RunCons(Step(Step(st, events[0]), events[1]), events[2], e3);
    RunCons(Step(Step(Step(st, events[0]), events[1]), events[2]), events[3], events[4..]);
  }

  // ---------- a turn with anything in between

  predicate NoPop(events: seq<Event>) {
    forall k :: 0 <= k < |events| ==> !events[k].PopHead?
  }

  /** The registrations that no disconnect among the events takes away. */
  function Staying(clients: seq<Client>, events: seq<Event>): seq<Client>
    decreases |events|
  {
    if events == [] then clients
    else Staying(if events[0].Deregister? then Without(clients, events[0].fd) else clients, events[1..])
  }

  /** The node popped is the node sent: nothing that happens during a walk changes the front of the queue. */
  lemma FrontIsStable(st: State, ev: Event)
    requires Busy(st.phase) && st.queue != [] && !ev.PopHead? && !Step(st, ev).failed
    ensures var r := Step(st, ev);
      && r.queue != [] && r.queue[0] == st.queue[0] && Busy(r.phase) && r.rounds == st.rounds
      && r.stayed == (if ev.Deregister? then Without(st.stayed, ev.fd) else st.stayed)
  {
  }

  lemma {:induction false} FailedStays(st: State, events: seq<Event>)
    requires st.failed
    ensures Run(st, events) == st
    decreases |events|
  {
    if events != [] {
      FailedStays(st, events[1..]);
    }
  }

  lemma {:induction false} FrontStays(st: State, events: seq<Event>)
    requires Busy(st.phase) && st.queue != [] && NoPop(events) && !Run(st, events).failed
    ensures var r := Run(st, events);
      && r.queue != [] && r.queue[0] == st.queue[0] && Busy(r.phase)
      && r.stayed == Staying(st.stayed, events) && r.rounds == st.rounds
    decreases |events|
  {
    if events != [] {
      var next := Step(st, events[0]);
      if next.failed {
        FailedStays(next, events[1..]);
      }
      FrontIsStable(st, events[0]);
      FrontStays(next, events[1..]);
    }
  }

  /** The registrations made by the events. */
  function Registered(events: seq<Event>): seq<Client> {
    if events == [] then []
    else (if events[0].Register? then [events[0].client] else []) + Registered(events[1..])
  }

  /** What the walk is offered are the clients at its beginning and those registered since. */
  lemma {:induction false} OffersGrow(st: State, events: seq<Event>)
    requires Busy(st.phase) && st.queue != [] && NoPop(events) && !Run(st, events).failed
    ensures multiset(Run(st, events).offered) <= multiset(st.offered) + multiset(Registered(events))
    decreases |events|
  {
    if events != [] {
      var next := Step(st, events[0]);
      if next.failed {
        FailedStays(next, events[1..]);
      }
      FrontIsStable(st, events[0]);
      OffersGrow(next, events[1..]);
      OfferOne(st, events[0]);
      RegisteredFirst(events);
    }
  }

  lemma OfferOne(st: State, ev: Event)
    requires Busy(st.phase)
    ensures multiset(Step(st, ev).offered) <=
      multiset(st.offered) + if ev.Register? then multiset{ev.client} else multiset{}
  {
  }

  lemma RegisteredFirst(events: seq<Event>)
    requires events != []
    ensures multiset(Registered(events)) ==
      (if events[0].Register? then multiset{events[0].client} else multiset{}) + multiset(Registered(events[1..]))
  {
  }

  /** The round that the store of the head makes. */
  lemma PopMakesRound(r: State)
    requires WalkInv(r) && r.phase.Loaded? && r.queue != [] && !r.failed
    ensures var next := Step(r, PopHead);
      && |next.rounds| == |r.rounds| + 1 && next.rounds[..|r.rounds|] == r.rounds
      && next.rounds[|r.rounds|].msg == r.queue[0]
      && multiset(r.stayed) <= multiset(next.rounds[|r.rounds|].visited) <= multiset(r.offered)
  {
  }

  /** The node popped is the node sent: whatever the other threads do between the sender's front and its pop_front, as
      long as no node is freed under the sender, the message that leaves the queue is the one the turn began with. It
      has visited every client registered then and not disconnected since, and each registration, made before or since,
      at most once. */
  lemma PoppedIsSent(st: State, events: seq<Event>, r: State)
    requires Walk(st) && st.phase.Idle? && st.queue != [] && !st.failed && NoPop(events)
    requires r == Run(Step(st, TakeFront), events) && r.phase.Loaded? && !r.failed
    ensures var next := Step(r, PopHead);
      && |next.rounds| == |st.rounds| + 1 && next.rounds[..|st.rounds|] == st.rounds
      && next.rounds[|st.rounds|].msg == st.queue[0]
      && multiset(Staying(st.clients, events)) <= multiset(next.rounds[|st.rounds|].visited)
           <= multiset(st.clients) + multiset(Registered(events))
  {
    var first := Step(st, TakeFront);
    StepKeepsWalk(st, TakeFront);
    RunKeepsWalk(first, events);
    FrontStays(first, events);
    OffersGrow(first, events);
    PopMakesRound(r);
  }

  /** No client comes or goes among the events. */
  predicate SameClients(events: seq<Event>) {
    forall k :: 0 <= k < |events| ==> !events[k].Register? && !events[k].Deregister?
  }

  lemma {:induction false} NobodyMoves(clients: seq<Client>, events: seq<Event>)
    requires SameClients(events)
    ensures Staying(clients, events) == clients && Registered(events) == []
    decreases |events|
  {
    if events != [] {
      NobodyMoves(clients, events[1..]);
    }
  }

  /** While clients neither come nor go, a turn visits each registration exactly once, whatever is posted meanwhile. */
  lemma EachOnce(st: State, events: seq<Event>, r: State)
    requires Walk(st) && st.phase.Idle? && st.queue != [] && !st.failed && NoPop(events) && SameClients(events)
    requires r == Run(Step(st, TakeFront), events) && r.phase.Loaded? && !r.failed
    ensures var next := Step(r, PopHead);
      && |next.rounds| == |st.rounds| + 1
      && multiset(next.rounds[|st.rounds|].visited) == multiset(st.clients)
  {
    PoppedIsSent(st, events, r);
    NobodyMoves(st.clients, events);
    assert multiset(Registered(events)) == multiset{};
  }

  // ---------- how often each client is written to

  lemma {:induction false} AskingWithout(a: seq<Client>, i: nat, fd: int, msg: Message)
    requires i < |a|
    ensures Asking(a, fd, msg) ==
      Asking(a[..i] + a[i + 1..], fd, msg) + if a[i].data == fd && Wants(a[i], msg) then 1 else 0
    decreases |a|
  {
    var most, last := a[..|a| - 1], a[|a| - 1];
    if i == |a| - 1 {
      assert a[..i] + a[i + 1..] == most;
    } else {
      var rest := a[..i] + a[i + 1..];
      assert rest[..|rest| - 1] == most[..i] + most[i + 1..] && rest[|rest| - 1] == last;
      AskingWithout(most, i, fd, msg);
    }
  }

  lemma CutOut(b: seq<Client>, i: nat)
    requires i < |b|
    ensures multiset(b) == multiset(b[..i] + b[i + 1..]) + multiset{b[i]}
  {
    assert b == b[..i] + [b[i]] + b[i + 1..];
  }

  lemma CancelOne(m: multiset<Client>, n: multiset<Client>, c: Client)
    requires m + multiset{c} <= n + multiset{c}
    ensures m <= n
  {
    forall x: Client
      ensures m[x] <= n[x]
    {
      assert (m + multiset{c})[x] <= (n + multiset{c})[x];
    }
  }

  lemma TakenOut(a: seq<Client>, b: seq<Client>) returns (i: nat)
    requires a != [] && multiset(a) <= multiset(b)
    ensures i < |b| && b[i] == a[|a| - 1]
    ensures multiset(a[..|a| - 1]) <= multiset(b[..i] + b[i + 1..])
  {
    var most, last := a[..|a| - 1], a[|a| - 1];
    assert a == most + [last];
    assert last in multiset(a) && last in multiset(b);
    i :| 0 <= i < |b| && b[i] == last;
    CutOut(b, i);
    assert multiset(a) == multiset(most) + multiset{last};
    CancelOne(multiset(most), multiset(b[..i] + b[i + 1..]), last);
  }

  /** More registrations ask no less often. */
  lemma {:induction false} AskingGrows(a: seq<Client>, b: seq<Client>, fd: int, msg: Message)
    requires multiset(a) <= multiset(b)
    ensures Asking(a, fd, msg) <= Asking(b, fd, msg)
    decreases |a|
  {
    if a != [] {
      var i := TakenOut(a, b);
      AskingGrows(a[..|a| - 1], b[..i] + b[i + 1..], fd, msg);
      AskingWithout(b, i, fd, msg);
    }
  }

  /** In every run and for every message sent: a descriptor is written to at least once for each of its registrations
      that lasted through the turn and asks for the message, and at most once for each it had at the turn's beginning or
      made during the walk; no other message is written in the turn. */
  lemma DeliveredOnce(st: State, events: seq<Event>, i: nat, d: Delivery)
    requires Walk(st) && i < |Run(st, events).rounds|
    ensures var r := Run(st, events).rounds[i];
      var n := multiset(Writes(r.msg, r.visited))[d];
      if d.msg == r.msg then Asking(r.stayed, d.fd, r.msg) <= n <= Asking(r.offered, d.fd, r.msg) else n == 0
  {
    RunKeepsWalk(st, events);
    var r := Run(st, events).rounds[i];
    assert Served(r);
    OncePerRegistration(r.msg, r.visited, d);
    AskingGrows(r.stayed, r.visited, d.fd, r.msg);
    AskingGrows(r.visited, r.offered, d.fd, r.msg);
  }

  // ---------- a turn that nothing interrupts

  function Visits(n: nat): seq<Event> {
    if n == 0 then [] else [Visit] + Visits(n - 1)
  }

  lemma OneVisit(st: State, left: nat)
    requires left > 0
    ensures Run(st, Visits(left)) == Run(Step(st, Visit), Visits(left - 1))
  {
    RunCons(st, Visit, Visits(left - 1));
  }

  lemma VisitedRest(visited: seq<Client>, clients: seq<Client>, pos: nat)
    requires pos < |clients|
    ensures (visited + [clients[pos]]) + clients[pos + 1..] == visited + clients[pos..]
  {
    assert clients[pos..] == [clients[pos]] + clients[pos + 1..];
  }

  lemma VisitOnce(st: State)
    requires Whole(st) && st.phase.Sending? && st.phase.pos < |st.clients| && !st.failed
    ensures var r := Step(st, Visit);
      && Whole(r) && !r.failed && r.queue == st.queue && r.rounds == st.rounds && r.clients == st.clients
      && r.visited == st.visited + [st.clients[st.phase.pos]]
      && r.phase == if st.phase.pos + 1 < |st.clients| then Sending(st.phase.pos + 1) else Walked
  {
  }

  /** What a walk keeps that nothing interrupts. */
  predicate SameTurn(st: State, r: State) {
    Whole(r) && !r.failed && r.queue == st.queue && r.rounds == st.rounds && r.clients == st.clients
  }

  lemma {:induction false} WalkCompletes(st: State)
    requires Whole(st) && st.phase.Sending? && st.phase.pos < |st.clients| && !st.failed
    ensures var r := Run(st, Visits(|st.clients| - st.phase.pos));
      SameTurn(st, r) && r.phase.Walked? && r.visited == st.visited + st.clients[st.phase.pos..]
    decreases |st.clients| - st.phase.pos
  {
    var left := |st.clients| - st.phase.pos;
    VisitOnce(st);
    OneVisit(st, left);
    VisitedRest(st.visited, st.clients, st.phase.pos);
    if left > 1 {
      WalkCompletes(Step(st, Visit));
    }
  }

  lemma TurnBegins(st: State) returns (walked: State)
    requires Whole(st) && st.phase.Idle? && st.queue != [] && !st.failed
    ensures walked == Run(st, [TakeFront] + Visits(|st.clients|))
    ensures SameTurn(st, walked) && walked.phase.Walked? && walked.visited == st.clients
  {
    RunCons(st, TakeFront, Visits(|st.clients|));
    walked := Run(Step(st, TakeFront), Visits(|st.clients|));
    if st.clients != [] {
      WalkCompletes(Step(st, TakeFront));
      assert [] + st.clients[0..] == st.clients;
    }
  }

  lemma WalkedLog(st: State, walked: State)
    requires LogInv(st) && st.phase.Idle? && st.queue != [] && LogInv(walked) && walked.phase.Walked?
    requires walked.queue == st.queue && walked.rounds == st.rounds && walked.visited == st.clients
    ensures walked.log == st.log + Writes(st.queue[0], st.clients)
  {
    assert st.log == Due(st.rounds) + [];
  }

  lemma {:induction false} RunConcat(st: State, a: seq<Event>, b: seq<Event>)
    ensures Run(st, a + b) == Run(Run(st, a), b)
    decreases |a|
  {
    if a == [] {
      assert a + b == b;
    } else {
      assert (a + b)[1..] == a[1..] + b;
      RunConcat(Step(st, a[0]), a[1..], b);
    }
  }

  lemma PopRun(st: State)
    ensures Run(st, [PopLoad, PopHead, PopTest, PopTail]) == PopSteps(st)
  {
    FourSteps(st, [PopLoad, PopHead, PopTest, PopTail]);
  }

  /** A turn of the sender that no other thread interrupts: the front message is written to every client that asks for
      it, and leaves the queue. */
  lemma WholeTurn(st: State)
    requires Account(st) && !st.tailLost && st.phase.Idle? && st.queue != [] && !st.failed
    ensures var r := Run(st, ([TakeFront] + Visits(|st.clients|)) + [PopLoad, PopHead, PopTest, PopTail]);
      && r.queue == st.queue[1..] && r.phase.Idle? && Dropped(r.rounds) == Dropped(st.rounds)
      && r.log == st.log + Writes(st.queue[0], st.clients)
  {
    var walked := TurnBegins(st);
    RunKeepsAccount(st, [TakeFront] + Visits(|st.clients|));
    WalkedLog(st, walked);
    RunConcat(st, [TakeFront] + Visits(|st.clients|), [PopLoad, PopHead, PopTest, PopTail]);
    PopStepsValue(walked);
    PopRun(walked);
  }

  // ---------- the program

  datatype MessageType = Undefined | BusinessData | HeartbeatData

  /** The buffer of a queued message: the header's type, and the payload. */
  datatype Buffer = Buffer(kind: Kind, id: nat)

  /** The node of a message: only a heartbeat has a negative type. */
  function MessageOf(item: Item<Buffer>): Message {
    Message(item.data.kind, if item.typeData >= 0 then item.typeData else 0, item.data.id)
  }

  function QueueOf(items: seq<Item<Buffer>>): (r: seq<Message>)
    ensures |r| == |items| && forall i :: 0 <= i < |r| ==> r[i] == MessageOf(items[i])
  {
    seq(|items|, i requires 0 <= i < |items| => MessageOf(items[i]))
  }

  class Server {
    const messages: List<Buffer>
    const clients: List<int>
    var written: seq<Delivery>

    ghost predicate Valid()
      reads this, messages, messages.nodes, clients, clients.nodes
    {
      && messages.Valid() && clients.Valid() && Apart()
    }

    /** The two lists share nothing. */
    ghost predicate Apart()
      reads messages, clients
    {
      && messages as object != clients
      && (forall i, j :: 0 <= i < |messages.nodes| && 0 <= j < |clients.nodes| ==>
            messages.nodes[i] as object != clients.nodes[j])
    }

    ghost function Queue(): seq<Message>
      reads messages
    {
      QueueOf(messages.Contents())
    }

    ghost function Clients(): seq<Client>
      reads clients
    {
      clients.Contents()
    }

    constructor ()
      ensures Valid() && Queue() == [] && Clients() == [] && written == []
    {
      messages := new List();
      clients := new List();
      written := [];
    }

    method EnqueueServerMsg(msgType: MessageType, id: nat, event: nat)
      requires Valid()
      modifies messages, messages.nodes
      ensures Valid() && Clients() == old(Clients()) && written == old(written)
      ensures old(Clients()) == [] || msgType.Undefined? ==> Queue() == old(Queue())
      ensures old(Clients()) != [] && msgType.BusinessData? ==>
        Queue() == old(Queue()) + [Message(Business, event, id)]
      ensures old(Clients()) != [] && msgType.HeartbeatData? ==>
        Queue() == old(Queue()) + [Message(Heartbeat, 0, id)]
    {
      if clients.head == null {
        return;
      }
      if msgType.Undefined? {
        return;
      }
      if msgType.BusinessData? {
        messages.PushBack(Buffer(Business, id), event);
      } else {
        messages.PushBack(Buffer(Heartbeat, id), -1);
      }
    }

    /** The text is what stands at the payload and behind it. */
    method HandleRegisterMessage(bitmapStr: string, fd: int)
      requires Valid()
      modifies clients, clients.nodes
      ensures Valid() && Queue() == old(Queue()) && written == old(written)
      ensures Clients() == old(Clients()) + [Item(fd, Registration.Atoi(bitmapStr))]
    {
      var bitmap := Registration.Atoi(bitmapStr);
      clients.PushBack(fd, bitmap);
    }

    /** A client closed its connection: all its registrations go. */
    method Disconnect(fd: int)
      requires Valid()
      modifies clients, clients.nodes
      ensures Valid() && Queue() == old(Queue()) && written == old(written)
      ensures Clients() == Without(old(Clients()), fd)
    {
      clients.DeleteNodesWithValue(fd);
    }

    /** The walk over the client list. */
    method WriteToClients(msg: Message)
      requires Valid()
      modifies this`written
      ensures written == old(written) + Writes(msg, Clients())
    {
      ghost var all := Clients();
      ghost var nodes := clients.nodes;
      ghost var pos: nat := 0;
      var it := clients.head;
      assert all[..0] == [];
      while it != null
        invariant pos <= |nodes| && it == (if pos < |nodes| then nodes[pos] else null)
        invariant written == old(written) + Writes(msg, all[..pos])
        decreases |nodes| - pos
      {
        WritesUpTo(msg, all, pos);
        if msg.kind == Heartbeat || HasBit(it.typeData, msg.event) {
          written := written + [Delivery(it.data, msg)];
        }
        assert pos + 1 < |nodes| ==> it.next == nodes[pos + 1];
        it := it.next;
        pos := pos + 1;
      }
      assert all[..pos] == all;
    }

    method PopMessage()
      requires Valid() && Queue() != []
      modifies messages, messages.nodes
      ensures Valid() && Clients() == old(Clients()) && Queue() == old(Queue())[1..]
    {
      messages.PopFront();
      assert messages.nodes == old(messages.nodes)[1..];
    }

    /** One turn of messageSenderWorker; with an empty queue it waits. */
    method SendFront()
      requires Valid()
      modifies this, messages, messages.nodes
      ensures Valid() && Clients() == old(Clients())
      ensures old(Queue()) == [] ==> Queue() == [] && written == old(written)
      ensures old(Queue()) != [] ==>
        Queue() == old(Queue())[1..] && written == old(written) + Writes(old(Queue())[0], Clients())
    {
      var empty := messages.Empty();
      if empty {
        return;
      }
      var front := messages.Front();
      WriteToClients(MessageOf(front.value));
      PopMessage();
    }
  }
}
