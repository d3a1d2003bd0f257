/** The property database: three stores chosen by the key, and a stream of change events from which a subscriber can
    rebuild the contents. */
module PropertyDb {

  import opened Wrappers

  // ---------- trimming

  /** isspace in the classic locale. */
  predicate IsSpace(c: char) {
    c == ' ' || c == '\t' || c == '\n' || c == '\U{0B}' || c == '\U{0C}' || c == '\r'
  }

  predicate AllSpace(s: string) {
    forall i :: 0 <= i < |s| ==> IsSpace(s[i])
  }

  /** Where the text starts, seen from position i on, and where it ends, seen from position i back. */
  function TextStart(s: string, i: nat): (r: nat)
    requires i <= |s|
    ensures i <= r <= |s| && (forall k :: i <= k < r ==> IsSpace(s[k])) && (r < |s| ==> !IsSpace(s[r]))
    decreases |s| - i
  {
    if i < |s| && IsSpace(s[i]) then TextStart(s, i + 1) else i
  }

  function TextEnd(s: string, i: nat): (r: nat)
    requires i <= |s|
    ensures r <= i && (forall k :: r <= k < i ==> IsSpace(s[k])) && (r > 0 ==> !IsSpace(s[r - 1]))
    decreases i
  {
    if i > 0 && IsSpace(s[i - 1]) then TextEnd(s, i - 1) else i
  }

  /** The right end is cut first, then the left. */
  function Trim(s: string): string {
    var t := s[..TextEnd(s, |s|)];
    t[TextStart(t, 0)..]
  }

  predicate Trimmed(s: string) {
    s == "" || (!IsSpace(s[0]) && !IsSpace(s[|s| - 1]))
  }

  lemma TrimIsTrimmed(s: string)
    ensures Trimmed(Trim(s))
  {
  }

  /** s is the trimmed text t with nothing but space around it. */
  ghost predicate Surrounded(s: string, a: string, t: string, b: string) {
    s == a + t + b && AllSpace(a) && AllSpace(b) && Trimmed(t)
  }

  lemma TrimUnique(s: string, a: string, t: string, b: string)
    requires Surrounded(s, a, t, b)
    ensures Trim(s) == t
  {
    var e := TextEnd(s, |s|);
    var u := s[..e];
    if t == "" {
      assert AllSpace(s);
      assert u == "";
    } else {
      assert s[|a| + |t| - 1] == t[|t| - 1];
      assert forall k :: |a| + |t| <= k < |s| ==> s[k] == b[k - |a| - |t|];
      assert e == |a| + |t|;
      assert u == a + t;
      assert u[|a|] == t[0];
      assert forall k :: 0 <= k < |a| ==> u[k] == a[k];
      assert TextStart(u, 0) == |a|;
    }
  }

  lemma TrimIsPart(s: string) returns (i: nat, e: nat)
    ensures i <= e <= |s| && Trim(s) == s[i..e]
    ensures (forall k :: 0 <= k < i ==> IsSpace(s[k])) && (forall k :: e <= k < |s| ==> IsSpace(s[k]))
  {
    e := TextEnd(s, |s|);
    i := TextStart(s[..e], 0);
    assert s[..e][i..] == s[i..e];
    assert forall k :: 0 <= k < i ==> s[k] == s[..e][k];
  }

  lemma CutApart(s: string, i: nat, e: nat, t: string)
    requires i <= e <= |s| && t == s[i..e] && Trimmed(t)
    requires (forall k :: 0 <= k < i ==> IsSpace(s[k])) && (forall k :: e <= k < |s| ==> IsSpace(s[k]))
    ensures Surrounded(s, s[..i], t, s[e..])
  {
    assert s[..i] + s[i..e] + s[e..] == s;
  }

  lemma TrimParts(s: string, t: string) returns (a: string, b: string)
    requires t == Trim(s)
    ensures Surrounded(s, a, t, b)
  {
    var i, e := TrimIsPart(s);
    TrimIsTrimmed(s);
    CutApart(s, i, e, t);
    a, b := s[..i], s[e..];
  }

  /** The characters that count as space, as a set. */
  const SPACES := {' ', '\t', '\n', '\U{0B}', '\U{0C}', '\r'}

  predicate OnlySpaces(s: string) {
    forall i :: 0 <= i < |s| ==> s[i] in SPACES
  }

  predicate NoSpaceAtEnds(s: string) {
    s == "" || (s[0] !in SPACES && s[|s| - 1] !in SPACES)
  }

  ghost predicate InSpaces(s: string, a: string, t: string, b: string) {
    s == a + t + b && OnlySpaces(a) && OnlySpaces(b) && NoSpaceAtEnds(t)
  }

  lemma SpacesAre(c: char)
    ensures c in SPACES <==> IsSpace(c)
  {
  }

  lemma OnlySpacesAre(s: string)
    ensures OnlySpaces(s) <==> AllSpace(s)
  {
    forall i | 0 <= i < |s|
      ensures s[i] in SPACES <==> IsSpace(s[i])
    {
      SpacesAre(s[i]);
    }
  }

  lemma InSpacesIs(s: string, a: string, t: string, b: string)
    ensures InSpaces(s, a, t, b) <==> Surrounded(s, a, t, b)
  {
    OnlySpacesAre(a);
    OnlySpacesAre(b);
    if t != "" {
      SpacesAre(t[0]);
      SpacesAre(t[|t| - 1]);
    }
  }

  /** Trimming takes space off both ends and nothing else: its result is the one text without space at its ends that s
      holds with nothing but space around it. */
  lemma TrimExactly(s: string, t: string)
    ensures Trim(s) == t <==> exists a, b :: InSpaces(s, a, t, b)
  {
    if Trim(s) == t {
      var a, b := TrimParts(s, t);
      InSpacesIs(s, a, t, b);
    }
    if a, b :| InSpaces(s, a, t, b) {
      InSpacesIs(s, a, t, b);
      TrimUnique(s, a, t, b);
    }
  }

  lemma TrimIdempotent(s: string)
    ensures Trim(Trim(s)) == Trim(s)
  {
    TrimIsTrimmed(s);
    assert Surrounded(Trim(s), "", Trim(s), "");
    TrimUnique(Trim(s), "", Trim(s), "");
  }

  // ---------- routing

  datatype Attribute = Temp | Persist | ReadOnly

  predicate OccursAt(s: string, p: string, i: nat) {
    i + |p| <= |s| && s[i..i + |p|] == p
  }

  /** string::rfind, from position i down. */
  function LastFrom(s: string, p: string, i: int): (r: int)
    ensures -1 <= r && (i >= -1 ==> r <= i)
    ensures r >= 0 ==> OccursAt(s, p, r)
    ensures forall k: nat :: r < k <= i ==> !OccursAt(s, p, k)
    decreases i
  {
    if i < 0 then -1 else if OccursAt(s, p, i) then i else LastFrom(s, p, i - 1)
  }

  function RFind(s: string, p: string): int {
    LastFrom(s, p, |s|)
  }

  const RO := "ro."
  const PERSIST := "persist."

  function AttributeOf(key: string): Attribute {
    if RFind(key, RO) == 0 then ReadOnly else if RFind(key, PERSIST) == 0 then Persist else Temp
  }

  predicate Again(key: string, p: string) {
    exists k: nat :: 0 < k <= |key| && OccursAt(key, p, k)
  }

  /** A prefix decides only when it does not occur a second time: "ro.pro.x" is neither read-only nor persistent. */
  lemma AttributeExactly(key: string)
    ensures AttributeOf(key) == ReadOnly <==> OccursAt(key, "ro.", 0) && !Again(key, "ro.")
    ensures AttributeOf(key) == Persist <==> OccursAt(key, "persist.", 0) && !Again(key, "persist.")
  {
    PrefixDecides(key, RO);
    PrefixDecides(key, PERSIST);
    OnePrefix(key);
  }

  lemma OnePrefix(key: string)
    ensures !(OccursAt(key, RO, 0) && OccursAt(key, PERSIST, 0))
  {
    var c := if key == "" then ' ' else key[0];
    assert OccursAt(key, RO, 0) ==> c == key[0..3][0] == 'r';
    assert OccursAt(key, PERSIST, 0) ==> c == key[0..8][0] == 'p';
  }

  lemma PrefixDecides(key: string, p: string)
    ensures RFind(key, p) == 0 <==> OccursAt(key, p, 0) && !Again(key, p)
  {
  }

  lemma NestedPrefixIsWritable()
    ensures OccursAt("ro.pro.x", "ro.", 0) && AttributeOf("ro.pro.x") == Temp
  {
    var key := "ro.pro.x";
    assert OccursAt(key, RO, 0);
    assert OccursAt(key, RO, 4);
    AttributeExactly(key);
    assert key[0..8][0] == 'r';
  }

  // ---------- the stores

  type Table = map<string, string>

  /** The persistent store may not be open. */
  datatype Stores = Stores(temp: Table, persist: Option<Table>, ro: Table)

  function Lookup(m: Table, key: string): Option<string> {
    if key in m then Some(m[key]) else None
  }

  function StoreGet(st: Stores, attr: Attribute, key: string): Option<string> {
    match attr
    case Temp => Lookup(st.temp, key)
    case Persist => if st.persist.None? || key == "" then None else Lookup(st.persist.value, key)
    case ReadOnly => Lookup(st.ro, key)
  }

  /** Puts, or without a value deletes; a write to the persistent store can fail, and then changes nothing. */
  function StoreWrite(st: Stores, attr: Attribute, key: string, value: Option<string>, writes: bool): (Stores, bool) {
    match attr
    case Temp => (st.(temp := Written(st.temp, key, value)), true)
    case Persist =>
      if st.persist.None? || key == "" || !writes then (st, false)
      else (st.(persist := Some(Written(st.persist.value, key, value))), true)
    case ReadOnly => (st, false)
  }

  function Written(m: Table, key: string, value: Option<string>): Table {
    if value.Some? then m[key := value.value] else m - {key}
  }

  datatype Action = Added | Modified | Deleted

  datatype Event = Event(key: string, action: Action, value: string, oldValue: string)

  /** The new stores, the result, and the event sent, if any. */
  datatype Outcome = Outcome(stores: Stores, ret: bool, event: Option<Event>)

  function InternalSet(st: Stores, key: string, value: string, writes: bool): Outcome {
    if key == "" then Outcome(st, false, None)
    else
      var attr := AttributeOf(key);
      if attr.ReadOnly? then Outcome(st, false, None)
      else
        var was := StoreGet(st, attr, key);
        if value == "" && was.Some? then
          var (next, done) := StoreWrite(st, attr, key, None, writes);
          Outcome(next, done, if done then Some(Event(key, Deleted, was.value, was.value)) else None)
        else if was == Some(value) || value == "" then Outcome(st, true, None)
        else
          var (next, done) := StoreWrite(st, attr, key, Some(value), writes);
          var event := Event(key, if was.Some? then Modified else Added, value, if was.Some? then was.value else "");
          Outcome(next, done, if done then Some(event) else None)
  }

  function Get(st: Stores, key: string): Option<string> {
    StoreGet(st, AttributeOf(Trim(key)), Trim(key))
  }

  function Set(st: Stores, key: string, value: string, writes: bool): Outcome {
    InternalSet(st, Trim(key), Trim(value), writes)
  }

  /** All stores in one map; an entry already there is kept. */
  function List(st: Stores): Table {
    st.ro + (Opened(st.persist) + st.temp)
  }

  function Opened(persist: Option<Table>): Table {
    if persist.Some? then persist.value else map[]
  }

  /** What can change: the temporary and the persistent contents. */
  function Contents(st: Stores): Table {
    Opened(st.persist) + st.temp
  }

  /** Where the keys may be. Setting only ever adds trimmed keys to the store they are routed to; the loader can put
      untrimmed keys into the persistent store. */
  ghost predicate WellRouted(st: Stores) {
    && (forall k :: k in st.temp ==> k != "" && Trim(k) == k && AttributeOf(k) == Temp)
    && (forall k :: k in Opened(st.persist) ==> AttributeOf(Trim(k)) == Persist)
    && (forall k :: k in st.ro ==> Trim(k) == k && AttributeOf(k) == ReadOnly)
  }

  lemma WriteKeepsRouting(st: Stores, key: string, value: Option<string>, writes: bool)
    requires WellRouted(st) && key != "" && Trim(key) == key
    ensures WellRouted(StoreWrite(st, AttributeOf(key), key, value, writes).0)
  {
  }

  /** A set leaves the stores, or writes one of them. */
  lemma SetWrites(st: Stores, key: string, value: string, writes: bool)
    ensures var r := InternalSet(st, key, value, writes).stores;
      r == st || (key != "" && exists v :: r == StoreWrite(st, AttributeOf(key), key, v, writes).0)
  {
    var r := InternalSet(st, key, value, writes).stores;
    var v := if value == "" then None else Some(value);
    assert r == st || r == StoreWrite(st, AttributeOf(key), key, v, writes).0;
  }

  lemma SetKeepsRouting(st: Stores, key: string, value: string, writes: bool)
    requires WellRouted(st)
    ensures WellRouted(Set(st, key, value, writes).stores)
  {
    var k, r := Trim(key), Set(st, key, value, writes).stores;
    TrimIdempotent(key);
    SetWrites(st, k, Trim(value), writes);
    if r != st {
      var v :| r == StoreWrite(st, AttributeOf(k), k, v, writes).0;
      WriteKeepsRouting(st, k, v, writes);
    }
  }

  // ---------- set and get

  /** When a set succeeds. */
  predicate Settable(st: Stores, key: string, value: string, writes: bool) {
    var k := Trim(key);
    && k != "" && !AttributeOf(k).ReadOnly?
    && (AttributeOf(k).Temp? || Get(st, key) == Wanted(value) || (st.persist.Some? && writes))
  }

  /** An empty value means: no value. */
  function Wanted(value: string): Option<string> {
    if Trim(value) == "" then None else Some(Trim(value))
  }

  /** A set that succeeds makes get return the trimmed value, or nothing for an empty one, and leaves every other key
      alone; one that fails leaves everything alone. It succeeds exactly when Settable says so. */
  lemma GetAfterSet(st: Stores, key: string, value: string, writes: bool, other: string)
    ensures var r := Set(st, key, value, writes);
      && (r.ret <==> Settable(st, key, value, writes))
      && (r.ret ==> Get(r.stores, key) == Wanted(value))
      && (!r.ret ==> r.stores == st)
      && (Trim(other) != Trim(key) ==> Get(r.stores, other) == Get(st, other))
  {
  }

  // ---------- events

  function Apply(m: Table, e: Event): Table {
    if e.action.Deleted? then m - {e.key} else m[e.key := e.value]
  }

  function Replay(m: Table, events: seq<Event>): Table {
    if events == [] then m else Apply(Replay(m, events[..|events| - 1]), events[|events| - 1])
  }

  function AsList(e: Option<Event>): seq<Event> {
    if e.Some? then [e.value] else []
  }

  /** A write to the store a key is routed to writes the contents as a whole. */
  lemma WriteShows(st: Stores, key: string, value: Option<string>, writes: bool)
    requires WellRouted(st) && key != "" && Trim(key) == key && !AttributeOf(key).ReadOnly?
    ensures var (next, done) := StoreWrite(st, AttributeOf(key), key, value, writes);
      Contents(next) == if done then Written(Contents(st), key, value) else Contents(st)
  {
    if AttributeOf(key) == Temp {
      assert key !in Opened(st.persist);
      WrittenOver(Opened(st.persist), st.temp, key, value);
    } else {
      assert key !in st.temp;
      WrittenUnder(Opened(st.persist), st.temp, key, value);
    }
  }

  lemma WrittenOver(a: Table, b: Table, key: string, value: Option<string>)
    requires key !in a
    ensures a + Written(b, key, value) == Written(a + b, key, value)
  {
  }

  lemma WrittenUnder(a: Table, b: Table, key: string, value: Option<string>)
    requires key !in b
    ensures Written(a, key, value) + b == Written(a + b, key, value)
  {
  }

  /** What get finds in the store a key is routed to is what the contents hold. */
  lemma GetSeesContents(st: Stores, key: string)
    requires WellRouted(st) && key != "" && Trim(key) == key && !AttributeOf(key).ReadOnly?
    ensures StoreGet(st, AttributeOf(key), key) == Lookup(Contents(st), key)
  {
    assert AttributeOf(key) == Temp ==> key !in Opened(st.persist);
    assert AttributeOf(key) == Persist ==> key !in st.temp;
  }

  lemma ReplayOne(m: Table, e: Event)
    ensures Replay(m, [e]) == Apply(m, e) && Replay(m, []) == m
  {
    assert [e][..0] == [];
  }

  /** The value an event says the key had before. */
  function OldValue(e: Event): Option<string> {
    if e.action.Added? then None else Some(e.oldValue)
  }

  lemma InternalSetTells(st: Stores, key: string, value: string, writes: bool)
    requires WellRouted(st) && Trim(key) == key
    ensures var r := InternalSet(st, key, value, writes);
      && Contents(r.stores) == (if r.event.Some? then Apply(Contents(st), r.event.value) else Contents(st))
      && (r.event.Some? ==> Contents(r.stores) != Contents(st))
      && (r.event.Some? ==> r.event.value.key == key)
      && (r.event.Some? ==> Lookup(Contents(st), key) == OldValue(r.event.value))
  {
    if key != "" && !AttributeOf(key).ReadOnly? {
      GetSeesContents(st, key);
      WriteShows(st, key, if value == "" then None else Some(value), writes);
    }
  }

  lemma InternalEventFields(st: Stores, key: string, value: string, writes: bool, e: Event)
    requires InternalSet(st, key, value, writes).event == Some(e)
    ensures e.key == key && (e.action.Deleted? <==> value == "")
    ensures e.value == (if e.action.Deleted? then e.oldValue else value) && (e.action.Added? ==> e.oldValue == "")
  {
  }

  /** What an event says: whether the key was there before, its old value, and its new value, or for a deletion the
      value that went. */
  lemma EventFields(st: Stores, key: string, value: string, writes: bool, e: Event)
    requires WellRouted(st) && Set(st, key, value, writes).event == Some(e)
    ensures e.key == Trim(key) && OldValue(e) == Lookup(Contents(st), Trim(key))
    ensures e.action.Deleted? <==> Trim(value) == ""
    ensures e.value == (if e.action.Deleted? then e.oldValue else Trim(value)) && (e.action.Added? ==> e.oldValue == "")
  {
    var k, v := Trim(key), Trim(value);
    TrimIdempotent(key);
    InternalEventFields(st, k, v, writes, e);
    InternalSetTells(st, k, v, writes);
  }

  /** One set: the event, if any, turns the old contents into the new; there is one exactly when the contents change. */
  lemma EventTellsChange(st: Stores, key: string, value: string, writes: bool)
    requires WellRouted(st)
    ensures var r := Set(st, key, value, writes);
      && Contents(r.stores) == Replay(Contents(st), AsList(r.event))
      && (r.event.Some? <==> Contents(r.stores) != Contents(st))
  {
    TrimIdempotent(key);
    InternalSetTells(st, Trim(key), Trim(value), writes);
    var r := Set(st, key, value, writes);
    if r.event.Some? {
      ReplayOne(Contents(st), r.event.value);
    }
  }

  // ---------- runs

  datatype Call = Call(key: string, value: string, writes: bool)

  /** The stores after a run of sets, and all events sent. */
  function Run(st: Stores, calls: seq<Call>): (Stores, seq<Event>) {
    if calls == [] then (st, [])
    else
      var last := calls[|calls| - 1];
      var (before, events) := Run(st, calls[..|calls| - 1]);
      var r := Set(before, last.key, last.value, last.writes);
      (r.stores, events + AsList(r.event))
  }

  lemma ReplayMore(m: Table, events: seq<Event>, e: Option<Event>)
    ensures Replay(m, events + AsList(e)) == Replay(Replay(m, events), AsList(e))
  {
    if e.Some? {
      assert (events + [e.value])[..|events|] == events;
      ReplayOne(Replay(m, events), e.value);
    } else {
      assert events + [] == events;
    }
  }

  /** A subscriber that knows the contents at the start and applies every event knows the contents after any run. */
  lemma {:induction false} ReplayGivesContents(st: Stores, calls: seq<Call>)
    requires WellRouted(st)
    ensures var (now, events) := Run(st, calls);
      WellRouted(now) && Replay(Contents(st), events) == Contents(now)
  {
    if calls != [] {
      var last := calls[|calls| - 1];
      var (before, events) := Run(st, calls[..|calls| - 1]);
      ReplayGivesContents(st, calls[..|calls| - 1]);
      SetKeepsRouting(before, last.key, last.value, last.writes);
      EventTellsChange(before, last.key, last.value, last.writes);
      ReplayMore(Contents(st), events, Set(before, last.key, last.value, last.writes).event);
    }
  }

  /** What the last successful set of a run asked for this key; before any, what was there. */
  function LastSet(st: Stores, calls: seq<Call>, key: string): Option<string> {
    if calls == [] then Get(st, key)
    else
      var last, before := calls[|calls| - 1], calls[..|calls| - 1];
      if Trim(last.key) == Trim(key) && Settable(Run(st, before).0, last.key, last.value, last.writes) then
        Wanted(last.value)
      else LastSet(st, before, key)
  }

  lemma SameKey(st: Stores, key: string, other: string)
    requires Trim(key) == Trim(other)
    ensures Get(st, key) == Get(st, other)
  {
  }

  /** In every run, get returns what the last successful set of the key asked for. */
  lemma {:induction false} GetReturnsLastSet(st: Stores, calls: seq<Call>, key: string)
    ensures Get(Run(st, calls).0, key) == LastSet(st, calls, key)
  {
    if calls != [] {
      var last, before := calls[|calls| - 1], calls[..|calls| - 1];
      GetReturnsLastSet(st, before, key);
      GetAfterSet(Run(st, before).0, last.key, last.value, last.writes, key);
      if Trim(last.key) == Trim(key) {
        SameKey(Set(Run(st, before).0, last.key, last.value, last.writes).stores, last.key, key);
      }
    }
  }

  // ---------- list and get

  /** What is listed: every entry of the three stores, the temporary one first, then the persistent one if it is open,
      then the read-only one. */
  lemma ListExactly(st: Stores, key: string)
    ensures Lookup(List(st), key) ==
      if key in st.temp then Some(st.temp[key])
      else if st.persist.Some? && key in st.persist.value then Some(st.persist.value[key])
      else if key in st.ro then Some(st.ro[key])
      else None
  {
  }

  /** The list shows for a trimmed key exactly what get returns. */
  lemma ListAgreesWithGet(st: Stores, key: string)
    requires WellRouted(st) && Trim(key) == key
    ensures Lookup(List(st), key) == Get(st, key)
  {
    match AttributeOf(key)
    case ReadOnly =>
      assert key !in Opened(st.persist) && key !in st.temp;
    case Temp =>
      assert key !in Opened(st.persist) && key !in st.ro;
    case Persist =>
      assert key !in st.temp && key !in st.ro;
  }

  lemma OtherKeyUnread(st: Stores, key: string, attribute: Attribute, asked: string)
    requires key in Opened(st.persist) && asked != key
    ensures StoreGet(st, attribute, asked) == StoreGet(st.(persist := Some(st.persist.value - {key})), attribute, asked)
  {
  }

  /** A key the loader stored untrimmed is listed, but no get can reach it: get looks for the trimmed key. */
  lemma UntrimmedKeyUnreachable(st: Stores, key: string, asked: string)
    requires WellRouted(st) && key in Opened(st.persist) && Trim(key) != key
    ensures key in List(st)
    ensures Get(st, asked) == Get(st.(persist := Some(st.persist.value - {key})), asked)
  {
    TrimIdempotent(asked);
    OtherKeyUnread(st, key, AttributeOf(Trim(asked)), Trim(asked));
  }

  // ---------- the program

  /** rtrim: everything behind the last character that is no space goes. */
  method RTrim(s: string) returns (r: string)
    ensures r == s[..TextEnd(s, |s|)]
  {
    var it := |s|;
    while it > 0 && IsSpace(s[it - 1])
      invariant 0 <= it <= |s| && TextEnd(s, it) == TextEnd(s, |s|)
    {
      it := it - 1;
    }
    r := s[..it];
  }

  method LTrim(s: string) returns (r: string)
    ensures r == s[TextStart(s, 0)..]
  {
    var it := 0;
    while it < |s| && IsSpace(s[it])
      invariant it <= |s| && TextStart(s, it) == TextStart(s, 0)
    {
      it := it + 1;
    }
    r := s[it..];
  }

  method TrimCopy(s: string) returns (r: string)
    ensures r == Trim(s)
  {
    var t := RTrim(s);
    r := LTrim(t);
  }

  /** map::insert for every entry: what is already there stays. */
  method InsertAll(m: Table, into: Table) returns (r: Table)
    ensures r == m + into
  {
    r := into;
    var left := m.Keys;
    while left != {}
      invariant left <= m.Keys
      invariant r == (map k | k in m && k !in left :: m[k]) + into
      decreases |left|
    {
      var k :| k in left;
      if k !in r {
        r := r[k := m[k]];
      }
      left := left - {k};
    }
  }

  class Database {
    var temp: Table
    var persist: Option<Table>
    var ro: Table
    /** What each subscriber has been told so far, and the contents when it subscribed. */
    var told: seq<seq<Event>>
    ghost var bases: seq<Table>

    ghost function Now(): Stores
      reads this
    {
      Stores(temp, persist, ro)
    }

    ghost predicate UpToDate(contents: Table)
      reads this`told, this`bases
    {
      |told| == |bases| && forall i :: 0 <= i < |told| ==> Replay(bases[i], told[i]) == contents
    }

    /** Every subscriber can rebuild the contents from what it knew and what it was told. */
    ghost predicate Valid()
      reads this
    {
      WellRouted(Now()) && UpToDate(Contents(Now()))
    }

    constructor (persist: Option<Table>, ro: Table)
      requires WellRouted(Stores(map[], persist, ro))
      ensures Valid() && Now() == Stores(map[], persist, ro) && told == []
    {
      this.temp, this.persist, this.ro := map[], persist, ro;
      told, bases := [], [];
    }

    method Subscribe()
      requires Valid()
      modifies this`told, this`bases
      ensures Valid() && Now() == old(Now())
      ensures told == old(told) + [[]] && bases == old(bases) + [Contents(Now())]
    {
      told := told + [[]];
      bases := bases + [Contents(Now())];
    }

    method Notify(e: Event)
      modifies this`told
      ensures |told| == |old(told)| && forall i :: 0 <= i < |told| ==> told[i] == old(told)[i] + [e]
    {
      var i := 0;
      while i < |told|
        invariant i <= |told| == |old(told)|
        invariant forall k :: 0 <= k < i ==> told[k] == old(told)[k] + [e]
        invariant forall k :: i <= k < |told| ==> told[k] == old(told)[k]
      {
        told := told[i := told[i] + [e]];
        i := i + 1;
      }
    }

    method Write(attr: Attribute, key: string, value: Option<string>, writes: bool) returns (ret: bool)
      modifies this`temp, this`persist
      ensures (Now(), ret) == StoreWrite(old(Now()), attr, key, value, writes)
    {
      match attr
      case Temp =>
        temp := Written(temp, key, value);
        ret := true;
      case Persist =>
        if persist.None? || key == "" || !writes {
          return false;
        }
        persist := Some(Written(persist.value, key, value));
        ret := true;
      case ReadOnly =>
        ret := false;
    }

    method Read(attr: Attribute, key: string) returns (value: Option<string>)
      ensures value == StoreGet(Now(), attr, key)
    {
      match attr
      case Temp => value := if key in temp then Some(temp[key]) else None;
      case Persist =>
        value := if persist.Some? && key != "" && key in persist.value then Some(persist.value[key]) else None;
      case ReadOnly => value := if key in ro then Some(ro[key]) else None;
    }

    /** The stores and the event of one internal_set, before anyone is told. */
    method Change(key: string, value: string, writes: bool) returns (ret: bool, event: Option<Event>)
      modifies this`temp, this`persist
      ensures Outcome(Now(), ret, event) == InternalSet(old(Now()), key, value, writes)
    {
      event := None;
      if key == "" {
        return false, None;
      }
      var attr := AttributeOf(key);
      if attr.ReadOnly? {
        return false, None;
      }
      var was := Read(attr, key);
      var e: Event;
      if value == "" && was.Some? {
        ret := Write(attr, key, None, writes);
        e := Event(key, Deleted, was.value, was.value);
      } else {
        if was.Some? {
          if was.value == value {
            return true, None;
          }
          e := Event(key, Modified, value, was.value);
        } else {
          if value == "" {
            return true, None;
          }
          e := Event(key, Added, value, "");
        }
        ret := Write(attr, key, Some(value), writes);
      }
      if ret {
        event := Some(e);
      }
    }

    method SetProperty(key: string, value: string, writes: bool) returns (ret: bool)
      requires Valid()
      modifies this
      ensures Valid() && bases == old(bases)
      ensures Now() == Set(old(Now()), key, value, writes).stores && ret == Set(old(Now()), key, value, writes).ret
      ensures |told| == |old(told)|
      ensures forall i :: 0 <= i < |told| ==>
        told[i] == old(told)[i] + AsList(Set(old(Now()), key, value, writes).event)
    {
      ghost var st := Now();
      SetKeepsRouting(st, key, value, writes);
      EventTellsChange(st, key, value, writes);
      var k := TrimCopy(key);
      var v := TrimCopy(value);
      var event: Option<Event>;
      ret, event := Change(k, v, writes);
      Tell(event, Contents(st), Contents(Now()));
    }

    /** Everybody is told of the event, if there is one. */
    method Tell(event: Option<Event>, ghost before: Table, ghost after: Table)
      requires UpToDate(before) && Replay(before, AsList(event)) == after
      modifies this`told
      ensures UpToDate(after)
      ensures |told| == |old(told)| && forall i :: 0 <= i < |told| ==> told[i] == old(told)[i] + AsList(event)
    {
      forall i | 0 <= i < |told|
        ensures Replay(bases[i], told[i] + AsList(event)) == after
      {
        ReplayMore(bases[i], told[i], event);
      }
      if event.Some? {
        Notify(event.value);
      } else {
        assert forall i :: 0 <= i < |told| ==> told[i] + [] == told[i];
      }
    }

    method GetProperty(key: string) returns (value: Option<string>)
      ensures value == Get(Now(), key)
    {
      var k := TrimCopy(key);
      value := Read(AttributeOf(k), k);
    }

    method ListProperties() returns (r: Table)
      ensures r == List(Now())
    {
      r := InsertAll(temp, map[]);
      if persist.Some? {
        r := InsertAll(persist.value, r);
      }
      r := InsertAll(ro, r);
    }
  }
}
