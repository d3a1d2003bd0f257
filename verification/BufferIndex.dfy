/** The index allocator of the text buffers: a free list threaded through the vector of buffers itself. */
module BufferIndex {

  /** The vector and the head of the free list; the other components record who holds what, now and at most ever. */
  datatype State = State(next: seq<int>, free: int, held: set<int>, peak: nat)

  const START := State([], -1, {}, 0)

  /** allocBufferIndex: the head of the free list, or a new place at the end. */
  function Alloc(st: State): (State, int) {
    if 0 <= st.free < |st.next| then
      var res := st.free;
      (Hold(State(st.next[res := -1], st.next[res], st.held, st.peak), res), res)
    else
      var res := |st.next|;
      (Hold(State(st.next + [-1], st.free, st.held, st.peak), res), res)
  }

  function Hold(st: State, idx: int): State {
    var held := st.held + {idx};
    st.(held := held, peak := if |held| > st.peak then |held| else st.peak)
  }

  /** freeBufferIndex: the index becomes the head of the free list. */
  function Free(st: State, idx: int): State {
    if 0 <= idx < |st.next| then State(st.next[idx := st.free], idx, st.held - {idx}, st.peak) else st
  }

  /** A free of an index that nobody holds does not happen: the destructor of the holder calls it once. */
  datatype Event = Construct | Destroy(idx: int)

  function Step(st: State, ev: Event): State {
    match ev
    case Construct => Alloc(st).0
    case Destroy(idx) => if idx in st.held then Free(st, idx) else st
  }

  function Run(events: seq<Event>): State {
    if events == [] then START else Step(Run(events[..|events| - 1]), events[|events| - 1])
  }

  // ---------- the free list

  /** Walking the vector from the head passes these indices, each once, and ends at -1. */
  ghost predicate IsFreeList(next: seq<int>, free: int, chain: seq<int>) {
    && (forall k :: 0 <= k < |chain| ==> 0 <= chain[k] < |next|)
    && (forall j, k :: 0 <= j < k < |chain| ==> chain[j] != chain[k])
    && (if chain == [] then free == -1 else free == chain[0] && next[chain[|chain| - 1]] == -1)
    && (forall j, k :: 0 <= j && k == j + 1 < |chain| ==> next[chain[j]] == chain[k])
  }

  /** The free list is disjoint from the held indices, the two make up the vector, and the vector is as long as the
      number of holders has ever been. */
  ghost predicate Inv(st: State, chain: seq<int>) {
    && IsFreeList(st.next, st.free, chain)
    && (forall k :: 0 <= k < |chain| ==> chain[k] !in st.held)
    && (forall i :: i in st.held ==> 0 <= i < |st.next|)
    && |st.held| + |chain| == |st.next| == st.peak
  }

  lemma AllocKeepsInv(st: State, chain: seq<int>) returns (rest: seq<int>)
    requires Inv(st, chain)
    ensures Inv(Alloc(st).0, rest)
    ensures Alloc(st).1 !in st.held && Alloc(st).0.held == st.held + {Alloc(st).1}
  {
    if chain == [] {
      rest := [];
    } else {
      rest := chain[1..];
      assert forall k :: 0 <= k < |rest| ==> rest[k] == chain[k + 1] && rest[k] != chain[0];
      assert |chain| > 1 ==> st.next[chain[0]] == chain[1];
    }
  }

  lemma FreeKeepsInv(st: State, chain: seq<int>, idx: int) returns (more: seq<int>)
    requires Inv(st, chain) && idx in st.held
    ensures Inv(Free(st, idx), more) && Free(st, idx).held == st.held - {idx}
  {
    more := [idx] + chain;
    assert forall k :: 0 < k < |more| ==> more[k] == chain[k - 1];
  }

  /** In every run the free list is acyclic and disjoint from the held indices, no index is handed to a second holder,
      and the vector is exactly as long as the largest number of holders there has been at one time. */
  lemma {:induction false} RunKeepsInv(events: seq<Event>) returns (chain: seq<int>)
    ensures Inv(Run(events), chain)
    ensures Alloc(Run(events)).1 !in Run(events).held
  {
    if events == [] {
      chain := [];
    } else {
      var st := Run(events[..|events| - 1]);
      var before := RunKeepsInv(events[..|events| - 1]);
      match events[|events| - 1] {
        case Construct =>
          chain := AllocKeepsInv(st, before);
        case Destroy(idx) =>
          if idx in st.held {
            chain := FreeKeepsInv(st, before, idx);
          } else {
            chain := before;
          }
      }
    }
    var unused := AllocKeepsInv(Run(events), chain);
  }

  /** A construction right after a destruction gets the same index back, and the vector does not grow. */
  lemma LastFreedFirstReused(st: State, chain: seq<int>, idx: int)
    requires Inv(st, chain) && idx in st.held
    ensures Alloc(Free(st, idx)).1 == idx && Alloc(Free(st, idx)).0.held == st.held
    ensures Alloc(Free(st, idx)).0.next == st.next[idx := -1] && Alloc(Free(st, idx)).0.free == st.free
  {
    assert st.held - {idx} + {idx} == st.held;
  }

  // ---------- the program

  class TextBuffers {
    var textBuffers: seq<int>
    var freeBufferIndex: int
    ghost var held: set<int>
    ghost var peak: nat
    ghost var chain: seq<int>

    ghost function Now(): State
      reads this
    {
      State(textBuffers, freeBufferIndex, held, peak)
    }

    ghost predicate Valid()
      reads this
    {
      Inv(Now(), chain)
    }

    constructor ()
      ensures Valid() && Now() == START
    {
      textBuffers, freeBufferIndex := [], -1;
      held, peak, chain := {}, 0, [];
    }

    method AllocBufferIndex() returns (res: int)
      requires Valid()
      modifies this
      ensures Valid() && (Now(), res) == Alloc(old(Now()))
      ensures res !in old(held) && held == old(held) + {res} && 0 <= res < |textBuffers|
    {
      ghost var st := Now();
      ghost var rest := AllocKeepsInv(st, chain);
      if freeBufferIndex >= 0 {
        res := freeBufferIndex;
        freeBufferIndex := textBuffers[res];
        textBuffers := textBuffers[res := -1];
      } else {
        res := |textBuffers|;
        textBuffers := textBuffers + [-1];
      }
      held, peak, chain := Alloc(st).0.held, Alloc(st).0.peak, rest;
    }

    method FreeBufferIndex(idx: int)
      requires Valid() && idx in held
      modifies this
      ensures Valid() && Now() == Free(old(Now()), idx)
      ensures held == old(held) - {idx}
    {
      ghost var more := FreeKeepsInv(Now(), chain, idx);
      textBuffers := textBuffers[idx := freeBufferIndex];
      freeBufferIndex := idx;
      held, chain := held - {idx}, more;
    }
  }
}
