/** Sequences of values in memory, one encoded behind the other, and the loop that reads them back under the control of
    a format. What is proved here for the whole sequence is assumed of one value only. */
module FormatWalk {

  import opened Wrappers

  /** These bytes stand in memory at this position. */
  ghost predicate StandsAt(bytes: seq<byte>, mem: seq<byte>, pos: nat) {
    pos + |bytes| <= |mem| && forall k :: 0 <= k < |bytes| ==> mem[pos + k] == bytes[k]
  }

  lemma StandsApart(a: seq<byte>, b: seq<byte>, mem: seq<byte>, pos: nat)
    requires StandsAt(a + b, mem, pos)
    ensures StandsAt(a, mem, pos) && StandsAt(b, mem, pos + |a|)
  {
    forall k | 0 <= k < |a|
      ensures mem[pos + k] == a[k]
    {
      assert (a + b)[k] == a[k];
    }
    forall k | 0 <= k < |b|
      ensures mem[pos + |a| + k] == b[k]
    {
      assert (a + b)[|a| + k] == b[k];
    }
  }

  /** The bytes of values i to k, one behind the other. */
  function Joined<P>(piece: P -> seq<byte>, ps: seq<P>, i: nat, k: nat): seq<byte>
    requires k <= |ps|
    decreases k - i
  {
    if i >= k then [] else piece(ps[i]) + Joined(piece, ps, i + 1, k)
  }

  /** One value stored and the number returned, an error, or an access outside the memory given. The number is the
      bytes taken; a reader may also return a number that is not positive. */
  datatype Item<A> = Got(arg: A, used: int) | Refused | Outside

  /** The values stored, first to last. */
  datatype ArgList<A> = Nil | Cons(head: A, tail: ArgList<A>)

  datatype Unpacked<A> = Unpacked(args: ArgList<A>, used: int, outside: bool)

  /** Reads one value of a kind: from where, and how much was received from there on. */
  type Reader<!K, A> = (K, nat, int) -> Item<A>

  /** The format loop. It stops behind an argument that returns no positive number, which is stored and not counted. */
  function Walk<K, A>(read: Reader<K, A>, fmt: seq<K>, i: nat, pos: nat, len: int): Unpacked<A>
    decreases |fmt| - i
  {
    if i >= |fmt| then Unpacked(Nil, 0, false)
    else
      match read(fmt[i], pos, len)
      case Refused => Unpacked(Nil, 0, false)
      case Outside => Unpacked(Nil, 0, true)
      case Got(arg, used) =>
        if used <= 0 then Unpacked(Cons(arg, Nil), 0, false)
        else
          var rest := Walk(read, fmt, i + 1, pos + used, len - used);
          Unpacked(Cons(arg, rest.args), used + rest.used, rest.outside)
  }

  /** The loop stops behind an error and behind an argument that returned no positive number. */
  lemma WalkStop<K, A>(read: Reader<K, A>, fmt: seq<K>, i: nat, pos: nat, len: int)
    requires i < |fmt|
    ensures var item := read(fmt[i], pos, len);
      && (!item.Got? ==> Walk(read, fmt, i, pos, len) == Unpacked(Nil, 0, item.Outside?))
      && (item.Got? && item.used <= 0 ==> Walk(read, fmt, i, pos, len) == Unpacked(Cons(item.arg, Nil), 0, false))
  {
  }

  lemma WalkOn<K, A>(read: Reader<K, A>, fmt: seq<K>, i: nat, pos: nat, len: int, arg: A, n: nat)
    requires i < |fmt| && read(fmt[i], pos, len) == Got(arg, n) && n > 0
    ensures var more := Walk(read, fmt, i + 1, pos + n, len - n);
      Walk(read, fmt, i, pos, len) == Unpacked(Cons(arg, more.args), n + more.used, more.outside)
  {
  }

  /** How values are sent: the kind in the format, whether it can be sent, its bytes, and what is to arrive. */
  datatype Sending<!P, K, A> = Sending(kind: P -> K, able: P -> bool, piece: P -> seq<byte>, give: P -> A)

  /** One value is read back from wherever it stands, in exactly its bytes. */
  ghost predicate TakesBack<P(!new), K, A>(s: Sending<P, K, A>, read: Reader<K, A>, mem: seq<byte>) {
    forall p: P, pos: nat, len: int {:trigger StandsAt(s.piece(p), mem, pos), read(s.kind(p), pos, len)} ::
      s.able(p) && |s.piece(p)| <= len && StandsAt(s.piece(p), mem, pos) ==>
        |s.piece(p)| > 0 && read(s.kind(p), pos, len) == Got(s.give(p), |s.piece(p)|)
  }

  function Given<P, A>(give: P -> A, ps: seq<P>, i: nat): ArgList<A>
    decreases |ps| - i
  {
    if i >= |ps| then Nil else Cons(give(ps[i]), Given(give, ps, i + 1))
  }

  /** This format goes with these values, and all of them can be sent. */
  ghost predicate Fitting<P, K, A>(s: Sending<P, K, A>, fmt: seq<K>, ps: seq<P>) {
    |fmt| == |ps| && forall j :: 0 <= j < |ps| ==> fmt[j] == s.kind(ps[j]) && s.able(ps[j])
  }

  lemma FirstBack<P(!new), K, A>(s: Sending<P, K, A>, read: Reader<K, A>, fmt: seq<K>, ps: seq<P>, i: nat,
                                 mem: seq<byte>, pos: nat, len: int)
    requires TakesBack(s, read, mem) && Fitting(s, fmt, ps) && i < |ps|
    requires |Joined(s.piece, ps, i, |ps|)| <= len && StandsAt(Joined(s.piece, ps, i, |ps|), mem, pos)
    ensures var n := |s.piece(ps[i])|;
      && 0 < n && read(fmt[i], pos, len) == Got(s.give(ps[i]), n)
      && |Joined(s.piece, ps, i, |ps|)| == n + |Joined(s.piece, ps, i + 1, |ps|)|
      && StandsAt(Joined(s.piece, ps, i + 1, |ps|), mem, pos + n)
  {
    StandsApart(s.piece(ps[i]), Joined(s.piece, ps, i + 1, |ps|), mem, pos);
    assert read(s.kind(ps[i]), pos, len) == Got(s.give(ps[i]), |s.piece(ps[i])|);
  }

  /** If reading takes back one value, the loop takes back all of them, in exactly the bytes they make. */
  lemma {:induction false} WalkBack<P(!new), K, A>(s: Sending<P, K, A>, read: Reader<K, A>, fmt: seq<K>, ps: seq<P>,
                                                   i: nat, mem: seq<byte>, pos: nat, len: int)
    requires TakesBack(s, read, mem) && Fitting(s, fmt, ps) && i <= |ps|
    requires |Joined(s.piece, ps, i, |ps|)| <= len && StandsAt(Joined(s.piece, ps, i, |ps|), mem, pos)
    ensures Walk(read, fmt, i, pos, len) == Unpacked(Given(s.give, ps, i), |Joined(s.piece, ps, i, |ps|)|, false)
    decreases |ps| - i
  {
    if i < |ps| {
      var n := |s.piece(ps[i])|;
      FirstBack(s, read, fmt, ps, i, mem, pos, len);
      WalkBack(s, read, fmt, ps, i + 1, mem, pos + n, len - n);
      WalkOn(read, fmt, i, pos, len, s.give(ps[i]), n);
    }
  }
}
