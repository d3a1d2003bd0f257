/**
 * Repeated application and left folds, with the facts about them that the CRC proofs rest on. Everything here is
 * generic, so that these proofs never look inside a machine word.
 */
module Folding {

  function Iterate<T>(f: T -> T, x: T, n: nat): T
    decreases n, x
  {
    if n == 0 then x else Iterate(f, f(x), n - 1)
  }

  function Fold<R, B>(f: (R, B) -> R, c: R, s: seq<B>): R {
    if s == [] then c else f(Fold(f, c, s[..|s| - 1]), s[|s| - 1])
  }

  ghost predicate Injective<T(!new)>(f: T -> T) {
    forall x, y :: f(x) == f(y) ==> x == y
  }

  ghost predicate Preserves<T(!new)>(f: T -> T, op: (T, T) -> T) {
    forall x, y :: f(op(x, y)) == op(f(x), f(y))
  }

  ghost predicate LeftInjective<R(!new), B(!new)>(f: (R, B) -> R) {
    forall c, d, b :: f(c, b) == f(d, b) ==> c == d
  }

  lemma {:induction false} IteratePreserves<T(!new)>(f: T -> T, op: (T, T) -> T, a: T, b: T, n: nat)
    requires Preserves(f, op)
    ensures Iterate(f, op(a, b), n) == op(Iterate(f, a, n), Iterate(f, b, n))
    decreases n
  {
    if n > 0 {
      IteratePreserves(f, op, f(a), f(b), n - 1);
    }
  }

  lemma {:induction false} IterateInjective<T(!new)>(f: T -> T, a: T, b: T, n: nat)
    requires Injective(f)
    requires Iterate(f, a, n) == Iterate(f, b, n)
    ensures a == b
    decreases n
  {
    if n > 0 {
      IterateInjective(f, f(a), f(b), n - 1);
    }
  }

  lemma EightTurns<T>(f: T -> T, x0: T, x1: T, x2: T, x3: T, x4: T, x5: T, x6: T, x7: T, x8: T)
    requires f(x0) == x1 && f(x1) == x2 && f(x2) == x3 && f(x3) == x4
    requires f(x4) == x5 && f(x5) == x6 && f(x6) == x7 && f(x7) == x8
    ensures Iterate(f, x0, 8) == x8
  {
    assert Iterate(f, x7, 1) == x8;
    assert Iterate(f, x6, 2) == x8;
    assert Iterate(f, x5, 3) == x8;
    assert Iterate(f, x4, 4) == x8;
    assert Iterate(f, x3, 5) == x8;
    assert Iterate(f, x2, 6) == x8;
    assert Iterate(f, x1, 7) == x8;
  }

  lemma {:induction false} FoldConcat<R, B>(f: (R, B) -> R, c: R, s: seq<B>, t: seq<B>)
    ensures Fold(f, c, s + t) == Fold(f, Fold(f, c, s), t)
    decreases |t|
  {
    if t == [] {
      assert s + t == s;
    } else {
      assert (s + t)[..|s + t| - 1] == s + t[..|t| - 1];
      FoldConcat(f, c, s, t[..|t| - 1]);
    }
  }

  lemma {:induction false} FoldInjective<R(!new), B(!new)>(f: (R, B) -> R, c: R, d: R, s: seq<B>)
    requires LeftInjective(f)
    requires Fold(f, c, s) == Fold(f, d, s)
    ensures c == d
  {
    if s != [] {
      FoldInjective(f, c, d, s[..|s| - 1]);
    }
  }

  /**
   * A register that mixes each symbol in with `mix` and then steps. `lift` turns a symbol into a word and `up` makes
   * room below it for one more; `Pack` puts several symbols into one word, the first lowest.
   */
  datatype Register<!R, !B> = Register(zero: R, mix: (R, R) -> R, step: R -> R, lift: B -> R, up: R -> R) {
    function Take(c: R, b: B): R {
      step(mix(c, lift(b)))
    }

    function Pack(s: seq<B>): R {
      if s == [] then zero else mix(lift(s[0]), up(Pack(s[1..])))
    }
  }

  /** The laws of such a register, when a word has room for `width` symbols. */
  ghost predicate Lawful<R(!new), B(!new)>(m: Register<R, B>, width: nat) {
    && Injective(m.step)
    && Preserves(m.step, m.mix)
    && (forall c :: m.mix(c, m.zero) == c)
    && (forall c, d, e :: m.mix(c, m.mix(d, e)) == m.mix(m.mix(c, d), e))
    && (forall c, d, e :: m.mix(c, d) == m.mix(c, e) ==> d == e)
    && (forall c, d, e :: m.mix(c, e) == m.mix(d, e) ==> c == d)
    && (forall s: seq<B> :: |s| < width ==> m.step(m.up(m.Pack(s))) == m.Pack(s))
    && (forall s: seq<B>, t: seq<B> :: |s| == |t| <= width && m.Pack(s) == m.Pack(t) ==> s == t)
  }

  /** Taking up to `width` symbols equals mixing them in at once and then doing all the steps. */
  lemma {:induction false} TakeAll<R(!new), B(!new)>(m: Register<R, B>, width: nat, c: R, s: seq<B>)
    requires Lawful(m, width) && |s| <= width
    ensures Fold(m.Take, c, s) == Iterate(m.step, m.mix(c, m.Pack(s)), |s|)
    decreases |s|
  {
    if s != [] {
      var b, rest := s[0], s[1..];
      assert s == [b] + rest && [b][..0] == [];
      FoldConcat(m.Take, c, [b], rest);
      assert Fold(m.Take, c, [b]) == m.Take(Fold(m.Take, c, []), b) == m.Take(c, b);
      TakeAll(m, width, m.Take(c, b), rest);
      calc {
        m.step(m.mix(c, m.Pack(s)));
        m.step(m.mix(m.mix(c, m.lift(b)), m.up(m.Pack(rest))));
        m.mix(m.Take(c, b), m.step(m.up(m.Pack(rest))));
        m.mix(m.Take(c, b), m.Pack(rest));
      }
    }
  }

  ghost predicate AgreeOutside<B>(a: seq<B>, b: seq<B>, from: nat, to: nat) {
    |a| == |b| && forall k :: 0 <= k < |a| && !(from <= k < to) ==> a[k] == b[k]
  }

  lemma {:induction false} WindowIsolated<R(!new), B(!new)>(
      f: (R, B) -> R, c: R, pre: seq<B>, s: seq<B>, t: seq<B>, post: seq<B>)
    requires LeftInjective(f)
    requires Fold(f, c, pre + (s + post)) == Fold(f, c, pre + (t + post))
    ensures Fold(f, Fold(f, c, pre), s) == Fold(f, Fold(f, c, pre), t)
  {
    var d := Fold(f, c, pre);
    FoldConcat(f, c, pre, s + post);
    FoldConcat(f, c, pre, t + post);
    FoldConcat(f, d, s, post);
    FoldConcat(f, d, t, post);
    FoldInjective(f, Fold(f, d, s), Fold(f, d, t), post);
  }

  lemma WindowInjective<R(!new), B(!new)>(m: Register<R, B>, width: nat, c: R, s: seq<B>, t: seq<B>)
    requires Lawful(m, width) && |s| == |t| <= width
    requires Fold(m.Take, c, s) == Fold(m.Take, c, t)
    ensures s == t
  {
    TakeAll(m, width, c, s);
    TakeAll(m, width, c, t);
    IterateInjective(m.step, m.mix(c, m.Pack(s)), m.mix(c, m.Pack(t)), |s|);
  }

  lemma TakeLeftInjective<R(!new), B(!new)>(m: Register<R, B>, width: nat)
    requires Lawful(m, width)
    ensures LeftInjective(m.Take)
  {
    forall c, d, b | m.Take(c, b) == m.Take(d, b) ensures c == d {
      assert m.mix(c, m.lift(b)) == m.mix(d, m.lift(b));
    }
  }

  lemma SplitWindow<B>(a: seq<B>, b: seq<B>, from: nat, width: nat)
      returns (pre: seq<B>, s: seq<B>, t: seq<B>, post: seq<B>)
    requires AgreeOutside(a, b, from, from + width)
    ensures a == pre + (s + post) && b == pre + (t + post)
    ensures |s| == |t| <= width
  {
    var i := if from <= |a| then from else |a|;
    var j := if from + width <= |a| then from + width else |a|;
    pre, s, t, post := a[..i], a[i..j], b[i..j], a[j..];
  }

  /** Two inputs that agree outside a window of `width` symbols leave the register equal only if they are equal. */
  lemma BurstDistinguished<R(!new), B(!new)>(
      m: Register<R, B>, width: nat, c: R, a: seq<B>, b: seq<B>, from: nat)
    requires Lawful(m, width) && AgreeOutside(a, b, from, from + width)
    requires Fold(m.Take, c, a) == Fold(m.Take, c, b)
    ensures a == b
  {
    var pre, s, t, post := SplitWindow(a, b, from, width);
    TakeLeftInjective(m, width);
    WindowIsolated(m.Take, c, pre, s, t, post);
    WindowInjective(m, width, Fold(m.Take, c, pre), s, t);
  }
}
