/** What the environment parser makes of an area, said of its bytes themselves. */
module EnvText {
  import opened Wrappers
  import opened EnvCodec

  ghost predicate NoneOf(d: seq<byte>, p: nat, q: nat, c: byte) {
    p <= q <= |d| && forall k :: p <= k < q ==> d[k] != c && d[k] != 0
  }

  /** What the parser makes of the bytes at p, up to the next '=' or NUL at q and the NUL behind it at z: a record with
      its key cut to 255 bytes and its value to 4095, and then the rest; but a record without '=', or without a value,
      is the last, and has only what was found of it. */
  lemma ParseExactly(d: seq<byte>, p: nat, q: nat, z: nat, unset: seq<byte>)
    requires Terminated(d) && NoneOf(d, p, q, '=' as int) && q <= z < |d|
    requires d[q] == '=' as int || d[q] == 0
    requires d[q] == '=' as int ==> q < z && NoneOf(d, q + 1, z, 0) && d[z] == 0
    ensures ParseRecords(d, |d|, unset) == []
    ensures ParseRecords(d, p, unset) ==
      if d[p] == 0 then []
      else if d[q] == 0 then [Entry(unset, None)]
      else
        var key := if q - p <= 255 then d[p..q] else d[p..p + 255];
        var value := if z - q - 1 <= 4095 then d[q + 1..z] else d[q + 1..q + 1 + 4095];
        if q + 1 == z then [Entry(key, None)] else [Entry(key, Some(value))] + ParseRecords(d, z + 1, [])
  {
    if d[p] == 0 {
      assert ParseRecords(d, p, unset) == [];
    } else if d[q] == 0 {
      SeekIs(d, p, EQ, q);
    } else if q + 1 == z {
      NoValue(d, p, q, unset);
    } else {
      WholeRecord(d, p, q, z, unset);
    }
  }

  lemma NoValue(d: seq<byte>, p: nat, q: nat, unset: seq<byte>)
    requires Terminated(d) && NoneOf(d, p, q, '=' as int) && q + 1 < |d|
    requires d[p] != 0 && d[q] == '=' as int && d[q + 1] == 0
    ensures ParseRecords(d, p, unset) == [Entry(if q - p <= 255 then d[p..q] else d[p..p + 255], None)]
  {
    KeyFirst(d, p, q, unset);
    ClippedSlice(d, p, q, 255);
  }

  lemma WholeRecord(d: seq<byte>, p: nat, q: nat, z: nat, unset: seq<byte>)
    requires Terminated(d) && NoneOf(d, p, q, '=' as int) && q + 1 < z < |d|
    requires d[p] != 0 && d[q] == '=' as int && NoneOf(d, q + 1, z, 0) && d[z] == 0
    ensures ParseRecords(d, p, unset) ==
      [Entry(if q - p <= 255 then d[p..q] else d[p..p + 255],
             Some(if z - q - 1 <= 4095 then d[q + 1..z] else d[q + 1..q + 1 + 4095]))] + ParseRecords(d, z + 1, [])
  {
    ClippedRecord(d, p, q, z, unset);
    ClippedSlice(d, p, q, 255);
    ClippedSlice(d, q + 1, z, 4095);
  }

  lemma ClippedRecord(d: seq<byte>, p: nat, q: nat, z: nat, unset: seq<byte>)
    requires Terminated(d) && NoneOf(d, p, q, EQ) && q + 1 < z < |d|
    requires d[p] != 0 && d[q] == EQ && NoneOf(d, q + 1, z, NUL) && d[z] == NUL
    ensures ParseRecords(d, p, unset)
         == [Entry(Clip(d[p..q], MAX_KEY), Some(Clip(d[q + 1..z], MAX_VALUE)))] + ParseRecords(d, z + 1, [])
  {
    KeyFirst(d, p, q, unset);
    SeekIs(d, q + 1, NUL, z);
    ValueThenRest(d, q + 1, z, Clip(d[p..q], MAX_KEY));
  }

  lemma KeyFirst(d: seq<byte>, p: nat, q: nat, unset: seq<byte>)
    requires Terminated(d) && NoneOf(d, p, q, EQ) && q < |d| && d[p] != 0 && d[q] == EQ
    ensures ParseRecords(d, p, unset) == ParseValue(d, q + 1, Clip(d[p..q], MAX_KEY))
  {
    SeekIs(d, p, EQ, q);
  }

  lemma ValueThenRest(d: seq<byte>, p: nat, z: nat, key: seq<byte>)
    requires Terminated(d) && p < z < |d| && d[p] != 0 && Seek(d, p, NUL) == z
    ensures ParseValue(d, p, key) == [Entry(key, Some(Clip(d[p..z], MAX_VALUE)))] + ParseRecords(d, z + 1, [])
  {
  }

  lemma ClippedSlice(d: seq<byte>, p: nat, q: nat, n: nat)
    requires p <= q <= |d|
    ensures Clip(d[p..q], n) == if q - p <= n then d[p..q] else d[p..p + n]
  {
    if q - p > n {
      assert d[p..q][..n] == d[p..p + n];
    }
  }
}
