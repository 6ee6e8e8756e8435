/**
 * Undo by replaying old values in the order they were recorded, as the rollback of
 * goimpl/internal/tree/tree.go:895-901 does, and exactly when that restores
 * everything.
 */
module UndoLog {
  import opened Basics

  /** What is written to x, in order. */
  function On<K(==), V>(writes: seq<(K, V)>, x: K): seq<V> {
    if writes == [] then []
    else
      var n := |writes| - 1;
      On(writes[..n], x) + (if writes[n].0 == x then [writes[n].1] else [])
  }

  /** x's value after the writes, b being its value before them. */
  function After<K(==), V>(b: V, writes: seq<(K, V)>, x: K): V {
    var w := On(writes, x);
    if w == [] then b else w[|w| - 1]
  }

  /** The undo records: for each write, its target and what it held just before. */
  function Olds<K(==), V>(base: map<K, V>, writes: seq<(K, V)>): seq<(K, V)>
    requires forall i :: 0 <= i < |writes| ==> writes[i].0 in base
  {
    if writes == [] then []
    else
      var n := |writes| - 1;
      Olds(base, writes[..n]) + [(writes[n].0, After(base[writes[n].0], writes[..n], writes[n].0))]
  }

  /** Setting back first record first: a later record for the same target wins. */
  function Replay<K(==), V>(cur: map<K, V>, log: seq<(K, V)>): map<K, V> {
    if log == [] then cur
    else
      var n := |log| - 1;
      Replay(cur, log[..n])[log[n].0 := log[n].1]
  }

  /**
   * What a caller can check beforehand: x is written at most once, or the write
   * before the last one happens to put back x's first value.
   */
  predicate Undoes<V(==)>(b: V, w: seq<V>) {
    |w| <= 1 || w[|w| - 2] == b
  }

  /** The value replaying leaves in x: what x held just before the last write to it. */
  function Restored<V>(b: V, w: seq<V>): V {
    if |w| <= 1 then b else w[|w| - 2]
  }

  lemma OnSnoc<K, V>(writes: seq<(K, V)>, k: K, v: V, x: K)
    ensures On(writes + [(k, v)], x) == On(writes, x) + (if k == x then [v] else [])
  {
    assert (writes + [(k, v)])[..|writes|] == writes;
  }

  lemma {:induction false} OnConcat<K, V>(a: seq<(K, V)>, b: seq<(K, V)>, x: K)
    ensures On(a + b, x) == On(a, x) + On(b, x)
  {
    if b == [] {
      assert a + b == a;
    } else {
      var n := |b| - 1;
      OnConcat(a, b[..n], x);
      assert a + b == (a + b[..n]) + [b[n]];
      OnSnoc(a + b[..n], b[n].0, b[n].1, x);
    }
  }

  lemma {:induction false} ReplayOlds<K, V>(cur: map<K, V>, base: map<K, V>, writes: seq<(K, V)>, x: K)
    requires forall i :: 0 <= i < |writes| ==> writes[i].0 in base
    requires cur.Keys == base.Keys && x in base && cur[x] == After(base[x], writes, x)
    ensures var r := Replay(cur, Olds(base, writes)); r.Keys == base.Keys && r[x] == Restored(base[x], On(writes, x))
  {
    ReplayPart(cur, base, writes, x, |writes|);
    assert writes[..|writes|] == writes;
  }

  lemma {:induction false} ReplayPart<K, V>(cur: map<K, V>, base: map<K, V>, writes: seq<(K, V)>, x: K, n: nat)
    requires n <= |writes| && forall i :: 0 <= i < |writes| ==> writes[i].0 in base
    requires cur.Keys == base.Keys && x in base
    ensures var r := Replay(cur, Olds(base, writes[..n]));
            && r.Keys == base.Keys
            && r[x] == (if On(writes[..n], x) == [] then cur[x] else Restored(base[x], On(writes[..n], x)))
  {
    if n > 0 {
      var part := writes[..n - 1];
      var (k, v) := writes[n - 1];
      assert writes[..n] == part + [(k, v)] && writes[..n][..n - 1] == part;
      ReplayPart(cur, base, writes, x, n - 1);
      OnSnoc(part, k, v, x);
      var olds := Olds(base, part);
      assert Olds(base, writes[..n]) == olds + [(k, After(base[k], part, k))];
      assert (olds + [(k, After(base[k], part, k))])[..|olds|] == olds;
    }
  }

  lemma {:induction false} OldsTargets<K, V>(base: map<K, V>, writes: seq<(K, V)>)
    requires forall i :: 0 <= i < |writes| ==> writes[i].0 in base
    ensures |Olds(base, writes)| == |writes|
    ensures forall i :: 0 <= i < |writes| ==> Olds(base, writes)[i].0 == writes[i].0
  {
    if writes != [] {
      OldsTargets(base, writes[..|writes| - 1]);
    }
  }

  lemma {:induction false} ReplayKeys<K, V>(cur: map<K, V>, log: seq<(K, V)>)
    requires forall i :: 0 <= i < |log| ==> log[i].0 in cur
    ensures Replay(cur, log).Keys == cur.Keys
  {
    if log != [] {
      ReplayKeys(cur, log[..|log| - 1]);
    }
  }

  /** Replaying the records restores every target exactly when each one's writes undo themselves. */
  lemma ReplayRestores<K, V>(cur: map<K, V>, base: map<K, V>, writes: seq<(K, V)>)
    requires forall i :: 0 <= i < |writes| ==> writes[i].0 in base
    requires cur.Keys == base.Keys && forall x :: x in base ==> cur[x] == After(base[x], writes, x)
    ensures Replay(cur, Olds(base, writes)) == base <==> forall x :: x in base ==> Undoes(base[x], On(writes, x))
  {
    var r := Replay(cur, Olds(base, writes));
    ReplayAll(cur, base, writes);
    hide Replay, Olds, On, After;
    if forall x :: x in base ==> Undoes(base[x], On(writes, x)) {
      assert forall x :: x in base ==> r[x] == base[x];
      assert r == base;
    } else {
      var x :| x in base && !Undoes(base[x], On(writes, x));
      assert r[x] != base[x];
    }
  }

  lemma ReplayAll<K, V>(cur: map<K, V>, base: map<K, V>, writes: seq<(K, V)>)
    requires forall i :: 0 <= i < |writes| ==> writes[i].0 in base
    requires cur.Keys == base.Keys && forall x :: x in base ==> cur[x] == After(base[x], writes, x)
    ensures Replay(cur, Olds(base, writes)).Keys == base.Keys
    ensures forall x :: x in base ==> Replay(cur, Olds(base, writes))[x] == Restored(base[x], On(writes, x))
  {
    hide Replay, Olds, On, Restored;
    OldsTargets(base, writes);
    ReplayKeys(cur, Olds(base, writes));
    forall x | x in base
      ensures Replay(cur, Olds(base, writes))[x] == Restored(base[x], On(writes, x))
    {
      ReplayOlds(cur, base, writes, x);
    }
  }
}
