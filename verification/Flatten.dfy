/**
 * A forest as a pre-order array with relative pointers, as
 * goimpl/internal/tree/tree.go:313-381 lays it out, and the forest read back from it.
 */
module Flatten {
  import opened Basics
  import opened WireTypes

  datatype Rose = Rose(key: Bytes, value: NodeValue, kids: seq<Rose>)

  function Size(ts: seq<Rose>): (n: nat)
    ensures n >= |ts|
  {
    if ts == [] then 0 else 1 + Size(ts[0].kids) + Size(ts[1..])
  }

  /**
   * The array for a list of siblings, or of chained matches: each tree's root,
   * then its children's array, then the rest. Offsets are deltas; 0 is "none".
   */
  function Flat(ts: seq<Rose>): (a: seq<WireNode>)
    requires Size(ts) <= MAX_INT64
    ensures |a| == Size(ts)
  {
    if ts == [] then []
    else
      var kids, rest := Flat(ts[0].kids), Flat(ts[1..]);
      [WireNode(ts[0].key, ts[0].value,
                OffsetPointer(if kids == [] then 0 else 1),
                OffsetPointer(if rest == [] then 0 else 1 + |kids|))]
      + kids + rest
  }

  // --- reading the array back -----------------------------------------------------

  /** The index that the pointer p, held at index i, leads to. */
  function Target(flat: seq<WireNode>, i: nat, p: NodePointer): Option<nat> {
    if p.OffsetPointer? && p.delta > 0 && i + p.delta < |flat| then Some(i + p.delta) else None
  }

  /** Follows firstChild and nextSibling from index i: that node, its subtree, and its later siblings. */
  function Unflatten(flat: seq<WireNode>, i: nat): seq<Rose>
    requires i < |flat|
    decreases |flat| - i
  {
    var first, next := Target(flat, i, flat[i].firstChild), Target(flat, i, flat[i].nextSibling);
    [Rose(flat[i].key, flat[i].value, if first.Some? then Unflatten(flat, first.value) else [])]
    + (if next.Some? then Unflatten(flat, next.value) else [])
  }

  /** The first entry of a forest's array, and where its two pointers lead. */
  lemma {:induction false} FlatHead(ts: seq<Rose>)
    requires ts != [] && Size(ts) <= MAX_INT64
    ensures var m, head := Size(ts[0].kids), Flat(ts)[0];
            && Flat(ts) == [head] + Flat(ts[0].kids) + Flat(ts[1..])
            && head == WireNode(ts[0].key, ts[0].value,
                                OffsetPointer(if m == 0 then 0 else 1),
                                OffsetPointer(if |ts| == 1 then 0 else 1 + m))
            && Size(ts) == 1 + m + Size(ts[1..])
            && (m == 0 <==> ts[0].kids == []) && (|ts| == 1 <==> Size(ts[1..]) == 0)
  {
  }

  /** flat holds block from index at on. */
  ghost predicate Holds(flat: seq<WireNode>, at: nat, block: seq<WireNode>) {
    at + |block| <= |flat| && flat[at..at + |block|] == block
  }

  lemma SubSlice<T>(s: seq<T>, at: nat, n: nat, lo: nat, hi: nat)
    requires at + n <= |s| && lo <= hi <= n
    ensures s[at..at + n][lo..hi] == s[at + lo..at + hi]
  {
    var a, b := s[at..at + n][lo..hi], s[at + lo..at + hi];
    assert |a| == |b|;
    assert forall i :: 0 <= i < |a| ==> a[i] == s[at + lo + i] == b[i];
  }

  /** A forest's array inside a larger one: its first entry, the children's block, and the rest's. */
  lemma BlockParts(flat: seq<WireNode>, at: nat, ts: seq<Rose>)
    requires ts != [] && Size(ts) <= MAX_INT64 && Holds(flat, at, Flat(ts))
    ensures var m := Size(ts[0].kids);
            && at < |flat| && flat[at] == Flat(ts)[0]
            && Holds(flat, at + 1, Flat(ts[0].kids)) && Holds(flat, at + 1 + m, Flat(ts[1..]))
  {
    hide Flat, Size;
    FlatHead(ts);
    var head, kids, rest := Flat(ts)[0], Flat(ts[0].kids), Flat(ts[1..]);
    var block := flat[at..at + Size(ts)];
    assert block[1..1 + |kids|] == kids && block[1 + |kids|..Size(ts)] == rest;
    SubSlice(flat, at, Size(ts), 1, 1 + |kids|);
    SubSlice(flat, at, Size(ts), 1 + |kids|, Size(ts));
  }

  lemma {:induction false} UnflattenBlock(flat: seq<WireNode>, at: nat, ts: seq<Rose>)
    requires ts != [] && Size(ts) <= MAX_INT64 && Holds(flat, at, Flat(ts))
    ensures at < |flat| && Unflatten(flat, at) == ts
    decreases Size(ts)
  {
    hide Flat, Size, Holds;
    FlatHead(ts);
    BlockParts(flat, at, ts);
    var t, rest := ts[0], ts[1..];
    var m := Size(t.kids);
    if m > 0 {
      UnflattenBlock(flat, at + 1, t.kids);
    }
    if rest != [] {
      UnflattenBlock(flat, at + 1 + m, rest);
    }
    assert ts == [t] + rest;
  }

  /** Following offsets from index 0 rebuilds exactly the forest that was flattened, in order. */
  lemma UnflattenInvertsFlat(ts: seq<Rose>)
    requires ts != [] && Size(ts) <= MAX_INT64
    ensures Unflatten(Flat(ts), 0) == ts
  {
    UnflattenBlock(Flat(ts), 0, ts);
  }

  // --- who points where -------------------------------------------------------------

  datatype Field = First | Next

  function Pointer(n: WireNode, f: Field): NodePointer {
    if f.First? then n.firstChild else n.nextSibling
  }

  predicate PointsAt(flat: seq<WireNode>, i: nat, f: Field, k: int)
    requires i < |flat|
  {
    var p := Pointer(flat[i], f);
    p.OffsetPointer? && p.delta != 0 && i + p.delta == k
  }

  /** The one place that points at index k. */
  function Source(ts: seq<Rose>, k: nat): (nat, Field)
    requires 0 < k < Size(ts)
    decreases Size(ts)
  {
    var kids := Size(ts[0].kids);
    if k == 1 && kids > 0 then (0, First)
    else if k <= kids then var (i, f) := Source(ts[0].kids, k - 1); (i + 1, f)
    else if k == kids + 1 then (0, Next)
    else var (i, f) := Source(ts[1..], k - kids - 1); (i + kids + 1, f)
  }

  lemma {:induction false} SourceInRange(ts: seq<Rose>, k: nat)
    requires 0 < k < Size(ts)
    ensures Source(ts, k).0 < k
    decreases Size(ts)
  {
    var m := Size(ts[0].kids);
    if 1 < k <= m {
      SourceInRange(ts[0].kids, k - 1);
    } else if k > m + 1 {
      SourceInRange(ts[1..], k - m - 1);
    }
  }

  /** Inside a block of the array, pointers are those of the block on its own. */
  lemma PointsInBlock(flat: seq<WireNode>, block: seq<WireNode>, at: nat, i: nat, f: Field, k: int)
    requires Holds(flat, at, block) && at <= i < at + |block|
    ensures PointsAt(flat, i, f, k) <==> PointsAt(block, i - at, f, k - at)
  {
    assert flat[i] == block[i - at];
  }

  /** Which of the three parts of the array the source of k lies in, and where there. */
  lemma SourceByPart(ts: seq<Rose>, i: nat, f: Field, k: nat)
    requires ts != [] && 0 < k < Size(ts) && i < Size(ts)
    ensures var m := Size(ts[0].kids);
            (i, f) == Source(ts, k) <==>
              if i == 0 then (f == First && m > 0 && k == 1) || (f == Next && k == m + 1)
              else if i <= m then 1 < k <= m && (i - 1, f) == Source(ts[0].kids, k - 1)
              else k > m + 1 && (i - m - 1, f) == Source(ts[1..], k - m - 1)
  {
    hide Size;
    FlatHeadSize(ts);
    if 1 < k <= Size(ts[0].kids) {
      SourceInRange(ts[0].kids, k - 1);
    }
  }

  lemma FlatHeadSize(ts: seq<Rose>)
    requires ts != []
    ensures Size(ts) == 1 + Size(ts[0].kids) + Size(ts[1..])
  {
  }

  /**
   * Every index after 0 is the target of exactly one pointer, which lies before it;
   * no pointer leads anywhere else.
   */
  lemma {:induction false} OnePointerEach(ts: seq<Rose>, i: nat, f: Field, k: int)
    requires ts != [] && Size(ts) <= MAX_INT64 && i < Size(ts)
    ensures PointsAt(Flat(ts), i, f, k) <==> 0 < k < Size(ts) && (i, f) == Source(ts, k)
    ensures PointsAt(Flat(ts), i, f, k) ==> i < k
    decreases Size(ts)
  {
    hide Flat, Size, Source, PointsAt, Holds;
    FlatHead(ts);
    var kids, rest := ts[0].kids, ts[1..];
    var m := Size(kids);
    var flat := Flat(ts);
    assert Holds(flat, 0, flat) by { WholeHolds(flat); }
    BlockParts(flat, 0, ts);
    if 0 < k < Size(ts) {
      SourceByPart(ts, i, f, k);
    }
    if i == 0 {
      HeadPoints(ts, f, k);
    } else if i <= m {
      assert kids != [];
      PointsInBlock(flat, Flat(kids), 1, i, f, k);
      OnePointerEach(kids, i - 1, f, k - 1);
    } else {
      assert rest != [];
      PointsInBlock(flat, Flat(rest), 1 + m, i, f, k);
      OnePointerEach(rest, i - m - 1, f, k - m - 1);
    }
  }

  lemma WholeHolds(flat: seq<WireNode>)
    ensures Holds(flat, 0, flat)
  {
  }

  lemma HeadPoints(ts: seq<Rose>, f: Field, k: int)
    requires ts != [] && Size(ts) <= MAX_INT64
    ensures var m := Size(ts[0].kids);
            PointsAt(Flat(ts), 0, f, k) <==> (f == First && m > 0 && k == 1) || (f == Next && |ts| > 1 && k == m + 1)
  {
    hide Flat, Size;
    FlatHead(ts);
  }

  /** Flattening writes offsets only, each zero or positive and inside the array. */
  lemma {:induction false} OffsetsInside(ts: seq<Rose>, i: nat, f: Field)
    requires ts != [] && Size(ts) <= MAX_INT64 && i < Size(ts)
    ensures var p := Pointer(Flat(ts)[i], f);
            p.OffsetPointer? && (p.delta == 0 || (p.delta > 0 && i + p.delta < Size(ts)))
    decreases Size(ts)
  {
    hide Flat, Size;
    FlatHead(ts);
    var kids, rest := ts[0].kids, ts[1..];
    var m := Size(kids);
    WholeHolds(Flat(ts));
    BlockParts(Flat(ts), 0, ts);
    if 0 < i <= m {
      assert kids != [];
      assert Flat(ts)[i] == Flat(kids)[i - 1];
      OffsetsInside(kids, i - 1, f);
    } else if i > m {
      assert rest != [];
      assert Flat(ts)[i] == Flat(rest)[i - m - 1];
      OffsetsInside(rest, i - m - 1, f);
    }
  }
}
