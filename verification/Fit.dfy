/**
 * Cutting a flattened result to a size budget, after
 * goimpl/internal/tree/tree.go:430-518: the binary search with its bounded
 * further look, and the rewriting of pointers that cross the cut.
 */
module Fit {
  import opened Basics
  import opened WireTypes
  import opened Expression
  import opened Flatten

  const DIP_SPAN: nat := 32

  // --- one window -------------------------------------------------------------------

  function FixPointer(p: NodePointer, i: nat, end: nat, base: Bytes): NodePointer {
    if p.OffsetPointer? && p.delta != 0 && i + p.delta >= end
    then AbsolutePointer(ResumeExpression(base, i + p.delta))
    else p
  }

  function FixNode(n: WireNode, i: nat, end: nat, base: Bytes): WireNode {
    n.(firstChild := FixPointer(n.firstChild, i, end, base), nextSibling := FixPointer(n.nextSibling, i, end, base))
  }

  /** flat[resume..resume+n] with each pointer at or past the end turned into a continuation. */
  function Window(flat: seq<WireNode>, resume: nat, n: nat, base: Bytes): (w: seq<WireNode>)
    requires resume + n <= |flat|
    ensures |w| == n
  {
    seq(n, j requires 0 <= j < n => FixNode(flat[resume + j], resume + j, resume + n, base))
  }

  /** fixupWindow: the slice is copied, then its pointers rewritten in place. */
  method FixupWindow(flat: seq<WireNode>, resume: nat, n: nat, base: Bytes) returns (w: seq<WireNode>)
    requires resume + n <= |flat|
    ensures w == Window(flat, resume, n, base)
  {
    var end := resume + n;
    var included := new WireNode[n](j requires 0 <= j < n => flat[resume + j]);
    for j := 0 to n
      invariant forall k :: 0 <= k < j ==> included[k] == FixNode(flat[resume + k], resume + k, end, base)
      invariant forall k :: j <= k < n ==> included[k] == flat[resume + k]
    {
      var i := resume + j;
      var first := included[j].firstChild;
      if first.OffsetPointer? && first.delta != 0 && i + first.delta >= end {
        included[j] := included[j].(firstChild := AbsolutePointer(ResumeExpression(base, i + first.delta)));
      }
      var next := included[j].nextSibling;
      if next.OffsetPointer? && next.delta != 0 && i + next.delta >= end {
        included[j] := included[j].(nextSibling := AbsolutePointer(ResumeExpression(base, i + next.delta)));
      }
    }
    return included[..];
  }

  /** A continuation pointer of this base, turned back into an offset from index i. */
  function Unfix(p: NodePointer, i: nat, base: Bytes): NodePointer {
    if p.AbsolutePointer? then
      var (b, k) := SplitResumeSuffix(p.expr);
      if b == base && -MAX_INT64 <= k - i <= MAX_INT64 then OffsetPointer(k - i) else p
    else p
  }

  function UnfixNodes(nodes: seq<WireNode>, start: nat, base: Bytes): seq<WireNode> {
    seq(|nodes|, j requires 0 <= j < |nodes| =>
      nodes[j].(firstChild := Unfix(nodes[j].firstChild, start + j, base),
                nextSibling := Unfix(nodes[j].nextSibling, start + j, base)))
  }

  /** An array whose pointers are offsets that stay inside it. */
  ghost predicate Relative(flat: seq<WireNode>) {
    && |flat| <= MAX_INT64
    && forall i, f :: 0 <= i < |flat| ==> RelativePointer(flat, i, f)
  }

  predicate RelativePointer(flat: seq<WireNode>, i: nat, f: Field)
    requires i < |flat|
  {
    var p := Pointer(flat[i], f);
    p.OffsetPointer? && 0 <= p.delta && i + p.delta < |flat|
  }

  lemma FlatIsRelative(ts: seq<Rose>)
    requires Size(ts) <= MAX_INT64
    ensures Relative(Flat(ts))
  {
    forall i, f | 0 <= i < Size(ts)
      ensures RelativePointer(Flat(ts), i, f)
    {
      OffsetsInside(ts, i, f);
    }
  }

  lemma UnfixFixed(p: NodePointer, i: nat, end: nat, base: Bytes)
    requires CleanBase(base) && p.OffsetPointer? && p.delta >= 0 && i + p.delta <= MAX_INT64
    ensures Unfix(FixPointer(p, i, end, base), i, base) == p
  {
    if p.delta != 0 && i + p.delta >= end {
      ResumeSuffixSurvives(base, i + p.delta);
    }
  }

  /** Every continuation pointer in a window names the exact index it replaced: a window reads back as its slice. */
  lemma WindowReadsBack(flat: seq<WireNode>, resume: nat, n: nat, base: Bytes)
    requires CleanBase(base) && Relative(flat) && resume + n <= |flat|
    ensures UnfixNodes(Window(flat, resume, n, base), resume, base) == flat[resume..resume + n]
  {
    var w := Window(flat, resume, n, base);
    var back := UnfixNodes(w, resume, base);
    forall j | 0 <= j < n
      ensures back[j] == flat[resume + j]
    {
      var i := resume + j;
      assert w[j] == FixNode(flat[i], i, resume + n, base);
      NodeReadsBack(flat, i, resume + n, base);
    }
    hide CleanBase, Relative, Unfix, FixNode;
  }

  lemma NodeReadsBack(flat: seq<WireNode>, i: nat, end: nat, base: Bytes)
    requires CleanBase(base) && Relative(flat) && i < |flat|
    ensures var n := FixNode(flat[i], i, end, base);
            n.(firstChild := Unfix(n.firstChild, i, base), nextSibling := Unfix(n.nextSibling, i, base)) == flat[i]
  {
    assert RelativePointer(flat, i, First) && RelativePointer(flat, i, Next);
    hide CleanBase, Unfix;
    UnfixFixed(flat[i].firstChild, i, end, base);
    UnfixFixed(flat[i].nextSibling, i, end, base);
  }

  /** Offsets left in a window land inside it. */
  lemma WindowOffsetsInside(flat: seq<WireNode>, resume: nat, n: nat, base: Bytes, j: nat, f: Field)
    requires Relative(flat) && resume + n <= |flat| && j < n
    ensures var p := Pointer(Window(flat, resume, n, base)[j], f);
            p.OffsetPointer? ==> 0 <= p.delta && j + p.delta < n
  {
    var i := resume + j;
    assert RelativePointer(flat, i, f);
    assert Window(flat, resume, n, base)[j] == FixNode(flat[i], i, resume + n, base);
    assert Pointer(FixNode(flat[i], i, resume + n, base), f) == FixPointer(Pointer(flat[i], f), i, resume + n, base);
  }

  // --- choosing the window ----------------------------------------------------------

  /** Which window sizes fit. */
  predicate Fits(flat: seq<WireNode>, resume: nat, base: Bytes, maxSize: int, measure: seq<WireNode> -> int, n: nat) {
    resume + n <= |flat| && measure(Window(flat, resume, n, base)) <= maxSize
  }

  function BinarySearch(fits: nat -> bool, lo: nat, hi: nat): nat
    requires lo <= hi
    decreases hi - lo
  {
    if lo == hi then lo
    else
      var mid := (lo + hi + 1) / 2;
      if fits(mid) then BinarySearch(fits, mid, hi) else BinarySearch(fits, lo, mid - 1)
  }

  /** The further look: each size that fits moves the span along. */
  function Climb(fits: nat -> bool, total: nat, lo: nat, n: nat): nat
    decreases total - n
  {
    if n > lo + DIP_SPAN || n >= total then lo
    else if fits(n) then Climb(fits, total, n, n + 1)
    else Climb(fits, total, lo, n + 1)
  }

  /** The number of nodes FitToSize delivers out of total; 0 when it finds no size that fits. */
  function Chosen(fits: nat -> bool, total: nat): nat
    requires total > 0
  {
    if fits(total) then total
    else
      var lo := BinarySearch(fits, 0, total - 1);
      Climb(fits, total, lo, lo + 1)
  }

  function Fitting(flat: seq<WireNode>, resume: nat, base: Bytes, maxSize: int,
                   measure: seq<WireNode> -> int): nat -> bool {
    (n: nat) => Fits(flat, resume, base, maxSize, measure, n)
  }

  method FitToSize(flat: seq<WireNode>, resume: nat, base: Bytes, maxSize: int, measure: seq<WireNode> -> int)
      returns (window: seq<WireNode>, truncated: bool)
    requires resume <= |flat|
    ensures resume == |flat| ==> window == [] && !truncated
    ensures resume < |flat| ==>
              var n := Chosen(Fitting(flat, resume, base, maxSize, measure), |flat| - resume);
              n <= |flat| - resume && window == Window(flat, resume, n, base) && truncated == (n < |flat| - resume)
  {
    var total: nat := |flat| - resume;
    if total == 0 {
      return [], false;
    }
    ghost var fits := Fitting(flat, resume, base, maxSize, measure);
    ChosenInRange(fits, total);
    var w := FixupWindow(flat, resume, total, base);
    if measure(w) <= maxSize {
      assert fits(total);
      return w, false;
    }
    assert !fits(total);
    var lo := SearchSize(flat, resume, base, maxSize, measure, total);
    lo := LookFurther(flat, resume, base, maxSize, measure, total, lo);
    window := FixupWindow(flat, resume, lo, base);
    return window, true;
  }

  /** The binary search; the answer is kept as a size, and its window rebuilt at the end. */
  method SearchSize(flat: seq<WireNode>, resume: nat, base: Bytes, maxSize: int, measure: seq<WireNode> -> int,
                    total: nat)
      returns (lo: nat)
    requires 0 < total == |flat| - resume
    ensures lo == BinarySearch(Fitting(flat, resume, base, maxSize, measure), 0, total - 1)
    ensures lo < total
  {
    hide Window;
    ghost var fits := Fitting(flat, resume, base, maxSize, measure);
    var hi: nat := total - 1;
    lo := 0;
    while lo < hi
      invariant lo <= hi < total
      invariant BinarySearch(fits, 0, total - 1) == BinarySearch(fits, lo, hi)
    {
      var mid := (lo + hi + 1) / 2;
      var w := FixupWindow(flat, resume, mid, base);
      if measure(w) <= maxSize {
        lo := mid;
      } else {
        hi := mid - 1;
      }
    }
  }

  method LookFurther(flat: seq<WireNode>, resume: nat, base: Bytes, maxSize: int, measure: seq<WireNode> -> int,
                     total: nat, start: nat)
      returns (lo: nat)
    requires start < total == |flat| - resume
    ensures lo == Climb(Fitting(flat, resume, base, maxSize, measure), total, start, start + 1)
    ensures lo < total
  {
    hide Window;
    ghost var fits := Fitting(flat, resume, base, maxSize, measure);
    lo := start;
    var n: nat := lo + 1;
    while n <= lo + DIP_SPAN && n < total
      invariant lo < n <= total && lo < total
      invariant Climb(fits, total, start, start + 1) == Climb(fits, total, lo, n)
      decreases total - n
    {
      var w := FixupWindow(flat, resume, n, base);
      if measure(w) <= maxSize {
        lo := n;
      }
      n := n + 1;
    }
  }

  lemma {:induction false} BinarySearchFits(fits: nat -> bool, lo: nat, hi: nat)
    requires lo <= hi
    ensures lo <= BinarySearch(fits, lo, hi) <= hi
    ensures BinarySearch(fits, lo, hi) == lo || fits(BinarySearch(fits, lo, hi))
    decreases hi - lo
  {
    if lo < hi {
      var mid := (lo + hi + 1) / 2;
      if fits(mid) {
        BinarySearchFits(fits, mid, hi);
      } else {
        BinarySearchFits(fits, lo, mid - 1);
      }
    }
  }

  /** Sizes from lo up, each no more than DIP_SPAN past lo or past another that fits. */
  ghost predicate NoWideDip(fits: nat -> bool, total: nat, lo: nat) {
    forall m: nat :: lo < m < total && fits(m) ==> HasStep(fits, lo, m)
  }

  ghost predicate HasStep(fits: nat -> bool, lo: nat, m: nat) {
    exists k: nat :: Step(fits, lo, k, m)
  }

  predicate Step(fits: nat -> bool, lo: nat, k: nat, m: nat) {
    lo <= k < m && m <= k + DIP_SPAN && (k == lo || fits(k))
  }

  /** The largest size below total that fits, or 0: what trying every size downward finds. */
  function Largest(fits: nat -> bool, n: nat): nat {
    if n == 0 || fits(n) then n else Largest(fits, n - 1)
  }

  lemma {:induction false} LargestSpec(fits: nat -> bool, n: nat)
    ensures Largest(fits, n) <= n && (Largest(fits, n) == 0 || fits(Largest(fits, n)))
    ensures forall m: nat :: Largest(fits, n) < m <= n ==> !fits(m)
  {
    if n > 0 && !fits(n) {
      LargestSpec(fits, n - 1);
    }
  }

  /** Where the further look ends: at a size that fits (or lo), with nothing fitting for a span past it and nothing skipped. */
  lemma {:induction false} ClimbSpec(fits: nat -> bool, total: nat, lo: nat, n: nat)
    requires lo < n <= total && (forall m: nat :: lo < m < n ==> !fits(m))
    ensures var r := Climb(fits, total, lo, n);
            && lo <= r && (r == lo || (r < total && fits(r)))
            && (forall m: nat :: r < m <= r + DIP_SPAN && m < total ==> !fits(m))
            && (forall m: nat :: lo < m <= r && fits(m) ==> HasStep(fits, lo, m))
    decreases total - n
  {
    if n <= lo + DIP_SPAN && n < total {
      if fits(n) {
        ClimbSpec(fits, total, n, n + 1);
        var r := Climb(fits, total, n, n + 1);
        assert Step(fits, lo, lo, n);
        forall m: nat | n < m <= r && fits(m)
          ensures HasStep(fits, lo, m)
        {
          assert HasStep(fits, n, m);
          var k: nat :| Step(fits, n, k, m);
          assert Step(fits, lo, k, m);
        }
      } else {
        ClimbSpec(fits, total, lo, n + 1);
      }
    }
  }

  lemma ChosenInRange(fits: nat -> bool, total: nat)
    requires total > 0
    ensures Chosen(fits, total) <= total
    ensures Chosen(fits, total) == 0 || fits(Chosen(fits, total))
    ensures Chosen(fits, total) == total <==> fits(total)
  {
    if !fits(total) {
      BinarySearchFits(fits, 0, total - 1);
      var lo := BinarySearch(fits, 0, total - 1);
      ClimbSpec(fits, total, lo, lo + 1);
    }
  }

  /**
   * FitToSize finds the size that trying every size downward would find, exactly
   * when no dip in the sizes above the binary search's answer is wider than DIP_SPAN.
   */
  lemma ChosenIsLargest(fits: nat -> bool, total: nat)
    requires total > 0
    ensures Chosen(fits, total) == Largest(fits, total) <==>
            fits(total) || NoWideDip(fits, total, BinarySearch(fits, 0, total - 1))
  {
    hide Largest, BinarySearch, Climb, HasStep;
    LargestSpec(fits, total);
    if !fits(total) {
      BinarySearchFits(fits, 0, total - 1);
      var lo := BinarySearch(fits, 0, total - 1);
      ClimbSpec(fits, total, lo, lo + 1);
      var r := Climb(fits, total, lo, lo + 1);
      if NoWideDip(fits, total, lo) {
        NothingBeyond(fits, total, lo, r);
      }
    }
  }

  lemma NothingBeyond(fits: nat -> bool, total: nat, lo: nat, r: nat)
    requires lo <= r && NoWideDip(fits, total, lo)
    requires forall m: nat :: r < m <= r + DIP_SPAN && m < total ==> !fits(m)
    ensures forall m: nat :: r < m < total ==> !fits(m)
  {
    forall m: nat | r < m < total
      ensures !fits(m)
    {
      NotBeyond(fits, total, lo, r, m);
    }
  }

  lemma {:induction false} NotBeyond(fits: nat -> bool, total: nat, lo: nat, r: nat, m: nat)
    requires lo <= r < m < total && NoWideDip(fits, total, lo)
    requires forall k: nat :: r < k <= r + DIP_SPAN && k < total ==> !fits(k)
    ensures !fits(m)
    decreases m
  {
    if fits(m) {
      assert HasStep(fits, lo, m);
      var k: nat :| Step(fits, lo, k, m);
      if k > r {
        NotBeyond(fits, total, lo, r, k);
      }
    }
  }

  /**
   * In particular: it does so whenever the smallest size that fits is at most
   * DIP_SPAN and each later one is at most DIP_SPAN past an earlier one.
   */
  lemma SmallDipsSuffice(fits: nat -> bool, total: nat)
    requires total > 0
    requires NoWideDip(fits, total, 0)
    ensures Chosen(fits, total) == Largest(fits, total)
  {
    if !fits(total) {
      BinarySearchFits(fits, 0, total - 1);
      var lo := BinarySearch(fits, 0, total - 1);
      forall m: nat | lo < m < total && fits(m)
        ensures HasStep(fits, lo, m)
      {
        assert HasStep(fits, 0, m);
        var k: nat :| Step(fits, 0, k, m);
        assert Step(fits, lo, if k < lo then lo else k, m);
      }
    }
    ChosenIsLargest(fits, total);
  }

  /** A monotone size function has no dips at all. */
  lemma MonotoneSuffices(fits: nat -> bool, total: nat)
    requires total > 0
    requires forall m: nat, n: nat :: m < n && fits(n) ==> fits(m)
    ensures Chosen(fits, total) == Largest(fits, total)
  {
    forall m: nat | 0 < m < total && fits(m)
      ensures HasStep(fits, 0, m)
    {
      assert Step(fits, 0, m - 1, m);
    }
    SmallDipsSuffice(fits, total);
  }

  /** An empty window out of a non-empty remainder means that no size up to DIP_SPAN fits. */
  lemma NothingFits(fits: nat -> bool, total: nat)
    requires total > 0 && Chosen(fits, total) == 0
    ensures forall m: nat :: 0 < m <= DIP_SPAN && m <= total ==> !fits(m)
  {
    BinarySearchFits(fits, 0, total - 1);
    var lo := BinarySearch(fits, 0, total - 1);
    ClimbSpec(fits, total, lo, lo + 1);
  }

  // --- what is sent -------------------------------------------------------------------

  /**
   * The nodes sent of flat from resume on: all of them if they fit, else the window that
   * FitToSize chooses. None where that window is empty: then nothing is sent.
   */
  function Delivered(flat: seq<WireNode>, resume: nat, base: Bytes, maxSize: int, measure: seq<WireNode> -> int):
    (r: Option<seq<WireNode>>)
    requires resume <= |flat|
    ensures r.Some? ==> resume + |r.value| <= |flat| && (resume < |flat| ==> r.value != [])
  {
    if measure(flat[resume..]) <= maxSize then Some(flat[resume..])
    else if resume == |flat| then None
    else
      var fits := Fitting(flat, resume, base, maxSize, measure);
      ChosenInRange(fits, |flat| - resume);
      var n := Chosen(fits, |flat| - resume);
      if n == 0 then None else Some(Window(flat, resume, n, base))
  }

  /** The part of sendFittedNodes that picks the nodes. */
  method Deliver(flat: seq<WireNode>, resume: nat, base: Bytes, maxSize: int, measure: seq<WireNode> -> int)
      returns (nodes: Option<seq<WireNode>>)
    requires resume <= |flat|
    ensures nodes == Delivered(flat, resume, base, maxSize, measure)
  {
    hide Window, Chosen, Fitting;
    if measure(flat[resume..]) > maxSize {
      var fitted, truncated := FitToSize(flat, resume, base, maxSize, measure);
      if |fitted| == 0 {
        return None;
      }
      return Some(fitted);
    }
    return Some(flat[resume..]);
  }

  /** Where nothing is left out, nothing crosses the end. */
  lemma WholeWindow(flat: seq<WireNode>, resume: nat, base: Bytes)
    requires Relative(flat) && resume <= |flat|
    ensures Window(flat, resume, |flat| - resume, base) == flat[resume..]
  {
    var n: nat := |flat| - resume;
    forall j | 0 <= j < n
      ensures Window(flat, resume, n, base)[j] == flat[resume + j]
    {
      var i := resume + j;
      assert RelativePointer(flat, i, First) && RelativePointer(flat, i, Next);
      assert Pointer(flat[i], First) == flat[i].firstChild && Pointer(flat[i], Next) == flat[i].nextSibling;
      assert FixNode(flat[i], i, |flat|, base) == flat[i];
    }
  }

  /** Whatever is sent is one window of the array. */
  lemma DeliveredIsWindow(flat: seq<WireNode>, resume: nat, base: Bytes, maxSize: int, measure: seq<WireNode> -> int)
    requires Relative(flat) && resume <= |flat|
    ensures var r := Delivered(flat, resume, base, maxSize, measure);
            r.Some? ==> r.value == Window(flat, resume, |r.value|, base)
  {
    WholeWindow(flat, resume, base);
  }

  /** What is sent fits, and it is everything where everything fits. */
  lemma DeliveredFits(flat: seq<WireNode>, resume: nat, base: Bytes, maxSize: int, measure: seq<WireNode> -> int)
    requires resume <= |flat|
    ensures var r := Delivered(flat, resume, base, maxSize, measure);
            && (r.Some? ==> measure(r.value) <= maxSize)
            && (measure(flat[resume..]) <= maxSize ==> r == Some(flat[resume..]))
            && (resume == |flat| && measure([]) > maxSize ==> r == None)
  {
    hide Window, Chosen;
    if resume < |flat| {
      ChosenInRange(Fitting(flat, resume, base, maxSize, measure), |flat| - resume);
    } else {
      assert flat[resume..] == [];
    }
  }

  /** Nothing is sent only where neither the remainder nor any window of up to DIP_SPAN nodes fits. */
  lemma NothingSent(flat: seq<WireNode>, resume: nat, base: Bytes, maxSize: int, measure: seq<WireNode> -> int, n: nat)
    requires Relative(flat) && resume + n <= |flat| && 0 < n <= DIP_SPAN
    requires Delivered(flat, resume, base, maxSize, measure).None?
    ensures measure(Window(flat, resume, n, base)) > maxSize && measure(flat[resume..]) > maxSize
  {
    hide Window, Chosen, Relative;
    var fits := Fitting(flat, resume, base, maxSize, measure);
    NothingFits(fits, |flat| - resume);
    assert !fits(n);
  }
}
