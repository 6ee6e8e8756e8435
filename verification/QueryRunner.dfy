/**
 * A query's pipeline, after goimpl/internal/query/query.go: samples are collected per
 * key, promoted or aggregated into pending results, and transferred. What aggregation
 * computes, and when two floats are equal, are parameters.
 */
module QueryRunner {
  import opened Basics
  import opened WireTypes

  datatype Sample = Sample(id: Bytes, key: Bytes, value: NodeValue)

  type Results = map<Bytes, seq<NodeValue>>

  /** What aggregation makes of a batch; None where it fails, as for values that are not numeric. */
  type Aggregator = seq<NodeValue> -> Option<NodeValue>

  type RealEqual = (Float64, Float64) -> bool

  function At(m: Results, k: Bytes): seq<NodeValue> {
    if k in m then m[k] else []
  }

  // --- collecting ---------------------------------------------------------------------------

  /** collect's loop: each value at the end of its key's list. */
  function Collected(m: Results, samples: seq<Sample>): Results {
    if samples == [] then m
    else
      var n := |samples| - 1;
      var before := Collected(m, samples[..n]);
      before[samples[n].key := At(before, samples[n].key) + [samples[n].value]]
  }

  /** The values sampled under a key, in order. */
  function ValuesFor(samples: seq<Sample>, k: Bytes): seq<NodeValue> {
    if samples == [] then []
    else
      var n := |samples| - 1;
      ValuesFor(samples[..n], k) + (if samples[n].key == k then [samples[n].value] else [])
  }

  lemma {:induction false} CollectedValues(m: Results, samples: seq<Sample>, k: Bytes)
    ensures At(Collected(m, samples), k) == At(m, k) + ValuesFor(samples, k)
  {
    if samples != [] {
      CollectedValues(m, samples[..|samples| - 1], k);
    }
  }

  /** NodeValue.Equal. */
  predicate Equal(eq: RealEqual, v: NodeValue, w: NodeValue) {
    if v.RealValue? && w.RealValue? then eq(v.bits, w.bits) else v == w
  }

  /** Two values that are not both floats are equal when they are of one kind and the same. */
  lemma EqualIsSame(eq: RealEqual, v: NodeValue, w: NodeValue)
    ensures !(v.RealValue? && w.RealValue?) ==> (Equal(eq, v, w) <==> v == w)
    ensures v.RealValue? && w.RealValue? ==> (Equal(eq, v, w) <==> eq(v.bits, w.bits))
  {
  }

  /** The identity a sample is compared under: its id, or its key if it has none. */
  function Identity(s: Sample): Bytes {
    if s.id == [] then s.key else s.id
  }

  type Last = map<Bytes, NodeValue>

  predicate Repeats(eq: RealEqual, last: Last, s: Sample) {
    Identity(s) in last && Equal(eq, last[Identity(s)], s.value)
  }

  /** collectChanges: the samples it forwards, and the last values it remembers. */
  function Changed(eq: RealEqual, last: Last, samples: seq<Sample>): (seq<Sample>, Last) {
    if samples == [] then ([], last)
    else
      var s := samples[|samples| - 1];
      var (forwarded, last') := Changed(eq, last, samples[..|samples| - 1]);
      if Repeats(eq, last', s) then (forwarded, last') else (forwarded + [s], last'[Identity(s) := s.value])
  }

  // --- what onChange forwards -----------------------------------------------------------------

  /** The values sampled for one node, in order. */
  function ValuesOf(samples: seq<Sample>, id: Bytes): seq<NodeValue> {
    if samples == [] then []
    else
      var n := |samples| - 1;
      ValuesOf(samples[..n], id) + (if Identity(samples[n]) == id then [samples[n].value] else [])
  }

  /** A sequence without the values that equal the one directly before them. */
  function WithoutRepeats(eq: RealEqual, vs: seq<NodeValue>): seq<NodeValue> {
    if vs == [] then []
    else
      var n := |vs| - 1;
      WithoutRepeats(eq, vs[..n]) + (if n > 0 && Equal(eq, vs[n - 1], vs[n]) then [] else [vs[n]])
  }

  /** Float equality as IEEE 754 has it: symmetric and transitive, though not reflexive on NaN. */
  ghost predicate Comparable(eq: RealEqual) {
    && (forall a, b :: eq(a, b) ==> eq(b, a))
    && (forall a, b, c :: eq(a, b) && eq(b, c) ==> eq(a, c))
  }

  /** A remembered value equals just what the latest sample equals. */
  ghost predicate Remembers(eq: RealEqual, last: Last, vs: seq<NodeValue>, id: Bytes) {
    && (id in last <==> vs != [])
    && (vs != [] ==> forall v :: Equal(eq, last[id], v) <==> Equal(eq, vs[|vs| - 1], v))
  }

  lemma ForwardOne(eq: RealEqual, last: Last, vs: seq<NodeValue>, s: Sample)
    requires Comparable(eq) && Remembers(eq, last, vs, Identity(s))
    ensures var id := Identity(s);
            var vs' := vs + [s.value];
            && WithoutRepeats(eq, vs') == WithoutRepeats(eq, vs) + (if Repeats(eq, last, s) then [] else [s.value])
            && Remembers(eq, if Repeats(eq, last, s) then last else last[id := s.value], vs', id)
  {
    var id, vs' := Identity(s), vs + [s.value];
    assert vs'[..|vs|] == vs;
    if Repeats(eq, last, s) {
      EqualsAlike(eq, last[id], s.value);
    }
  }

  /** Values that are equal are equal to the same values. */
  lemma EqualsAlike(eq: RealEqual, v: NodeValue, w: NodeValue)
    requires Comparable(eq) && Equal(eq, v, w)
    ensures forall x :: Equal(eq, v, x) <==> Equal(eq, w, x)
  {
  }

  /**
   * Over a whole run, what onChange has forwarded for a node is what was sampled of it
   * with consecutive repeats removed, even though each sample is compared with the last
   * value forwarded rather than with the one sampled just before.
   */
  lemma {:induction false} ForwardsOnlyChanges(eq: RealEqual, samples: seq<Sample>, id: Bytes)
    requires Comparable(eq)
    ensures var (forwarded, last) := Changed(eq, map[], samples);
            && ValuesOf(forwarded, id) == WithoutRepeats(eq, ValuesOf(samples, id))
            && Remembers(eq, last, ValuesOf(samples, id), id)
  {
    hide Comparable, Remembers, Equal, WithoutRepeats, Repeats, Changed, ValuesOf, Identity;
    if samples == [] {
      NothingForwarded(eq, id);
    } else {
      var n := |samples| - 1;
      var init, s := samples[..n], samples[n];
      assert samples == init + [s];
      ForwardsOnlyChanges(eq, init, id);
      var (forwarded, last) := Changed(eq, map[], init);
      ChangedSnoc(eq, map[], init, s);
      ValuesSnoc(init, s, id);
      ValuesSnoc(forwarded, s, id);
      if Identity(s) == id {
        ForwardOne(eq, last, ValuesOf(init, id), s);
      } else {
        OtherIdentity(eq, last, ValuesOf(init, id), id, Identity(s), s.value);
        assert ValuesOf(init, id) + [] == ValuesOf(init, id) && ValuesOf(forwarded, id) + [] == ValuesOf(forwarded, id);
      }
    }
  }

  /**
   * A sample that is no float is forwarded exactly when it is the first of its node, or
   * its value is not the one sampled of that node just before, at position k.
   */
  lemma ForwardsEachChange(eq: RealEqual, samples: seq<Sample>, s: Sample, k: int)
    requires Comparable(eq) && !s.value.RealValue? && -1 <= k < |samples|
    requires k >= 0 ==> NodeOf(samples[k]) == NodeOf(s)
    requires forall j :: k < j < |samples| ==> NodeOf(samples[j]) != NodeOf(s)
    ensures Changed(eq, map[], samples + [s]).0
         == Changed(eq, map[], samples).0 + (if k >= 0 && samples[k].value == s.value then [] else [s])
  {
    hide Comparable, Changed, ValuesOf, Identity, WithoutRepeats, Equal;
    IdentityIsNode(samples, s);
    LastOf(samples, Identity(s), k);
    ForwardsOnlyChanges(eq, samples, Identity(s));
    ChangedSnoc(eq, map[], samples, s);
    if k >= 0 {
      EqualIsSame(eq, samples[k].value, s.value);
    }
  }

  /** What tells nodes apart: the id, or the key of a sample without one. */
  function NodeOf(s: Sample): Bytes {
    if |s.id| > 0 then s.id else s.key
  }

  lemma IdentityIsNode(samples: seq<Sample>, s: Sample)
    ensures Identity(s) == NodeOf(s) && forall i :: 0 <= i < |samples| ==> Identity(samples[i]) == NodeOf(samples[i])
  {
  }

  lemma {:induction false} LastOf(samples: seq<Sample>, id: Bytes, k: int)
    requires -1 <= k < |samples| && (k >= 0 ==> Identity(samples[k]) == id)
    requires forall j :: k < j < |samples| ==> Identity(samples[j]) != id
    ensures var vs := ValuesOf(samples, id);
            if k < 0 then vs == [] else vs != [] && vs[|vs| - 1] == samples[k].value
  {
    hide Identity;
    if samples != [] && k < |samples| - 1 {
      LastOf(samples[..|samples| - 1], id, k);
    }
  }

  lemma ChangedSnoc(eq: RealEqual, last: Last, samples: seq<Sample>, s: Sample)
    ensures var (forwarded, l) := Changed(eq, last, samples);
            Changed(eq, last, samples + [s])
            == if Repeats(eq, l, s) then (forwarded, l) else (forwarded + [s], l[Identity(s) := s.value])
  {
    hide Repeats;
    assert (samples + [s])[..|samples|] == samples;
  }

  lemma NothingForwarded(eq: RealEqual, id: Bytes)
    ensures Changed(eq, map[], []) == ([], map[]) && ValuesOf([], id) == [] && WithoutRepeats(eq, []) == []
    ensures Remembers(eq, map[], [], id)
  {
  }

  lemma OtherIdentity(eq: RealEqual, last: Last, vs: seq<NodeValue>, id: Bytes, other: Bytes, v: NodeValue)
    requires Remembers(eq, last, vs, id) && other != id
    ensures Remembers(eq, last[other := v], vs, id)
  {
  }

  lemma ValuesSnoc(samples: seq<Sample>, s: Sample, id: Bytes)
    ensures ValuesOf(samples + [s], id) == ValuesOf(samples, id) + (if Identity(s) == id then [s.value] else [])
  {
    assert (samples + [s])[..|samples|] == samples;
  }

  // --- the runner's steps -------------------------------------------------------------------------

  datatype State = State(collected: Results, pending: Results, last: Last, delivered: seq<Results>)

  datatype Step =
    | Collect(samples: seq<Sample>)
    | CollectChanges(samples: seq<Sample>)
    | Promote
    | Aggregate
    | Transfer

  /** Each key's collected values behind its pending ones. */
  function Promoted(pending: Results, collected: Results): Results {
    map k | k in pending.Keys + collected.Keys :: At(pending, k) + At(collected, k)
  }

  function Outcome(agg: Aggregator, batch: seq<NodeValue>): seq<NodeValue> {
    var v := agg(batch);
    if v.Some? then [v.value] else []
  }

  /** Each key's batch as one aggregated value behind its pending ones; a batch that fails is dropped. */
  function Aggregated(agg: Aggregator, pending: Results, collected: Results): Results {
    map k | k in pending.Keys + (set k | k in collected && agg(collected[k]).Some?) ::
      At(pending, k) + (if k in collected then Outcome(agg, collected[k]) else [])
  }

  function After(eq: RealEqual, agg: Aggregator, st: State, step: Step): State {
    match step
    case Collect(samples) => st.(collected := Collected(st.collected, samples))
    case CollectChanges(samples) =>
      var (forwarded, last) := Changed(eq, st.last, samples);
      st.(collected := Collected(st.collected, forwarded), last := last)
    case Promote => st.(pending := Promoted(st.pending, st.collected), collected := map[])
    case Aggregate => st.(pending := Aggregated(agg, st.pending, st.collected), collected := map[])
    case Transfer => st.(delivered := if st.pending == map[] then st.delivered else st.delivered + [st.pending], pending := map[])
  }

  const START: State := State(map[], map[], map[], [])

  function Run(eq: RealEqual, agg: Aggregator, steps: seq<Step>): State {
    if steps == [] then START else After(eq, agg, Run(eq, agg, steps[..|steps| - 1]), steps[|steps| - 1])
  }

  // --- conservation --------------------------------------------------------------------------------

  function DeliveredFor(delivered: seq<Results>, k: Bytes): seq<NodeValue> {
    if delivered == [] then []
    else DeliveredFor(delivered[..|delivered| - 1], k) + At(delivered[|delivered| - 1], k)
  }

  /**
   * One key's account of a run: what has been made ready for transfer, the batch still
   * open, and the last values by node.
   */
  datatype Account = Account(ready: seq<NodeValue>, open: seq<NodeValue>, last: Last)

  function Post(eq: RealEqual, agg: Aggregator, a: Account, step: Step, k: Bytes): Account {
    match step
    case Collect(samples) => a.(open := a.open + ValuesFor(samples, k))
    case CollectChanges(samples) =>
      var (forwarded, last) := Changed(eq, a.last, samples);
      a.(open := a.open + ValuesFor(forwarded, k), last := last)
    case Promote => a.(ready := a.ready + a.open, open := [])
    case Aggregate =>
      var v := if a.open == [] then None else agg(a.open);
      a.(ready := a.ready + (match v case None => [] case Some(x) => [x]), open := [])
    case Transfer => a
  }

  function Books(eq: RealEqual, agg: Aggregator, steps: seq<Step>, k: Bytes): Account {
    if steps == [] then Account([], [], map[])
    else Post(eq, agg, Books(eq, agg, steps[..|steps| - 1], k), steps[|steps| - 1], k)
  }

  /** A key is only held with values. */
  ghost predicate NoEmpties(m: Results) {
    forall k :: k in m ==> m[k] != []
  }

  lemma {:induction false} CollectedNotEmpty(m: Results, samples: seq<Sample>)
    requires NoEmpties(m)
    ensures NoEmpties(Collected(m, samples))
  {
    if samples != [] {
      CollectedNotEmpty(m, samples[..|samples| - 1]);
    }
  }

  lemma PromotedAt(pending: Results, collected: Results, k: Bytes)
    ensures At(Promoted(pending, collected), k) == At(pending, k) + At(collected, k)
  {
  }

  lemma AggregatedAt(agg: Aggregator, pending: Results, collected: Results, k: Bytes)
    requires NoEmpties(collected)
    ensures At(Aggregated(agg, pending, collected), k)
         == At(pending, k) + (if At(collected, k) == [] then [] else Outcome(agg, At(collected, k)))
  {
  }

  lemma OutcomeIs(agg: Aggregator, batch: seq<NodeValue>)
    ensures Outcome(agg, batch) == match agg(batch) case None => [] case Some(v) => [v]
  {
  }

  lemma DeliveredSnoc(delivered: seq<Results>, pending: Results, k: Bytes)
    ensures DeliveredFor(delivered + [pending], k) == DeliveredFor(delivered, k) + At(pending, k)
  {
    assert (delivered + [pending])[..|delivered|] == delivered;
  }

  /** One step, seen from one key's account. */
  lemma StepBalances(eq: RealEqual, agg: Aggregator, st: State, step: Step, k: Bytes, a: Account)
    requires NoEmpties(st.collected)
    requires a == Account(DeliveredFor(st.delivered, k) + At(st.pending, k), At(st.collected, k), st.last)
    ensures var t := After(eq, agg, st, step);
            && NoEmpties(t.collected)
            && Post(eq, agg, a, step, k) == Account(DeliveredFor(t.delivered, k) + At(t.pending, k), At(t.collected, k), t.last)
  {
    hide Collected, Changed, ValuesFor, DeliveredFor, Promoted, Aggregated, Outcome;
    var d := DeliveredFor(st.delivered, k);
    match step
    case Collect(samples) =>
      CollectedNotEmpty(st.collected, samples);
      CollectedValues(st.collected, samples, k);
    case CollectChanges(samples) =>
      var forwarded := Changed(eq, st.last, samples).0;
      CollectedNotEmpty(st.collected, forwarded);
      CollectedValues(st.collected, forwarded, k);
    case Promote =>
      PromotedAt(st.pending, st.collected, k);
      assert d + (At(st.pending, k) + At(st.collected, k)) == (d + At(st.pending, k)) + At(st.collected, k);
    case Aggregate =>
      AggregatedAt(agg, st.pending, st.collected, k);
      OutcomeIs(agg, At(st.collected, k));
      var v := if At(st.collected, k) == [] then [] else Outcome(agg, At(st.collected, k));
      assert d + (At(st.pending, k) + v) == (d + At(st.pending, k)) + v;
    case Transfer =>
      DeliveredSnoc(st.delivered, st.pending, k);
  }

  /**
   * For any interleaving of steps: what has been delivered and what is pending for a key
   * is, in order, what its account says was made ready, and what is collected is its open
   * batch. Nothing is lost, doubled, reordered or put under another key.
   */
  lemma {:induction false} NothingIsLost(eq: RealEqual, agg: Aggregator, steps: seq<Step>, k: Bytes)
    ensures var st, a := Run(eq, agg, steps), Books(eq, agg, steps, k);
            && NoEmpties(st.collected) && a.last == st.last
            && DeliveredFor(st.delivered, k) + At(st.pending, k) == a.ready
            && At(st.collected, k) == a.open
  {
    hide After, Post;
    if steps != [] {
      var n := |steps| - 1;
      NothingIsLost(eq, agg, steps[..n], k);
      StepBalances(eq, agg, Run(eq, agg, steps[..n]), steps[n], k, Books(eq, agg, steps[..n], k));
    }
  }

  /** All samples of a run, in order, where onChange collections count what they forward. */
  function Taken(eq: RealEqual, last: Last, steps: seq<Step>): (seq<Sample>, Last) {
    if steps == [] then ([], last)
    else
      var (before, l) := Taken(eq, last, steps[..|steps| - 1]);
      match steps[|steps| - 1]
      case Collect(samples) => (before + samples, l)
      case CollectChanges(samples) =>
        var (forwarded, l') := Changed(eq, l, samples);
        (before + forwarded, l')
      case _ => (before, l)
  }

  lemma {:induction false} ValuesForConcat(a: seq<Sample>, b: seq<Sample>, k: Bytes)
    ensures ValuesFor(a + b, k) == ValuesFor(a, k) + ValuesFor(b, k)
  {
    if b == [] {
      assert a + b == a;
    } else {
      var n := |b| - 1;
      assert (a + b)[..|a + b| - 1] == a + b[..n];
      ValuesForConcat(a, b[..n], k);
    }
  }

  /** Without aggregation, delivered, pending and collected together are all the samples taken, in order. */
  lemma {:induction false} Conservation(eq: RealEqual, agg: Aggregator, steps: seq<Step>, k: Bytes)
    requires forall i :: 0 <= i < |steps| ==> !steps[i].Aggregate?
    ensures var st := Run(eq, agg, steps);
            DeliveredFor(st.delivered, k) + At(st.pending, k) + At(st.collected, k)
            == ValuesFor(Taken(eq, map[], steps).0, k)
  {
    NothingIsLost(eq, agg, steps, k);
    OpenBooks(eq, agg, steps, k);
  }

  lemma {:induction false} OpenBooks(eq: RealEqual, agg: Aggregator, steps: seq<Step>, k: Bytes)
    requires forall i :: 0 <= i < |steps| ==> !steps[i].Aggregate?
    ensures var a, (taken, last) := Books(eq, agg, steps, k), Taken(eq, map[], steps);
            a.ready + a.open == ValuesFor(taken, k) && a.last == last
  {
    hide Changed, ValuesFor;
    if steps == [] {
      NothingTaken(k);
    } else {
      var n := |steps| - 1;
      OpenBooks(eq, agg, steps[..n], k);
      var (before, l) := Taken(eq, map[], steps[..n]);
      match steps[n]
      case Collect(samples) => ValuesForConcat(before, samples, k);
      case CollectChanges(samples) => ValuesForConcat(before, Changed(eq, l, samples).0, k);
      case _ =>
    }
  }

  lemma NothingTaken(k: Bytes)
    ensures ValuesFor([], k) == []
  {
  }

  // --- the runner itself ----------------------------------------------------------------------------

  class Runner {
    var collected: Results
    var pending: Results
    var lastValues: Last
    ghost var delivered: seq<Results>

    ghost function Now(): State
      reads this
    {
      State(collected, pending, lastValues, delivered)
    }

    constructor ()
      ensures Now() == START
    {
      collected, pending, lastValues, delivered := map[], map[], map[], [];
    }

    method CollectSamples(samples: seq<Sample>)
      modifies this
      ensures Now() == old(Now()).(collected := Collected(old(collected), samples))
    {
      var i := 0;
      while i < |samples|
        invariant 0 <= i <= |samples|
        invariant Now() == old(Now()).(collected := Collected(old(collected), samples[..i]))
      {
        var s := samples[i];
        assert samples[..i + 1][..i] == samples[..i];
        var soFar := if s.key in collected then collected[s.key] else [];
        collected := collected[s.key := soFar + [s.value]];
        i := i + 1;
      }
      assert samples[..|samples|] == samples;
    }

    method CollectChanged(eq: RealEqual, samples: seq<Sample>)
      modifies this
      ensures var (forwarded, last) := Changed(eq, old(lastValues), samples);
              Now() == old(Now()).(collected := Collected(old(collected), forwarded), last := last)
    {
      hide Repeats;
      var i := 0;
      while i < |samples|
        invariant 0 <= i <= |samples|
        invariant var (forwarded, last) := Changed(eq, old(lastValues), samples[..i]);
                  Now() == old(Now()).(collected := Collected(old(collected), forwarded), last := last)
      {
        var s := samples[i];
        ghost var forwarded := Changed(eq, old(lastValues), samples[..i]).0;
        assert samples[..i + 1][..i] == samples[..i] && (forwarded + [s])[..|forwarded|] == forwarded;
        i := i + 1;
        var id := if s.id == [] then s.key else s.id;
        RepeatsMeans(eq, lastValues, s);
        if id in lastValues && Equal(eq, lastValues[id], s.value) {
          continue;
        }
        lastValues := lastValues[id := s.value];
        var soFar := if s.key in collected then collected[s.key] else [];
        collected := collected[s.key := soFar + [s.value]];
      }
      assert samples[..|samples|] == samples;
    }

    method PromoteCollectedToPending()
      modifies this
      ensures Now() == old(Now()).(pending := Promoted(old(pending), old(collected)), collected := map[])
    {
      hide Promoted;
      var left := collected.Keys;
      assert collected - left == map[];
      NothingPromoted(pending);
      while left != {}
        invariant left <= collected.Keys && collected == old(collected)
        invariant Now() == old(Now()).(pending := Promoted(old(pending), collected - left))
      {
        var key :| key in left;
        PromoteOneMore(old(pending), collected - left, key, collected[key]);
        assert collected - (left - {key}) == (collected - left)[key := collected[key]];
        var soFar := if key in pending then pending[key] else [];
        pending := pending[key := soFar + collected[key]];
        left := left - {key};
      }
      assert collected - {} == collected;
      collected := map[];
    }

    method AggregateCollected(agg: Aggregator)
      modifies this
      ensures Now() == old(Now()).(pending := Aggregated(agg, old(pending), old(collected)), collected := map[])
    {
      hide Aggregated;
      var batch := collected;
      collected := map[];
      var left := batch.Keys;
      assert batch - left == map[];
      NothingAggregated(agg, pending);
      while left != {}
        invariant left <= batch.Keys
        invariant Now() == old(Now()).(pending := Aggregated(agg, old(pending), batch - left), collected := map[])
      {
        var key :| key in left;
        AggregateOneMore(agg, old(pending), batch - left, key, batch[key]);
        assert batch - (left - {key}) == (batch - left)[key := batch[key]];
        var v := agg(batch[key]);
        if v.Some? {
          var soFar := if key in pending then pending[key] else [];
          pending := pending[key := soFar + [v.value]];
        }
        left := left - {key};
      }
      assert batch - {} == batch;
    }

    /** transfer: what is handed to the sink, if there is anything. */
    method TransferPending() returns (results: Option<Results>)
      modifies this
      ensures results == if old(pending) == map[] then None else Some(old(pending))
      ensures pending == map[] && collected == old(collected) && lastValues == old(lastValues)
      ensures delivered == if results.Some? then old(delivered) + [results.value] else old(delivered)
    {
      var ready := pending;
      pending := map[];
      if |ready| == 0 {
        return None;
      }
      delivered := delivered + [ready];
      return Some(ready);
    }
  }

  lemma NothingPromoted(pending: Results)
    ensures Promoted(pending, map[]) == pending
  {
    assert Promoted(pending, map[]).Keys == pending.Keys;
    forall j | j in pending
      ensures Promoted(pending, map[])[j] == pending[j]
    {
      assert pending[j] + [] == pending[j];
    }
  }

  lemma PromoteOneMore(pending: Results, collected: Results, k: Bytes, vs: seq<NodeValue>)
    requires k !in collected
    ensures Promoted(pending, collected[k := vs])
         == Promoted(pending, collected)[k := At(Promoted(pending, collected), k) + vs]
  {
    var before, after := Promoted(pending, collected), Promoted(pending, collected[k := vs]);
    assert after.Keys == before.Keys + {k};
    assert At(pending, k) + [] == At(pending, k);
    forall j | j in after
      ensures after[j] == if j == k then At(before, k) + vs else before[j]
    {
    }
  }

  /** What aggregation leaves under a key that it leaves. */
  lemma AggregatedFor(agg: Aggregator, pending: Results, collected: Results, j: Bytes)
    ensures j in Aggregated(agg, pending, collected) <==> j in pending || (j in collected && agg(collected[j]).Some?)
    ensures At(Aggregated(agg, pending, collected), j) == At(pending, j) + (if j in collected then Outcome(agg, collected[j]) else [])
  {
  }

  lemma SameResults(a: Results, b: Results)
    requires a.Keys == b.Keys && forall j :: j in a ==> At(a, j) == At(b, j)
    ensures a == b
  {
    assert forall j :: j in a ==> a[j] == At(a, j) == At(b, j) == b[j];
  }

  lemma NothingAggregated(agg: Aggregator, pending: Results)
    ensures Aggregated(agg, pending, map[]) == pending
  {
    hide Aggregated;
    var after := Aggregated(agg, pending, map[]);
    forall j
      ensures (j in after <==> j in pending) && At(after, j) == At(pending, j)
    {
      AggregatedFor(agg, pending, map[], j);
    }
    SameResults(after, pending);
  }

  lemma AggregateOneMore(agg: Aggregator, pending: Results, batch: Results, k: Bytes, vs: seq<NodeValue>)
    requires k !in batch
    ensures var before := Aggregated(agg, pending, batch);
            Aggregated(agg, pending, batch[k := vs])
            == if agg(vs).Some? then before[k := At(before, k) + [agg(vs).value]] else before
  {
    hide Aggregated;
    var before, after := Aggregated(agg, pending, batch), Aggregated(agg, pending, batch[k := vs]);
    var expected := if agg(vs).Some? then before[k := At(before, k) + [agg(vs).value]] else before;
    forall j
      ensures (j in after <==> j in expected) && At(after, j) == At(expected, j)
    {
      AggregatedFor(agg, pending, batch, j);
      AggregatedFor(agg, pending, batch[k := vs], j);
    }
    SameResults(after, expected);
  }

  lemma RepeatsMeans(eq: RealEqual, last: Last, s: Sample)
    ensures Repeats(eq, last, s) <==> Identity(s) in last && Equal(eq, last[Identity(s)], s.value)
  {
  }

  /** A ONCE query without aggregation delivers one transfer: every sample under its key, in order. */
  lemma OnceDeliversAll(eq: RealEqual, agg: Aggregator, samples: seq<Sample>, k: Bytes)
    requires samples != []
    ensures var st := Run(eq, agg, [Collect(samples), Promote, Transfer]);
            && |st.delivered| == 1 && st.pending == map[] && st.collected == map[]
            && At(st.delivered[0], k) == ValuesFor(samples, k)
  {
    hide Collected, ValuesFor;
    var steps := [Collect(samples), Promote, Transfer];
    assert steps[..2] == [Collect(samples), Promote] && steps[..2][..1] == [Collect(samples)] && steps[..2][..1][..0] == [];
    var one := Collected(map[], samples);
    assert Run(eq, agg, steps[..2][..1]) == START.(collected := one);
    CollectedValues(map[], samples, k);
    CollectedHas(samples);
  }

  lemma CollectedHas(samples: seq<Sample>)
    requires samples != []
    ensures samples[|samples| - 1].key in Collected(map[], samples)
  {
  }
}
