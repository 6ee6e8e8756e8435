/**
 * A query's results as tree entries, ordered by key, after
 * goimpl/internal/server/server.go:716-731.
 */
module ResultEntries {
  import opened Basics
  import opened WireTypes
  import opened QueryRunner

  type Entry = (Bytes, NodeValue)

  /** Go's order on strings: byte by byte, a proper prefix first. */
  predicate Less(a: Bytes, b: Bytes) {
    b != [] && (a == [] || a[0] < b[0] || (a[0] == b[0] && Less(a[1..], b[1..])))
  }

  lemma {:induction false} LessTotal(a: Bytes, b: Bytes)
    ensures a == b || Less(a, b) || Less(b, a)
    ensures !(Less(a, b) && Less(b, a)) && !Less(a, a)
  {
    if a != [] {
      LessTotal(a[1..], a[1..]);
      if b != [] && a[0] == b[0] {
        LessTotal(a[1..], b[1..]);
        assert a == [a[0]] + a[1..] && b == [b[0]] + b[1..];
      }
    }
  }

  lemma {:induction false} LessTransitive(a: Bytes, b: Bytes, c: Bytes)
    requires Less(a, b) && Less(b, c)
    ensures Less(a, c)
  {
    if a != [] && a[0] == b[0] && b[0] == c[0] {
      LessTransitive(a[1..], b[1..], c[1..]);
    }
  }

  ghost predicate Ascending(ks: seq<Bytes>) {
    forall i, j :: 0 <= i < j < |ks| ==> Less(ks[i], ks[j])
  }

  /** A key put where it belongs among sorted ones. */
  method InsertKey(ks: seq<Bytes>, k: Bytes) returns (r: seq<Bytes>)
    requires Ascending(ks) && k !in ks
    ensures Ascending(r) && forall x :: x in r <==> x in ks || x == k
  {
    hide Less;
    var i := 0;
    while i < |ks| && Less(ks[i], k)
      invariant 0 <= i <= |ks| && forall j :: 0 <= j < i ==> Less(ks[j], k)
    {
      i := i + 1;
    }
    r := ks[..i] + [k] + ks[i..];
    assert ks == ks[..i] + ks[i..];
    forall j | i <= j < |ks|
      ensures Less(k, ks[j])
    {
      LessTotal(ks[i], k);
      if j > i {
        LessTransitive(k, ks[i], ks[j]);
      }
    }
  }

  /** sort.Strings of a map's keys. */
  method SortKeys(keys: set<Bytes>) returns (ks: seq<Bytes>)
    ensures Ascending(ks) && forall x :: x in ks <==> x in keys
  {
    hide Ascending;
    ks := [];
    NothingAscends();
    var left := keys;
    while left != {}
      invariant left <= keys && Ascending(ks) && forall x :: x in ks <==> x in keys - left
    {
      var k :| k in left;
      ks := InsertKey(ks, k);
      left := left - {k};
    }
  }

  lemma NothingAscends()
    ensures Ascending([])
  {
  }

  /** The values that entries hold under a key, in order. */
  function Under(entries: seq<Entry>, k: Bytes): seq<NodeValue> {
    if entries == [] then []
    else
      var n := |entries| - 1;
      Under(entries[..n], k) + (if entries[n].0 == k then [entries[n].1] else [])
  }

  ghost predicate KeysInOrder(entries: seq<Entry>) {
    forall i, j :: 0 <= i < j < |entries| ==> entries[i].0 == entries[j].0 || Less(entries[i].0, entries[j].0)
  }

  lemma UnderSnoc(entries: seq<Entry>, e: Entry, k: Bytes)
    ensures Under(entries + [e], k) == Under(entries, k) + (if e.0 == k then [e.1] else [])
  {
    assert (entries + [e])[..|entries|] == entries;
  }

  /** Nothing is lost, keys ascend, and each key's values stay in the order they were collected in. */
  method SortedEntries(results: Results) returns (entries: seq<Entry>)
    ensures KeysInOrder(entries)
    ensures forall k :: Under(entries, k) == At(results, k)
  {
    hide Less, Under, KeysInOrder;
    var keys := SortKeys(results.Keys);
    entries := [];
    Empty();
    var i := 0;
    while i < |keys|
      invariant 0 <= i <= |keys|
      invariant KeysInOrder(entries) && (forall j :: 0 <= j < |entries| ==> entries[j].0 in keys[..i])
      invariant forall k :: Under(entries, k) == if k in keys[..i] then At(results, k) else []
    {
      var k := keys[i];
      assert k in keys && keys[..i + 1] == keys[..i] + [k];
      FirstOccurs(keys, i);
      entries := AppendAll(entries, k, results[k], keys[..i]);
      i := i + 1;
    }
    assert keys[..|keys|] == keys;
  }

  lemma Empty()
    ensures KeysInOrder([]) && forall k :: Under([], k) == []
  {
  }

  lemma FirstOccurs(keys: seq<Bytes>, i: nat)
    requires Ascending(keys) && i < |keys|
    ensures keys[i] !in keys[..i] && forall x :: x in keys[..i] ==> Less(x, keys[i])
  {
    hide Less;
    forall j | 0 <= j < i
      ensures Less(keys[j], keys[i]) && keys[j] != keys[i]
    {
      LessTotal(keys[i], keys[i]);
    }
  }

  /** The inner loop: one key's values, behind entries with smaller keys. */
  method AppendAll(entries: seq<Entry>, k: Bytes, vs: seq<NodeValue>, smaller: seq<Bytes>) returns (r: seq<Entry>)
    requires KeysInOrder(entries) && (forall j :: 0 <= j < |entries| ==> entries[j].0 in smaller)
    requires (forall x :: x in smaller ==> Less(x, k)) && Under(entries, k) == []
    ensures KeysInOrder(r) && forall j :: 0 <= j < |r| ==> r[j].0 in smaller || r[j].0 == k
    ensures forall x :: Under(r, x) == if x == k then vs else Under(entries, x)
  {
    hide Less, Under;
    r := entries;
    var i := 0;
    while i < |vs|
      invariant 0 <= i <= |vs|
      invariant KeysInOrder(r) && forall j :: 0 <= j < |r| ==> r[j].0 in smaller || r[j].0 == k
      invariant forall x :: Under(r, x) == if x == k then vs[..i] else Under(entries, x)
    {
      forall x
        ensures Under(r + [(k, vs[i])], x) == Under(r, x) + (if k == x then [vs[i]] else [])
      {
        UnderSnoc(r, (k, vs[i]), x);
      }
      assert vs[..i + 1] == vs[..i] + [vs[i]];
      r := r + [(k, vs[i])];
      i := i + 1;
    }
    assert vs[..|vs|] == vs;
  }
}
