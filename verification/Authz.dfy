/**
 * Which operations an identity may perform on which node paths, after
 * goimpl/internal/authz/authz.go. A compiled policy pattern is a predicate on paths.
 */
module Authz {
  import opened Basics
  import opened Expression

  datatype Op = OpRead | OpWrite | OpDelete

  type Checker = (Op, Bytes) -> bool

  type Pattern = Bytes -> bool

  datatype RuleSet = RuleSet(read: seq<Pattern>, write: seq<Pattern>, delete: seq<Pattern>)

  datatype Policy = Policy(readOnly: seq<Pattern>, identities: map<Bytes, RuleSet>)

  const SESSIONS: Bytes := [SLASH, 'S' as int, 'e' as int, 's' as int, 's' as int, 'i' as int, 'o' as int, 'n' as int, 's' as int]
  const NEW_NODES: Bytes := ['N' as int, 'e' as int, 'w' as int, 'N' as int, 'o' as int, 'd' as int, 'e' as int, 's' as int]
  const ERRORS: Bytes := ['E' as int, 'r' as int, 'r' as int, 'o' as int, 'r' as int, 's' as int]
  const QUERY_RESULTS: Bytes :=
    ['Q' as int, 'u' as int, 'e' as int, 'r' as int, 'y' as int,
     'R' as int, 'e' as int, 's' as int, 'u' as int, 'l' as int, 't' as int, 's' as int]
  const STAR: Bytes := ['*' as int]

  predicate AnyMatch(patterns: seq<Pattern>, path: Bytes) {
    exists i :: 0 <= i < |patterns| && patterns[i](path)
  }

  /** strings.Cut at the first slash. */
  function CutSlash(s: Bytes): (Bytes, Option<Bytes>) {
    if s == [] then ([], None)
    else if s[0] == SLASH then ([], Some(s[1..]))
    else
      var (head, tail) := CutSlash(s[1..]);
      ([s[0]] + head, tail)
  }

  /** sessionRule: the answer for a path under /Sessions, None for any other path. */
  function SessionRule(own: Bytes, op: Op, path: Bytes): Option<bool> {
    if path == SESSIONS then Some(op == OpRead)
    else if !(SESSIONS + [SLASH] <= path) then None
    else
      var (session, below) := CutSlash(path[|SESSIONS| + 1..]);
      if session != own then Some(false)
      else if below.None? then Some(op == OpRead)
      else
        var (container, deeper) := CutSlash(below.value);
        if container == NEW_NODES then Some(deeper.Some? || op == OpRead)
        else if container == ERRORS || container == QUERY_RESULTS then
          Some(op == OpRead || (deeper.Some? && op == OpDelete))
        else Some(op == OpRead)
  }

  predicate RuleAllows(rs: RuleSet, op: Op, path: Bytes) {
    match op
    case OpRead => AnyMatch(rs.read, path) || AnyMatch(rs.write, path) || AnyMatch(rs.delete, path)
    case OpWrite => AnyMatch(rs.write, path)
    case OpDelete => AnyMatch(rs.delete, path)
  }

  predicate IdentityAllows(p: Policy, id: Bytes, op: Op, path: Bytes) {
    id in p.identities && RuleAllows(p.identities[id], op, path)
  }

  /** checker.Allowed; no policy loaded is None. */
  predicate Allowed(policy: Option<Policy>, identity: Bytes, own: Bytes, op: Op, path: Bytes) {
    var rule := SessionRule(own, op, path);
    if rule.Some? then rule.value
    else if policy.None? then true
    else if op != OpRead && AnyMatch(policy.value.readOnly, path) then false
    else IdentityAllows(policy.value, identity, op, path) || IdentityAllows(policy.value, STAR, op, path)
  }

  function SessionChecker(policy: Option<Policy>, identity: Bytes, own: Bytes): Checker {
    (op: Op, path: Bytes) => Allowed(policy, identity, own, op, path)
  }

  /** What may be changed or removed may be read: otherwise it could not be addressed at all. */
  lemma AllowedImpliesRead(policy: Option<Policy>, identity: Bytes, own: Bytes, op: Op, path: Bytes)
    requires Allowed(policy, identity, own, op, path)
    ensures Allowed(policy, identity, own, OpRead, path)
  {
  }

  /** Under /Sessions no policy and no identity makes any difference. */
  lemma PolicyHasNoSayInSessions(p: Option<Policy>, q: Option<Policy>, i: Bytes, j: Bytes, own: Bytes, op: Op,
                                 path: Bytes)
    requires path == SESSIONS || SESSIONS + [SLASH] <= path
    ensures Allowed(p, i, own, op, path) == Allowed(q, j, own, op, path)
  {
  }

  /** The subtree of the session whose key is id: its own path, and every path below it. */
  predicate InSession(id: Bytes, path: Bytes) {
    var top := SESSIONS + [SLASH] + id;
    path == top || top + [SLASH] <= path
  }

  lemma {:induction false} CutOfJoined(head: Bytes, tail: Bytes)
    requires SLASH !in head && (tail == [] || tail[0] == SLASH)
    ensures CutSlash(head + tail) == (head, if tail == [] then None else Some(tail[1..]))
  {
    if head == [] {
      assert head + tail == tail;
    } else {
      assert (head + tail)[1..] == head[1..] + tail;
      CutOfJoined(head[1..], tail);
      assert head == [head[0]] + head[1..];
    }
  }

  /** Another session's subtree can be neither seen nor touched, whatever the policy. */
  lemma OtherSessionsAreClosed(policy: Option<Policy>, identity: Bytes, own: Bytes, other: Bytes, op: Op, path: Bytes)
    requires SLASH !in own && SLASH !in other && own != other && InSession(other, path)
    ensures !Allowed(policy, identity, own, op, path)
  {
    var prefix := SESSIONS + [SLASH];
    var top := prefix + other;
    var tail := path[|top|..];
    assert path == top + tail;
    assert path[|prefix|..] == other + tail;
    assert prefix <= path && path != SESSIONS;
    CutOfJoined(other, tail);
  }

  /** One of this session's own containers, or something below it. */
  function OwnPath(own: Bytes, container: Bytes, below: Option<Bytes>): Bytes {
    SESSIONS + [SLASH] + own + [SLASH] + container + (if below.Some? then [SLASH] + below.value else [])
  }

  lemma OwnPathRule(own: Bytes, container: Bytes, below: Option<Bytes>, op: Op)
    requires SLASH !in own && SLASH !in container
    ensures SessionRule(own, op, OwnPath(own, container, below))
         == if container == NEW_NODES then Some(below.Some? || op == OpRead)
            else if container == ERRORS || container == QUERY_RESULTS then Some(op == OpRead || (below.Some? && op == OpDelete))
            else Some(op == OpRead)
  {
    var prefix := SESSIONS + [SLASH];
    var tail := if below.Some? then [SLASH] + below.value else [];
    var path := OwnPath(own, container, below);
    assert path == prefix + (own + ([SLASH] + (container + tail)));
    assert prefix <= path && path[|prefix|..] == own + ([SLASH] + (container + tail));
    assert ([SLASH] + (container + tail))[1..] == container + tail;
    CutOfJoined(own, [SLASH] + (container + tail));
    CutOfJoined(container, tail);
    if below.Some? {
      assert tail[1..] == below.value;
    }
  }

  /**
   * Within its own session a client may do anything below its staging node, read and
   * delete below its errors and results, and otherwise only read, whatever the policy.
   */
  lemma OwnSessionIsOpenWhereItShouldBe(policy: Option<Policy>, identity: Bytes, own: Bytes, container: Bytes,
                                        below: Option<Bytes>, op: Op)
    requires SLASH !in own && SLASH !in container
    ensures Allowed(policy, identity, own, op, OwnPath(own, container, below)) <==>
              || op == OpRead
              || (below.Some? && container == NEW_NODES)
              || (below.Some? && op == OpDelete && (container == ERRORS || container == QUERY_RESULTS))
  {
    hide OwnPath, SessionRule;
    OwnPathRule(own, container, below, op);
  }

  /** A rule for the identity, or for "*", matches: to read, a rule of any kind; to change, one of that kind. */
  ghost predicate RuleGrants(p: Policy, identity: Bytes, op: Op, path: Bytes) {
    exists id, q: Pattern ::
      && (id == identity || id == ['*' as int]) && id in p.identities && q(path)
      && (|| (op != OpDelete && q in p.identities[id].write)
          || (op != OpWrite && q in p.identities[id].delete)
          || (op == OpRead && q in p.identities[id].read))
  }

  /**
   * Outside /Sessions a policy allows exactly what some rule of the identity, or of
   * everyone, grants, less changes to read-only paths; without a policy all is allowed.
   */
  lemma PolicyGrantsExactly(policy: Option<Policy>, identity: Bytes, own: Bytes, op: Op, path: Bytes)
    requires path != SESSIONS && !(SESSIONS + [SLASH] <= path)
    ensures policy.None? ==> Allowed(policy, identity, own, op, path)
    ensures policy.Some? ==>
              var p := policy.value;
              Allowed(policy, identity, own, op, path) <==>
                && (op == OpRead || forall q :: q in p.readOnly ==> !q(path))
                && RuleGrants(p, identity, op, path)
  {
  }

  /** "/Sessions" and a session's own root can be read and never changed. */
  lemma SessionRootsAreReadOnly(policy: Option<Policy>, identity: Bytes, own: Bytes, op: Op)
    requires SLASH !in own
    ensures Allowed(policy, identity, own, op, SESSIONS) <==> op == OpRead
    ensures Allowed(policy, identity, own, op, SESSIONS + [SLASH] + own) <==> op == OpRead
  {
    var path := SESSIONS + [SLASH] + own;
    assert path[|SESSIONS| + 1..] == own + [];
    CutOfJoined(own, []);
    assert SESSIONS + [SLASH] <= path;
  }
}
