/**
 * Where the expressions lead that a session hands out: the pointer to an error
 * (goimpl/internal/server/server.go:476-489) and the path under which a transfer's
 * results are continued (server.go:592-598 and 733-742). Each parses to the keys from
 * the root down, and the session's own client finds the node under it.
 */
module SessionPointers {
  import opened Basics
  import opened WireTypes
  import opened Expression
  import opened Authz
  import opened Flatten
  import opened TreeState
  import opened TreeRead
  import opened TreePaths
  import opened TreeGrow
  import opened TreeGetMethods
  import opened ResultEntries
  import opened SessionEffects
  import GetPages
  import Session

  // --- expressions made of keys ------------------------------------------------------------

  /** Nothing in it that the expression grammar treats specially, but for "=". */
  predicate KeyText(key: Bytes) {
    key != [] && SLASH !in key && BACKSLASH !in key && AT !in key
  }

  /** Keys from the root down, each behind a slash, with "=" escaped. */
  function KeysExpression(keys: seq<Bytes>): Bytes {
    if keys == [] then [] else [SLASH] + Escape(keys[0], EQUALS) + KeysExpression(keys[1..])
  }

  function KeySegments(keys: seq<Bytes>): seq<Segment> {
    seq(|keys|, i requires 0 <= i < |keys| => Segment(keys[i], None))
  }

  /** Splitting at slashes leaves it in one piece, as it is. */
  predicate OnePiece(p: Bytes) {
    SLASH !in p && forall i :: 0 <= i < |p| && p[i] == BACKSLASH ==> i + 1 < |p| && p[i + 1] != BACKSLASH
  }

  lemma {:induction false} SplitPiece(p: Bytes, rest: Bytes)
    requires OnePiece(p) && (rest == [] || rest[0] == SLASH)
    ensures SplitAll(p + rest, SLASH) == (if rest == [] then [p] else [p] + SplitAll(rest[1..], SLASH))
    decreases |p|
  {
    if p == [] {
      assert p + rest == rest;
    } else {
      var s := p + rest;
      assert s[0] == p[0] && s[1..] == p[1..] + rest;
      if p[0] == BACKSLASH {
        assert s[1] == p[1] && p[1] in p;
      }
      assert !EscapeAt(s, SLASH) && p[0] in p;
      PieceTail(p);
      SplitPiece(p[1..], rest);
      assert p == [p[0]] + p[1..];
    }
  }

  lemma PieceTail(p: Bytes)
    requires OnePiece(p) && p != []
    ensures OnePiece(p[1..])
  {
    var t := p[1..];
    assert forall i :: 0 <= i < |t| ==> t[i] == p[i + 1];
    forall i | 0 <= i < |t| && t[i] == BACKSLASH
      ensures i + 1 < |t| && t[i + 1] != BACKSLASH
    {
      assert p[i + 1] == BACKSLASH;
      assert t[i + 1] == p[i + 2];
    }
  }

  lemma {:induction false} EscapedKeyIsPiece(key: Bytes)
    requires SLASH !in key && BACKSLASH !in key
    ensures OnePiece(Escape(key, EQUALS)) && (key != [] ==> Escape(key, EQUALS) != [])
    ensures key == [] || Escape(key, EQUALS)[0] == BACKSLASH || Escape(key, EQUALS)[0] == key[0]
  {
    if key != [] {
      EscapedKeyIsPiece(key[1..]);
      var tail := Escape(key[1..], EQUALS);
      var e := Escape(key, EQUALS);
      assert key[0] in key;
      if key[0] == EQUALS {
        assert e == [BACKSLASH, EQUALS] + tail;
        assert forall i :: 2 <= i < |e| ==> e[i] == tail[i - 2];
      } else {
        assert e == [key[0]] + tail;
        assert forall i :: 1 <= i < |e| ==> e[i] == tail[i - 1];
      }
    }
  }

  function EscapedKeys(keys: seq<Bytes>): (parts: seq<Bytes>)
    ensures |parts| == |keys|
  {
    if keys == [] then [] else [Escape(keys[0], EQUALS)] + EscapedKeys(keys[1..])
  }

  lemma {:induction false} SplitKeys(keys: seq<Bytes>)
    requires keys != [] && forall k :: k in keys ==> KeyText(k)
    ensures KeysExpression(keys) != [] && KeysExpression(keys)[0] == SLASH
    ensures SplitAll(KeysExpression(keys)[1..], SLASH) == EscapedKeys(keys)
  {
    hide SplitAll, Escape, OnePiece;
    var p, rest := Escape(keys[0], EQUALS), KeysExpression(keys[1..]);
    assert keys[0] in keys;
    EscapedKeyIsPiece(keys[0]);
    assert KeysExpression(keys)[1..] == p + rest;
    if |keys| > 1 {
      SplitKeys(keys[1..]);
    }
    SplitPiece(p, rest);
  }

  lemma {:induction false} ParseKeys(re: Regexps, keys: seq<Bytes>)
    requires forall k :: k in keys ==> KeyText(k) && re.compiles(k)
    ensures ParseParts(re, EscapedKeys(keys)) == Ok(KeySegments(keys))
  {
    if keys != [] {
      hide ParseSegment, Escape;
      assert keys[0] in keys;
      EscapedKeyIsPiece(keys[0]);
      KeyWritten(keys[0]);
      ParseKeys(re, keys[1..]);
      assert EscapedKeys(keys)[1..] == EscapedKeys(keys[1..]);
      assert KeySegments(keys) == [Segment(keys[0], None)] + KeySegments(keys[1..]);
    }
  }

  lemma KeyWritten(key: Bytes)
    ensures ParseSegment(Escape(key, EQUALS)) == Segment(key, None)
  {
    ParseWritten(Segment(key, None));
    assert WriteSegment(Segment(key, None)) == Escape(key, EQUALS);
  }

  /** It parses to exactly those keys, without value predicates. */
  lemma KeysParse(re: Regexps, keys: seq<Bytes>)
    requires keys != [] && forall k :: k in keys ==> KeyText(k) && re.compiles(k)
    ensures Parse(re, KeysExpression(keys)) == Ok(KeySegments(keys))
  {
    hide Escape;
    var e := KeysExpression(keys);
    SplitKeys(keys);
    assert !EscapeAt(e, SLASH);
    assert SplitAll(e, SLASH) == [[]] + SplitAll(e[1..], SLASH);
    ParseKeys(re, keys);
    hide SplitAll, KeysExpression;
    var parts := SplitAll(e[1..], SLASH);
    assert ([[]] + parts)[1..] == parts;
    assert ParseParts(re, [[]] + parts) == ParseParts(re, parts);
  }

  lemma {:induction false} EscapePlain(key: Bytes)
    requires EQUALS !in key && BACKSLASH !in key
    ensures Escape(key, EQUALS) == key
  {
    if key != [] {
      assert key[0] in key;
      EscapePlain(key[1..]);
      assert key == [key[0]] + key[1..];
    }
  }

  lemma {:induction false} EscapeConcat(a: Bytes, b: Bytes)
    ensures Escape(a + b, EQUALS) == Escape(a, EQUALS) + Escape(b, EQUALS)
  {
    if a == [] {
      assert a + b == b;
    } else {
      assert (a + b)[1..] == a[1..] + b;
      EscapeConcat(a[1..], b);
    }
  }

  /** No "@", no doubled backslash and none at the end: a continuation of it leads back to it. */
  lemma {:induction false} KeysAreClean(keys: seq<Bytes>)
    requires forall k :: k in keys ==> KeyText(k)
    ensures CleanBase(KeysExpression(keys))
  {
    if keys != [] {
      hide Escape;
      assert keys[0] in keys;
      KeysAreClean(keys[1..]);
      EscapedKeyIsClean(keys[0]);
      CleanJoin(Escape(keys[0], EQUALS), KeysExpression(keys[1..]));
    }
  }

  lemma {:induction false} EscapedKeyIsClean(key: Bytes)
    requires SLASH !in key && BACKSLASH !in key && AT !in key
    ensures CleanBase(Escape(key, EQUALS))
  {
    if key != [] {
      EscapedKeyIsClean(key[1..]);
      var tail := Escape(key[1..], EQUALS);
      var e := Escape(key, EQUALS);
      EscapedKeyIsPiece(key);
      assert key[0] in key;
      if key[0] == EQUALS {
        assert e == [BACKSLASH, EQUALS] + tail;
        assert forall i :: 2 <= i < |e| ==> e[i] == tail[i - 2];
      } else {
        assert e == [key[0]] + tail;
        assert forall i :: 1 <= i < |e| ==> e[i] == tail[i - 1];
      }
    }
  }

  lemma CleanJoin(a: Bytes, b: Bytes)
    requires CleanBase(a) && CleanBase(b) && (b == [] || b[0] == SLASH)
    ensures CleanBase([SLASH] + a + b)
  {
    var e := [SLASH] + a + b;
    assert forall i :: 0 <= i < |e| ==> e[i] == if i == 0 then SLASH else if i <= |a| then a[i - 1] else b[i - 1 - |a|];
  }

  // --- nodes along keys ------------------------------------------------------------------------

  /** The nodes that the keys lead through. */
  lemma {:induction false} KeysChain(s: Snap, root: Node, start: Node, keys: seq<Bytes>, n: Node)
    returns (path: seq<Node>)
    requires Inv(s, root) && IsPath(s, start, keys, n)
    ensures |path| == |keys| && IsChain(s, start, path) && n == Above(start, path, |path|)
    ensures forall i :: 0 <= i < |keys| ==> path[i].key == keys[i]
    decreases |keys|
  {
    hide Inv;
    if keys == [] {
      path := [];
    } else {
      var c := FirstWithKey(s[start].children, keys[0]);
      FirstWithKeySpec(s[start].children, keys[0]);
      var rest := KeysChain(s, root, c, keys[1..], n);
      path := [c] + rest;
      assert Listed(s, start, path, 0);
      forall i | 0 <= i < |path|
        ensures Listed(s, start, path, i)
      {
        assert i > 0 ==> Listed(s, c, rest, i - 1);
      }
    }
  }

  /** Every pattern compiles, and matches the key it is made of. */
  predicate Literal(re: Regexps, keys: seq<Bytes>) {
    forall k :: k in keys ==> re.compiles(k) && re.matches(k, k)
  }

  /** A node under these keys is found by their expression, if the caller may read it. */
  lemma KeysFind(env: Engine, s: Snap, root: Node, auth: Option<Checker>, keys: seq<Bytes>, path: seq<Node>)
    requires Inv(s, root) && IsChain(s, root, path) && |path| == |keys| > 0 && Literal(env.re, keys)
    requires forall i :: 0 <= i < |keys| ==> path[i].key == keys[i]
    requires auth.None? || auth.value(OpRead, KeysText(path))
    ensures path[|path| - 1] in Evaluate(env, s, root, auth, KeySegments(keys))
  {
    hide Inv, Evaluate, Below, Height, NodePath;
    NodePathIsKeys(s, root, path);
    var segments := KeySegments(keys);
    forall i | 0 <= i < |path|
      ensures Admits(env, s, auth, segments[i], i == |segments| - 1, path[i])
    {
      ChainPart(s, root, path, i + 1);
      ChainInside(s, root, path[..i + 1]);
      assert keys[i] in keys && segments[i] == Segment(keys[i], None);
    }
    PathsAreFound(env, s, root, auth, segments, path);
  }

  lemma ChainPart(s: Snap, root: Node, path: seq<Node>, k: nat)
    requires IsChain(s, root, path) && k <= |path|
    ensures IsChain(s, root, path[..k])
  {
    forall i | 0 <= i < k
      ensures Listed(s, root, path[..k], i)
    {
      assert Listed(s, root, path, i);
    }
  }

  /** Of those under each node of the path only the next one matches its pattern. */
  ghost predicate Alone(re: Regexps, s: Snap, root: Node, keys: seq<Bytes>, path: seq<Node>)
    requires |keys| == |path|
  {
    forall i, c :: 0 <= i < |path| && c in KidsOf(s, Above(root, path, i)) && re.matches(keys[i], c.key) ==> c == path[i]
  }

  /** Then it is all that is found. */
  lemma KeysFindOnly(env: Engine, s: Snap, root: Node, auth: Option<Checker>, keys: seq<Bytes>, path: seq<Node>)
    requires Inv(s, root) && IsChain(s, root, path) && |path| == |keys| > 0 && Literal(env.re, keys)
    requires forall i :: 0 <= i < |keys| ==> path[i].key == keys[i]
    requires auth.None? || auth.value(OpRead, KeysText(path))
    requires Alone(env.re, s, root, keys, path)
    ensures Evaluate(env, s, root, auth, KeySegments(keys)) == [path[|path| - 1]]
  {
    hide Inv, Evaluate, Alone, IsChain, KeysText, Admits;
    var segments, n := KeySegments(keys), path[|path| - 1];
    KeysFind(env, s, root, auth, keys, path);
    EvaluateHasNoRepeats(env, s, root, auth, segments);
    var found := Evaluate(env, s, root, auth, segments);
    forall m | m in found
      ensures m == n
    {
      var other := FoundHasPath(env, s, root, auth, segments, m);
      SamePath(env, s, root, auth, keys, path, other, |keys|);
    }
    OneFound(found, n);
  }

  lemma OneFound(found: seq<Node>, n: Node)
    requires NoDup(found) && n in found && forall m :: m in found ==> m == n
    ensures found == [n]
  {
    var last := |found| - 1;
    assert found[0] in found && found[last] in found;
  }

  lemma {:induction false} SamePath(env: Engine, s: Snap, root: Node, auth: Option<Checker>, keys: seq<Bytes>,
                                    path: seq<Node>, other: seq<Node>, k: nat)
    requires |path| == |keys| == |other| && k <= |keys| && Alone(env.re, s, root, keys, path)
    requires Follows(env, s, root, auth, KeySegments(keys), other)
    ensures other[..k] == path[..k]
  {
    hide Admits, KidsOf;
    if k > 0 {
      SamePath(env, s, root, auth, keys, path, other, k - 1);
      assert Listed(s, root, other, k - 1);
      assert Admits(env, s, auth, KeySegments(keys)[k - 1], k == |keys|, other[k - 1]);
      AdmitsKey(env, s, auth, KeySegments(keys)[k - 1], k == |keys|, other[k - 1]);
      assert k > 1 ==> other[k - 2] == other[..k - 1][k - 2] == path[..k - 1][k - 2] == path[k - 2];
      assert Above(root, other, k - 1) == Above(root, path, k - 1);
      assert other[..k] == other[..k - 1] + [other[k - 1]] && path[..k] == path[..k - 1] + [path[k - 1]];
    }
  }

  lemma AdmitsKey(env: Engine, s: Snap, auth: Option<Checker>, seg: Segment, last: bool, n: Node)
    requires Admits(env, s, auth, seg, last, n)
    ensures env.re.matches(seg.key, n.key)
  {
  }

  // --- an error's pointer ------------------------------------------------------------------------

  lemma KeysCons(keys: seq<Bytes>)
    ensures KeysExpression([]) == []
    ensures keys != [] ==> KeysExpression(keys) == [SLASH] + Escape(keys[0], EQUALS) + KeysExpression(keys[1..])
  {
  }

  function SessionKey(id: Bytes): Bytes {
    Text("Connection-ID=") + id
  }

  lemma TextConcat(a: string, b: string)
    ensures Text(a + b) == Text(a) + Text(b)
  {
  }

  /** "Connection-ID=", or the like, with its "=" escaped, in front of a plain text. */
  lemma EscapedName(name: string, rest: Bytes)
    requires forall i :: 0 <= i < |name| ==> name[i] != '=' && name[i] != '\\' && name[i] as int < 256
    requires EQUALS !in rest && BACKSLASH !in rest
    ensures Escape(Text(name + "=") + rest, EQUALS) == Text(name + "\\=") + rest
  {
    NameIsPlain(name);
    hide Escape, Text;
    TextConcat(name, "=");
    TextConcat(name, "\\=");
    EscapePlain(Text(name));
    EscapePlain(rest);
    EscapeConcat(Text(name + "="), rest);
    EscapeConcat(Text(name), Text("="));
    EscapedEquals();
  }

  lemma NameIsPlain(name: string)
    requires forall i :: 0 <= i < |name| ==> name[i] != '=' && name[i] != '\\' && name[i] as int < 256
    ensures EQUALS !in Text(name) && BACKSLASH !in Text(name)
  {
  }

  lemma EscapedEquals()
    ensures Escape(Text("="), EQUALS) == Text("\\=")
  {
    assert Text("=") == [EQUALS] && Text("\\=") == [BACKSLASH, EQUALS];
    assert Escape([EQUALS], EQUALS) == [BACKSLASH, EQUALS] + Escape([EQUALS][1..], EQUALS);
  }

  function ErrorKeys(id: Bytes, code: Bytes): seq<Bytes> {
    [Text("Sessions"), SessionKey(id), Text("Errors"), code]
  }

  predicate PlainText(x: Bytes) {
    KeyText(x) && EQUALS !in x
  }

  lemma ErrorPathIsKeys(id: Bytes, code: Bytes)
    requires PlainText(id) && PlainText(code)
    ensures ErrorPath(id, code) == KeysExpression(ErrorKeys(id, code))
    ensures forall k :: k in ErrorKeys(id, code) ==> KeyText(k)
  {
    hide Escape, Text, KeysExpression;
    var keys := ErrorKeys(id, code);
    EscapedName("Connection-ID", id);
    ErrorTexts();
    SessionsText();
    ErrorsText();
    ConnectionText();
    EscapePlain(Text("Sessions"));
    EscapePlain(Text("Errors"));
    EscapePlain(code);
    KeysCons(keys);
    KeysCons(keys[1..]);
    KeysCons(keys[2..]);
    KeysCons(keys[3..]);
    assert keys[1..][1..] == keys[2..] && keys[2..][1..] == keys[3..];
    var none: seq<Bytes> := keys[3..][1..];
    assert |none| == 0;
  }

  lemma SlashedText(name: string)
    ensures Text("/" + name) == [SLASH] + Text(name) && Text("/" + name + "/") == [SLASH] + Text(name) + [SLASH]
  {
    TextConcat("/", name);
    TextConcat("/" + name, "/");
    assert Text("/") == [SLASH];
  }

  lemma LettersArePlain(s: string)
    requires s != "" && forall i :: 0 <= i < |s| ==> 'A' <= s[i] <= 'Z' || 'a' <= s[i] <= 'z'
    ensures PlainText(Text(s))
  {
    assert forall i :: 0 <= i < |s| ==> Text(s)[i] == s[i] as int;
  }

  lemma NameIsKey(s: string)
    requires s != "" && forall i :: 0 <= i < |s| ==> 'A' <= s[i] <= 'Z' || 'a' <= s[i] <= 'z' || s[i] == '-' || s[i] == '='
    ensures KeyText(Text(s))
  {
    assert forall i :: 0 <= i < |s| ==> Text(s)[i] == s[i] as int;
  }

  lemma SessionsText()
    ensures PlainText(Text("Sessions")) && SESSIONS == [SLASH] + Text("Sessions")
  {
    assert Text("Sessions") == ['S' as int, 'e' as int, 's' as int, 's' as int, 'i' as int, 'o' as int, 'n' as int, 's' as int];
  }

  lemma ErrorsText()
    ensures PlainText(Text("Errors")) && ERRORS == Text("Errors")
  {
    assert Text("Errors") == ['E' as int, 'r' as int, 'r' as int, 'o' as int, 'r' as int, 's' as int];
  }

  lemma ConnectionText()
    ensures KeyText(Text("Connection-ID="))
  {
    NameIsKey("Connection-ID=");
  }

  /** The fixed parts of an error's pointer. */
  lemma ErrorTexts()
    ensures Text("Connection-ID" + "=") == Text("Connection-ID=")
    ensures Text("/Sessions/Connection-ID\\=") == [SLASH] + Text("Sessions") + [SLASH] + Text("Connection-ID" + "\\=")
    ensures Text("/Errors/") == [SLASH] + Text("Errors") + [SLASH]
  {
    hide Text;
    assert "Connection-ID" + "=" == "Connection-ID=";
    assert "/Sessions/Connection-ID\\=" == ("/" + "Sessions" + "/") + ("Connection-ID" + "\\=");
    assert "/Errors/" == "/" + "Errors" + "/";
    TextConcat("/" + "Sessions" + "/", "Connection-ID" + "\\=");
    SlashedText("Sessions");
    SlashedText("Errors");
  }

  /** An own path below a container can be read in one's own session, whatever the policy. */
  lemma OwnKeysReadable(policy: Option<Policy>, identity: Bytes, id: Bytes, container: Bytes, below: Bytes)
    requires PlainText(id) && SLASH !in container
    ensures SessionChecker(policy, identity, SessionKey(id))
              (OpRead, [SLASH] + Text("Sessions") + [SLASH] + SessionKey(id) + [SLASH] + container + [SLASH] + below)
  {
    hide Text, Allowed;
    ConnectionText();
    SessionsText();
    OwnSessionIsOpenWhereItShouldBe(policy, identity, SessionKey(id), container, Some(below), OpRead);
    assert OwnPath(SessionKey(id), container, Some(below))
        == [SLASH] + Text("Sessions") + [SLASH] + SessionKey(id) + [SLASH] + container + [SLASH] + below;
  }

  lemma KeysTextSnoc(path: seq<Node>, n: Node)
    ensures KeysText(path + [n]) == KeysText(path) + [SLASH] + n.key
  {
    assert (path + [n])[..|path|] == path;
  }

  /** The text of a path in a session, container and what follows. */
  lemma ContainerText(path: seq<Node>, id: Bytes, container: Bytes)
    requires |path| == 3 && path[0].key == Text("Sessions") && path[1].key == SessionKey(id) && path[2].key == container
    ensures KeysText(path) == [SLASH] + Text("Sessions") + [SLASH] + SessionKey(id) + [SLASH] + container
  {
    hide Text;
    KeysTextSnoc([], path[0]);
    KeysTextSnoc([path[0]], path[1]);
    KeysTextSnoc([path[0], path[1]], path[2]);
    assert [] + [path[0]] == [path[0]] && [path[0]] + [path[1]] == [path[0], path[1]];
    assert path == [path[0], path[1]] + [path[2]];
  }

  /** The nodes from the root to one of a session's containers. */
  lemma ContainerChain(s: Snap, root: Node, id: Bytes, container: Bytes, n: Node) returns (path: seq<Node>)
    requires Inv(s, root) && IsPath(s, root, Session.SessionKeys(id) + [container], n)
    ensures |path| == 3 && IsChain(s, root, path) && path[2] == n
    ensures path[0].key == Text("Sessions") && path[1].key == SessionKey(id) && path[2].key == container
  {
    hide Inv, Text;
    var keys := Session.SessionKeys(id) + [container];
    path := KeysChain(s, root, root, keys, n);
    assert keys[0] == Text("Sessions") && keys[1] == SessionKey(id) && keys[2] == container;
  }

  /**
   * The pointer in an error's reply parses to the four keys from the root down to the
   * error's code, and the session's own client, whatever the policy, finds under it the
   * error node that was recorded for its request.
   */
  lemma ErrorPointerLeads(env: Engine, policy: Option<Policy>, identity: Bytes, id: Bytes, st: State, t: State,
                          root: Node,
                          errors: Node, code: Bytes, message: Bytes, requestSeq: uint64) returns (e: Node)
    requires Sane(st, root) && IsPath(st.s, root, Session.SessionKeys(id) + [ERRORS], errors)
    requires Recorded(st, t, errors, code, message, requestSeq)
    requires PlainText(id) && PlainText(code) && Literal(env.re, ErrorKeys(id, code))
    ensures Inv(t.s, root) && e in t.s && e !in st.s && e.key == code && t.s[e].parent == errors
    ensures Parse(env.re, ErrorPath(id, code)) == Ok(KeySegments(ErrorKeys(id, code)))
    ensures e in Evaluate(env, t.s, root, Some(SessionChecker(policy, identity, SessionKey(id))),
                          KeySegments(ErrorKeys(id, code)))
    ensures |t.s[e].children| == 2
    ensures var (m, r) := (t.s[e].children[0], t.s[e].children[1]);
            && m in t.s && m.key == Text("message") && t.s[m].value == OctetStringValue(message)
            && r in t.s && r.key == Text("requestSequenceNumber") && t.s[r].value == Counter64Value(requestSeq)
  {
    hide Inv, IdsOk, Evaluate, Text, KeysExpression, ErrorPath, Escape, AppendUnder, IsPath, Grows, SessionChecker,
         IsChain,
         RecordedAs, KeyText, Session.SessionKeys;
    var en, m, r :| en in t.s && m in t.s && r in t.s && RecordedAs(st, t, errors, code, message, requestSeq, en, m, r);
    e := en;
    RecordedFields(st, t, root, errors, code, message, requestSeq, e, m, r, Session.SessionKeys(id) + [ERRORS]);
    ErrorPathIsKeys(id, code);
    KeysParse(env.re, ErrorKeys(id, code));
    ErrorsText();
    var path := ContainerChain(t.s, root, id, ERRORS, errors);
    ContainerText(path, id, ERRORS);
    KeysTextSnoc(path, e);
    ChainSnoc(t.s, root, path, e);
    OwnKeysReadable(policy, identity, id, ERRORS, code);
    hide KeysText, ErrorKeys;
    ErrorPathKeys(id, code, path + [e]);
    KeysFind(env, t.s, root, Some(SessionChecker(policy, identity, SessionKey(id))), ErrorKeys(id, code), path + [e]);
  }

  lemma ErrorPathKeys(id: Bytes, code: Bytes, path: seq<Node>)
    requires |path| == 4 && path[0].key == Text("Sessions") && path[1].key == SessionKey(id)
    requires path[2].key == Text("Errors") && path[3].key == code
    ensures |ErrorKeys(id, code)| == 4 && forall i :: 0 <= i < 4 ==> path[i].key == ErrorKeys(id, code)[i]
  {
    hide Text;
  }

  /** What recording an error leaves: its node under the container, with its two children. */
  lemma RecordedFields(st: State, t: State, root: Node, errors: Node, code: Bytes, message: Bytes, requestSeq: uint64,
                       e: Node, m: Node, r: Node, keys: seq<Bytes>)
    requires Sane(st, root) && RecordedAs(st, t, errors, code, message, requestSeq, e, m, r) && IsPath(st.s, root, keys, errors)
    ensures Inv(t.s, root) && IsPath(t.s, root, keys, errors)
    ensures e in t.s && e !in st.s && e.key == code && t.s[e].parent == errors && e in KidsOf(t.s, errors)
    ensures t.s[e].children == [m, r]
    ensures m in t.s && m.key == Text("message") && t.s[m].value == OctetStringValue(message)
    ensures r in t.s && r.key == Text("requestSequenceNumber") && t.s[r].value == Counter64Value(requestSeq)
  {
    hide Inv, IdsOk, Text, IsPath, Grows, Appended, ReachSet;
    var one := AppendUnder(st, errors, e, NoValue);
    var two := AppendUnder(one, e, m, OctetStringValue(message));
    AppendedFields(st.s, errors, e, NoValue, st.last + 1);
    AppendedFields(one.s, e, m, OctetStringValue(message), one.last + 1);
    AppendedFields(two.s, e, r, Counter64Value(requestSeq), two.last + 1);
    PathSurvives(st, root, keys, errors, errors, e, NoValue);
    PathSurvives(one, root, keys, errors, e, m, OctetStringValue(message));
    PathSurvives(two, root, keys, errors, e, r, Counter64Value(requestSeq));
    AppendUnderGrows(st, root, errors, e, NoValue);
    GrownSane(st, one, root, {e});
    AppendUnderGrows(one, root, e, m, OctetStringValue(message));
    GrownSane(one, two, root, {m});
    AppendUnderGrows(two, root, e, r, Counter64Value(requestSeq));
    GrownSane(two, t, root, {r});
    assert [] + [m] == [m] && [m] + [r] == [m, r];
    assert e in st.s[errors].children + [e];
  }

  /** The codes in use, none of which needs escaping. */
  predicate IsCode(code: Bytes) {
    || code == Text("InvalidExpression") || code == Text("PermissionDenied") || code == Text("InvalidSet")
    || code == Text("InvalidDelete") || code == Text("InvalidCreate") || code == Text("InvalidQuery")
  }

  lemma CodesArePlain(code: Bytes)
    requires IsCode(code)
    ensures PlainText(code)
  {
    hide Text, PlainText;
    LettersArePlain("InvalidExpression");
    LettersArePlain("PermissionDenied");
    LettersArePlain("InvalidSet");
    LettersArePlain("InvalidDelete");
    LettersArePlain("InvalidCreate");
    LettersArePlain("InvalidQuery");
  }

  /** The staging container is where Create and Set look for it. */
  lemma NewNodesText()
    ensures PlainText(Text("NewNodes")) && NEW_NODES == Text("NewNodes")
  {
    assert Text("NewNodes") == ['N' as int, 'e' as int, 'w' as int, 'N' as int, 'o' as int, 'd' as int, 'e' as int, 's' as int];
  }

  /**
   * A request that fails is sent one reply, marked as an error and without nodes, whose
   * pointer leads the session's own client to the error node recorded for it.
   */
  lemma FailureLeads(env: Engine, policy: Option<Policy>, identity: Bytes, f: Setup, tx: int64, requestSeq: int64,
                     code: Bytes,
                     message: Bytes, st: State, t: State, sent: seq<Response>) returns (e: Node)
    requires Sane(st, f.root) && IsPath(st.s, f.root, Session.SessionKeys(f.id) + [ERRORS], f.errors)
    requires Failed(f, tx, requestSeq, code, message, st, t, sent) && IsCode(code)
    requires PlainText(f.id) && Literal(env.re, ErrorKeys(f.id, code))
    ensures |sent| == 1 && sent[0].sequenceNumber == tx && sent[0].inReplyTo == requestSeq && sent[0].error && sent[0].nodes == []
    ensures sent[0].errorNode.Some? && sent[0].errorNode.value.AbsolutePointer?
    ensures e in t.s && e !in st.s && e.key == code && t.s[e].parent == f.errors
    ensures var expr := sent[0].errorNode.value.expr;
            var auth := Some(SessionChecker(policy, identity, SessionKey(f.id)));
            && Inv(t.s, f.root) && Parse(env.re, expr) == Ok(KeySegments(ErrorKeys(f.id, code)))
            && e in Evaluate(env, t.s, f.root, auth, Parse(env.re, expr).value)
  {
    hide Inv, Sane, Evaluate, Text, Parse, ErrorPath, IsPath, SessionChecker, Session.SessionKeys, KeySegments, ErrorKeys,
         PlainText, Recorded, Literal;
    CodesArePlain(code);
    e := ErrorPointerLeads(env, policy, identity, f.id, st, t, f.root, f.errors, code, message, requestSeq);
  }

  // --- a transfer's path ---------------------------------------------------------------------------

  function TransferKeys(id: Bytes, querySeq: nat, key: Bytes): seq<Bytes> {
    [Text("Sessions"), SessionKey(id), Text("QueryResults"), QueryKey(querySeq), key]
  }

  lemma ResultsText()
    ensures PlainText(Text("QueryResults")) && QUERY_RESULTS == Text("QueryResults")
  {
    assert Text("QueryResults") == ['Q' as int, 'u' as int, 'e' as int, 'r' as int, 'y' as int,
                                    'R' as int, 'e' as int, 's' as int, 'u' as int, 'l' as int, 't' as int, 's' as int];
  }

  lemma QueryText()
    ensures KeyText(Text("Query-SequenceNumber="))
  {
    NameIsKey("Query-SequenceNumber=");
  }

  lemma TransferStrings()
    ensures "Query-SequenceNumber" + "=" == "Query-SequenceNumber="
    ensures "/QueryResults/Query-SequenceNumber\\=" == ("/" + "QueryResults" + "/") + ("Query-SequenceNumber" + "\\=")
  {
  }

  /** The fixed parts of a transfer's path. */
  lemma TransferTexts()
    ensures Text("Query-SequenceNumber" + "=") == Text("Query-SequenceNumber=")
    ensures Text("/QueryResults/Query-SequenceNumber\\=")
         == [SLASH] + Text("QueryResults") + [SLASH] + Text("Query-SequenceNumber" + "\\=")
  {
    hide Text;
    TransferStrings();
    TextConcat("/" + "QueryResults" + "/", "Query-SequenceNumber" + "\\=");
    SlashedText("QueryResults");
  }

  lemma DigitsArePlain(n: nat)
    ensures PlainText(Decimal(n))
  {
    hide Decimal;
    assert forall i :: 0 <= i < |Decimal(n)| ==> IsDigit(Decimal(n)[i]);
  }

  lemma KeyTextConcat(a: Bytes, b: Bytes)
    requires KeyText(a) && KeyText(b)
    ensures KeyText(a + b)
  {
  }

  lemma TransferKeysPlain(id: Bytes, querySeq: nat, key: Bytes)
    requires PlainText(id) && PlainText(key)
    ensures forall k :: k in TransferKeys(id, querySeq, key) ==> KeyText(k)
  {
    hide Text, Decimal, KeyText;
    SessionsText();
    ConnectionText();
    ResultsText();
    QueryText();
    DigitsArePlain(querySeq);
    KeyTextConcat(Text("Connection-ID="), id);
    KeyTextConcat(Text("Query-SequenceNumber="), Decimal(querySeq));
  }

  lemma TransferPathIsKeys(id: Bytes, querySeq: nat, key: Bytes)
    requires PlainText(id) && PlainText(key)
    ensures TransferPath(id, querySeq, key) == KeysExpression(TransferKeys(id, querySeq, key))
  {
    hide Escape, Text, KeysExpression, Decimal;
    var keys := TransferKeys(id, querySeq, key);
    EscapedName("Connection-ID", id);
    DigitsArePlain(querySeq);
    EscapedName("Query-SequenceNumber", Decimal(querySeq));
    ErrorTexts();
    TransferTexts();
    SessionsText();
    ResultsText();
    EscapePlain(Text("Sessions"));
    EscapePlain(Text("QueryResults"));
    EscapePlain(key);
    KeysCons(keys);
    KeysCons(keys[1..]);
    KeysCons(keys[2..]);
    KeysCons(keys[3..]);
    KeysCons(keys[4..]);
    assert keys[1..][1..] == keys[2..] && keys[2..][1..] == keys[3..] && keys[3..][1..] == keys[4..];
    var none: seq<Bytes> := keys[4..][1..];
    assert |none| == 0;
  }

  lemma ChainGrows(s: Snap, root: Node, path: seq<Node>, a: Node, b: Node)
    requires IsChain(s, root, path) && path != [] && a in KidsOf(s, path[|path| - 1]) && b in KidsOf(s, a)
    ensures IsChain(s, root, path + [a, b]) && KeysText(path + [a, b]) == KeysText(path) + [SLASH] + a.key + [SLASH] + b.key
  {
    hide IsChain, KeysText;
    ChainSnoc(s, root, path, a);
    ChainSnoc(s, root, path + [a], b);
    KeysTextSnoc(path, a);
    KeysTextSnoc(path + [a], b);
    assert path + [a] + [b] == path + [a, b];
  }

  /** What a transfer leaves: its top under the query's results node, with one leaf for each entry. */
  lemma TransferredFields(st: State, t: State, root: Node, n: Node, key: Bytes, entries: seq<Entry>, top: Node)
    requires Sane(st, root) && TransferredTo(st, t, n, key, entries, top)
    ensures Inv(t.s, root) && n in t.s && top in t.s && t.s[n].children == st.s[n].children + [top]
    ensures t.s[top].value == NoValue && |t.s[top].children| == |entries|
    ensures forall i :: 0 <= i < |entries| ==>
              var leaf := t.s[top].children[i];
              leaf in t.s && leaf.key == entries[i].0 && t.s[leaf].value == entries[i].1 && t.s[leaf].children == []
  {
    hide Inv, IdsOk, Grows, AppendLeaves, ReachSet, NoDup, Appended;
    var leaves := KidsOf(t.s, top);
    var one := AppendUnder(st, n, top, NoValue);
    AppendedFields(st.s, n, top, NoValue, st.last + 1);
    TreeState.NoDupCons(top, leaves);
    LeafSubtreeGrows(st, root, n, top, leaves, EntryValues(entries));
    GrownSane(st, t, root, {top} + Members(leaves));
    forall m | m in leaves
      ensures m !in one.s
    {
    }
    LeavesFields(one, root, top, leaves, EntryValues(entries));
    LeavesElsewhere(one, top, leaves, EntryValues(entries), n);
    assert [] + leaves == leaves;
  }

  lemma {:induction false} LeavesElsewhere(st: State, top: Node, leaves: seq<Node>, values: seq<NodeValue>, n: Node)
    requires top in st.s && |values| == |leaves| && n in st.s && n != top
    requires NoDup(leaves) && forall m :: m in leaves ==> m !in st.s
    ensures n in AppendLeaves(st, top, leaves, values).s && AppendLeaves(st, top, leaves, values).s[n] == st.s[n]
  {
    hide Appended;
    if leaves != [] {
      var k := |leaves| - 1;
      LastApart(leaves);
      LeavesElsewhere(st, top, leaves[..k], values[..k], n);
      hide NoDup;
      var before := AppendLeaves(st, top, leaves[..k], values[..k]);
      LeavesInside(st, top, leaves[..k], values[..k]);
      assert leaves[k] in leaves;
      AppendedFields(before.s, top, leaves[k], values[k], before.last + 1);
    }
  }

  lemma {:induction false} LeavesInside(st: State, top: Node, leaves: seq<Node>, values: seq<NodeValue>)
    requires top in st.s && |values| == |leaves|
    ensures AppendLeaves(st, top, leaves, values).s.Keys <= st.s.Keys + Members(leaves)
  {
    if leaves != [] {
      var k := |leaves| - 1;
      LeavesInside(st, top, leaves[..k], values[..k]);
      assert Members(leaves) == Members(leaves[..k]) + {leaves[k]} by {
        assert leaves == leaves[..k] + [leaves[k]];
      }
    }
  }

  /** Paths and child lists stay while leaves are appended elsewhere. */
  lemma {:induction false} LeavesKeepPaths(st: State, root: Node, top: Node, leaves: seq<Node>, values: seq<NodeValue>,
                                           keys: seq<Bytes>, q: Node, c: Node)
    requires top in st.s && |values| == |leaves| && NoDup(leaves) && forall m :: m in leaves ==> m !in st.s
    requires IsPath(st.s, root, keys, q) && c in KidsOf(st.s, q)
    ensures var t := AppendLeaves(st, top, leaves, values); IsPath(t.s, root, keys, q) && c in KidsOf(t.s, q)
  {
    hide Appended, IsPath;
    if leaves != [] {
      var k := |leaves| - 1;
      LastApart(leaves);
      LeavesKeepPaths(st, root, top, leaves[..k], values[..k], keys, q, c);
      hide NoDup;
      var before := AppendLeaves(st, top, leaves[..k], values[..k]);
      LeavesInside(st, top, leaves[..k], values[..k]);
      assert leaves[k] in leaves;
      AppendKeepsPaths(before, root, top, leaves[k], values[k], keys, q, c);
    }
  }

  lemma AppendKeepsPaths(st: State, root: Node, parent: Node, n: Node, value: NodeValue, keys: seq<Bytes>, q: Node,
                         c: Node)
    requires parent in st.s && n !in st.s && IsPath(st.s, root, keys, q) && c in KidsOf(st.s, q)
    ensures var t := AppendUnder(st, parent, n, value); IsPath(t.s, root, keys, q) && c in KidsOf(t.s, q)
  {
    hide Appended, IsPath;
    AppendedFields(st.s, parent, n, value, st.last + 1);
    PathSurvives(st, root, keys, q, parent, n, value);
  }

  /** The nodes from the root to a transfer's top. */
  lemma TransferChain(st: State, t: State, root: Node, id: Bytes, queryResults: Node, n: Node, querySeq: nat, key: Bytes,
                      entries: seq<Entry>, top: Node) returns (path: seq<Node>)
    requires Sane(st, root) && IsPath(st.s, root, Session.SessionKeys(id) + [QUERY_RESULTS], queryResults)
    requires n in KidsOf(st.s, queryResults) && n.key == QueryKey(querySeq)
    requires TransferredTo(st, t, n, key, entries, top)
    ensures Inv(t.s, root) && top in t.s && IsChain(t.s, root, path) && |path| == 5 && path[4] == top
    ensures |TransferKeys(id, querySeq, key)| == 5 && forall i :: 0 <= i < 5 ==> path[i].key == TransferKeys(id, querySeq, key)[i]
    ensures KeysText(path) == [SLASH] + Text("Sessions") + [SLASH] + SessionKey(id) + [SLASH] + QUERY_RESULTS + [SLASH]
                              + QueryKey(querySeq) + [SLASH] + key
  {
    hide Inv, IdsOk, Text, Grows, IsPath, AppendLeaves, IsChain, KeysText, Session.SessionKeys, QueryKey, Appended, NoDup,
         EntryValues;
    var keys, leaves := Session.SessionKeys(id) + [QUERY_RESULTS], KidsOf(t.s, top);
    TransferredFields(st, t, root, n, key, entries, top);
    TreeState.NoDupCons(top, leaves);
    var one := AppendUnder(st, n, top, NoValue);
    AppendedFields(st.s, n, top, NoValue, st.last + 1);
    AppendKeepsPaths(st, root, n, top, NoValue, keys, queryResults, n);
    forall m | m in leaves
      ensures m !in one.s
    {
    }
    LeavesKeepPaths(one, root, top, leaves, EntryValues(entries), keys, queryResults, n);
    var up := ContainerChain(t.s, root, id, QUERY_RESULTS, queryResults);
    ContainerText(up, id, QUERY_RESULTS);
    assert top in st.s[n].children + [top];
    ChainGrows(t.s, root, up, n, top);
    ResultsText();
    path := up + [n, top];
  }

  /** What lies below a node of the own results may be read. */
  lemma ResultReadable(policy: Option<Policy>, identity: Bytes, id: Bytes, s: Snap, root: Node, path: seq<Node>, c: Node,
                       below: Bytes)
    requires Inv(s, root) && IsChain(s, root, path) && path != [] && c in KidsOf(s, path[|path| - 1]) && PlainText(id)
    requires KeysText(path) == [SLASH] + Text("Sessions") + [SLASH] + SessionKey(id) + [SLASH] + QUERY_RESULTS + [SLASH] + below
    ensures Grounded(s, c) && May(s, Some(SessionChecker(policy, identity, SessionKey(id))), OpRead, c)
  {
    hide Inv, Text, IsChain, KeysText, NodePath, SessionChecker, PlainText, SessionKey;
    ChainSnoc(s, root, path, c);
    KeysTextSnoc(path, c);
    NodePathIsKeys(s, root, path + [c]);
    ResultsText();
    OwnKeysReadable(policy, identity, id, QUERY_RESULTS, below + [SLASH] + c.key);
    ResultText(Text("Sessions"), SessionKey(id), QUERY_RESULTS, below, c.key);
    assert (path + [c])[|path + [c]| - 1] == c;
  }

  lemma ResultText(a: Bytes, b: Bytes, c: Bytes, d: Bytes, e: Bytes)
    ensures ([SLASH] + a + [SLASH] + b + [SLASH] + c + [SLASH] + d) + [SLASH] + e
         == [SLASH] + a + [SLASH] + b + [SLASH] + c + [SLASH] + (d + [SLASH] + e)
  {
  }

  /** The array that a transfer pushes, as the session's own client may read it. */
  lemma TransferView(policy: Option<Policy>, identity: Bytes, id: Bytes, st: State, t: State, root: Node, n: Node,
                     querySeq: nat, key: Bytes, entries: seq<Entry>, top: Node, path: seq<Node>)
    requires Sane(st, root) && TransferredTo(st, t, n, key, entries, top) && PlainText(id)
    requires Inv(t.s, root) && top in t.s && IsChain(t.s, root, path) && |path| == 5 && path[4] == top
    requires KeysText(path) == [SLASH] + Text("Sessions") + [SLASH] + SessionKey(id) + [SLASH] + QUERY_RESULTS + [SLASH]
                               + (QueryKey(querySeq) + [SLASH] + key)
    ensures View(t.s, root, Some(SessionChecker(policy, identity, SessionKey(id))), top) == TransferRose(key, entries)
  {
    hide Inv, IdsOk, Text, Grows, AppendLeaves, IsChain, KeysText, QueryKey, NoDup, NodePath, View, Views, EntryRoses,
         SessionChecker, PlainText, EntryValues;
    var auth := Some(SessionChecker(policy, identity, SessionKey(id)));
    var leaves := KidsOf(t.s, top);
    TransferredFields(st, t, root, n, key, entries, top);
    forall c | c in leaves
      ensures Grounded(t.s, c) && May(t.s, auth, OpRead, c)
    {
      ResultReadable(policy, identity, id, t.s, root, path, c, QueryKey(querySeq) + [SLASH] + key);
    }
    EntryValuesAre(entries);
    LeafViews(t.s, root, auth, top, leaves, EntryValues(entries));
    LeafRosesAre(leaves, entries);
    TreeGrow.ViewOf(t.s, root, auth, top);
  }

  lemma EntryValuesAre(entries: seq<Entry>)
    ensures forall i :: 0 <= i < |entries| ==> EntryValues(entries)[i] == entries[i].1
  {
  }

  /**
   * The path under which a truncated push is continued parses to the keys from the root
   * down to the transfer's own top, and the session's own client, whatever the policy,
   * finds that top under it. If nothing else matches on the way, "path@index" gets the
   * rest of exactly the array that was pushed, and fails past its end.
   */
  lemma TransferIsResumable(env: Engine, policy: Option<Policy>, identity: Bytes, id: Bytes, st: State, t: State,
                            root: Node,
                            queryResults: Node, n: Node, querySeq: nat, key: Bytes, entries: seq<Entry>, top: Node, k: nat)
    returns (path: seq<Node>)
    requires Sane(st, root) && IsPath(st.s, root, Session.SessionKeys(id) + [QUERY_RESULTS], queryResults)
    requires n in KidsOf(st.s, queryResults) && n.key == QueryKey(querySeq)
    requires TransferredTo(st, t, n, key, entries, top)
    requires PlainText(id) && PlainText(key) && Literal(env.re, TransferKeys(id, querySeq, key)) && k <= MAX_INT64
    ensures Inv(t.s, root) && |path| == |TransferKeys(id, querySeq, key)| && IsChain(t.s, root, path) && path[4] == top
    ensures Parse(env.re, TransferPath(id, querySeq, key)) == Ok(KeySegments(TransferKeys(id, querySeq, key)))
    ensures top in Evaluate(env, t.s, root, Some(SessionChecker(policy, identity, SessionKey(id))),
                            KeySegments(TransferKeys(id, querySeq, key)))
    ensures Alone(env.re, t.s, root, TransferKeys(id, querySeq, key), path) ==>
              GetFull(env, t.s, root, Some(SessionChecker(policy, identity, SessionKey(id))),
                      ResumeExpression(TransferPath(id, querySeq, key), k))
              == if k <= 1 + |entries| then Ok(GetResult([TransferRose(key, entries)], k, TransferPath(id, querySeq, key)))
                 else Err(ResumeOutOfRange)
  {
    hide Inv, IdsOk, Evaluate, Text, KeysExpression, TransferPath, IsPath, Grows, SessionChecker, IsChain, KeyText, Alone,
         TransferKeys, KeysText, TransferredTo, View, ViewsOf, CleanBase, ResumeExpression, QueryKey, TransferRose, Size, Parse;
    var auth, keys := Some(SessionChecker(policy, identity, SessionKey(id))), TransferKeys(id, querySeq, key);
    path := TransferChain(st, t, root, id, queryResults, n, querySeq, key, entries, top);
    TransferPathIsKeys(id, querySeq, key);
    TransferKeysPlain(id, querySeq, key);
    KeysParse(env.re, keys);
    KeysAreClean(keys);
    ResultsText();
    var below := QueryKey(querySeq) + [SLASH] + key;
    OwnKeysReadable(policy, identity, id, QUERY_RESULTS, below);
    assert KeysText(path) == [SLASH] + Text("Sessions") + [SLASH] + SessionKey(id) + [SLASH] + QUERY_RESULTS + [SLASH] + below;
    KeysFind(env, t.s, root, auth, keys, path);
    if Alone(env.re, t.s, root, keys, path) {
      KeysFindOnly(env, t.s, root, auth, keys, path);
      TransferView(policy, identity, id, st, t, root, n, querySeq, key, entries, top, path);
      OneView(t.s, root, auth, top);
      TransferSize(key, entries);
      GetPages.PageOf(env, t.s, root, auth, TransferPath(id, querySeq, key), k);
    }
  }

  lemma OneView(s: Snap, root: Node, auth: Option<Checker>, n: Node)
    requires Inv(s, root) && n in s
    ensures ViewsOf(s, root, auth, [n]) == [View(s, root, auth, n)]
  {
    hide Inv, View;
    assert [n][..0] == [];
    assert [] + [View(s, root, auth, n)] == [View(s, root, auth, n)];
  }

  lemma TransferSize(key: Bytes, entries: seq<Entry>)
    ensures Size([TransferRose(key, entries)]) == 1 + |entries|
  {
    LeavesSize(EntryRoses(entries));
    var rose := TransferRose(key, entries);
    assert [rose][1..] == [];
  }
}
