/**
 * The text of match expressions, after goimpl/internal/tree/tree.go:94-194:
 * splitting at unescaped delimiters, and the "@index" suffix that a continuation
 * pointer carries. Compiled regexps are left abstract.
 */
module Expression {
  import opened Basics

  const SLASH: byte := '/' as int
  const EQUALS: byte := '=' as int
  const AT: byte := '@' as int
  const BACKSLASH: byte := '\\' as int
  const ZERO: byte := '0' as int
  const PLUS: byte := '+' as int
  const MINUS: byte := '-' as int

  /** The regexp engine: which patterns compile, and what a compiled one matches. */
  datatype Regexps = Regexps(compiles: Bytes -> bool, matches: (Bytes, Bytes) -> bool)

  datatype Segment = Segment(key: Bytes, value: Option<Bytes>)

  datatype ExprError = BadRegexp | EmptyExpression

  /** s begins with a backslash that escapes the character after it. */
  predicate EscapeAt(s: Bytes, delim: byte) {
    |s| >= 2 && s[0] == BACKSLASH && (s[1] == delim || s[1] == BACKSLASH)
  }

  datatype Split = Split(before: Bytes, found: bool, after: Bytes)

  function SplitFirst(s: Bytes, delim: byte): Split
    decreases |s|
  {
    if s == [] then Split([], false, [])
    else if EscapeAt(s, delim) then Prepend(s[1], SplitFirst(s[2..], delim))
    else if s[0] == delim then Split([], true, s[1..])
    else Prepend(s[0], SplitFirst(s[1..], delim))
  }

  function Prepend(c: byte, p: Split): Split {
    p.(before := [c] + p.before)
  }

  function Behind(prefix: Bytes, p: Split): Split {
    p.(before := prefix + p.before)
  }

  lemma BehindPrepend(prefix: Bytes, c: byte, p: Split)
    ensures Behind(prefix, Prepend(c, p)) == Behind(prefix + [c], p)
  {
    assert prefix + ([c] + p.before) == prefix + [c] + p.before;
  }

  /** splitFirstUnescaped. */
  method SplitFirstUnescaped(s: Bytes, delim: byte) returns (before: Bytes, found: bool, after: Bytes)
    ensures Split(before, found, after) == SplitFirst(s, delim)
  {
    hide Prepend;
    var buf: Bytes := [];
    var i := 0;
    assert s[0..] == s;
    assert [] + SplitFirst(s, delim).before == SplitFirst(s, delim).before;
    while i < |s|
      invariant 0 <= i <= |s|
      invariant SplitFirst(s, delim) == Behind(buf, SplitFirst(s[i..], delim))
    {
      var c := s[i];
      if c == BACKSLASH && i + 1 < |s| && (s[i + 1] == delim || s[i + 1] == BACKSLASH) {
        assert s[i..][2..] == s[i + 2..];
        BehindPrepend(buf, s[i + 1], SplitFirst(s[i + 2..], delim));
        buf := buf + [s[i + 1]];
        i := i + 2;
      } else if c == delim {
        assert s[i..][1..] == s[i + 1..];
        return buf, true, s[i + 1..];
      } else {
        assert s[i..][1..] == s[i + 1..];
        BehindPrepend(buf, c, SplitFirst(s[i + 1..], delim));
        buf := buf + [c];
        i := i + 1;
      }
    }
    return buf, false, [];
  }

  /** The pieces of s between unescaped delimiters; always at least one. */
  function SplitAll(s: Bytes, delim: byte): (parts: seq<Bytes>)
    ensures parts != []
    decreases |s|
  {
    if s == [] then [[]]
    else if EscapeAt(s, delim) then Extend([s[1]], SplitAll(s[2..], delim))
    else if s[0] == delim then [[]] + SplitAll(s[1..], delim)
    else Extend([s[0]], SplitAll(s[1..], delim))
  }

  function Extend(prefix: Bytes, parts: seq<Bytes>): seq<Bytes>
    requires parts != []
  {
    [prefix + parts[0]] + parts[1..]
  }

  lemma ExtendTwice(a: Bytes, b: Bytes, parts: seq<Bytes>)
    requires parts != []
    ensures Extend(a, Extend(b, parts)) == Extend(a + b, parts)
  {
    assert a + (b + parts[0]) == a + b + parts[0];
  }

  lemma ExtendNone(parts: seq<Bytes>)
    requires parts != []
    ensures Extend([], parts) == parts
  {
    assert [] + parts[0] == parts[0];
  }

  /** splitUnescaped. */
  method SplitUnescaped(s: Bytes, delim: byte) returns (parts: seq<Bytes>)
    ensures parts == SplitAll(s, delim)
  {
    hide Extend;
    parts := [];
    var buf: Bytes := [];
    var i := 0;
    ExtendNone(SplitAll(s, delim));
    assert s[0..] == s;
    while i < |s|
      invariant 0 <= i <= |s|
      invariant SplitAll(s, delim) == parts + Extend(buf, SplitAll(s[i..], delim))
    {
      var c := s[i];
      if c == BACKSLASH && i + 1 < |s| && (s[i + 1] == delim || s[i + 1] == BACKSLASH) {
        assert s[i..][2..] == s[i + 2..];
        ExtendTwice(buf, [s[i + 1]], SplitAll(s[i + 2..], delim));
        buf := buf + [s[i + 1]];
        i := i + 2;
      } else if c == delim {
        assert s[i..][1..] == s[i + 1..];
        ExtendDelimiter(buf, SplitAll(s[i + 1..], delim));
        parts := parts + [buf];
        buf := [];
        i := i + 1;
      } else {
        assert s[i..][1..] == s[i + 1..];
        ExtendTwice(buf, [c], SplitAll(s[i + 1..], delim));
        buf := buf + [c];
        i := i + 1;
      }
    }
    assert Extend(buf, [[]]) == [buf] by { ExtendLast(buf); }
    parts := parts + [buf];
  }

  lemma ExtendDelimiter(buf: Bytes, rest: seq<Bytes>)
    requires rest != []
    ensures Extend(buf, [[]] + rest) == [buf] + Extend([], rest)
  {
    assert buf + [] == buf && [] + rest[0] == rest[0];
    assert ([[]] + rest)[1..] == rest;
  }

  lemma ExtendLast(buf: Bytes)
    ensures Extend(buf, [[]]) == [buf]
  {
    assert buf + [] == buf;
  }

  // --- writing expressions ------------------------------------------------------

  /** s with every delimiter and backslash written behind a backslash. */
  function Escape(s: Bytes, delim: byte): Bytes {
    if s == [] then []
    else (if s[0] == delim || s[0] == BACKSLASH then [BACKSLASH, s[0]] else [s[0]]) + Escape(s[1..], delim)
  }

  function Join(parts: seq<Bytes>, delim: byte): Bytes
    requires parts != []
  {
    if |parts| == 1 then Escape(parts[0], delim)
    else Escape(parts[0], delim) + [delim] + Join(parts[1..], delim)
  }

  /** An escaped character, whatever it is, stands in front of the rest, behind a backslash if it needs one. */
  lemma EscapedFront(s: Bytes, delim: byte, rest: Bytes)
    requires delim != BACKSLASH && s != [] && (rest == [] || rest[0] == delim)
    ensures var (t, tail) := (Escape(s, delim) + rest, Escape(s[1..], delim) + rest);
            if s[0] == delim || s[0] == BACKSLASH then |t| >= 2 && EscapeAt(t, delim) && t[1] == s[0] && t[2..] == tail
            else t != [] && !EscapeAt(t, delim) && t[0] == s[0] != delim && t[1..] == tail
  {
    hide Escape;
    EscapeCons(s, delim);
    var front := if s[0] == delim || s[0] == BACKSLASH then [BACKSLASH, s[0]] else [s[0]];
    FrontOf(front, Escape(s[1..], delim), rest);
  }

  lemma EscapeCons(s: Bytes, delim: byte)
    requires s != []
    ensures Escape(s, delim) == (if s[0] == delim || s[0] == BACKSLASH then [BACKSLASH, s[0]] else [s[0]]) + Escape(s[1..], delim)
  {
  }

  lemma FrontOf(front: Bytes, tail: Bytes, rest: Bytes)
    ensures var t := (front + tail) + rest; t[..|front|] == front && t[|front|..] == tail + rest
  {
  }

  /** It is read back as itself. */
  lemma EscapedHead(s: Bytes, delim: byte, rest: Bytes)
    requires delim != BACKSLASH && s != []
    requires rest == [] || rest[0] == delim
    ensures SplitFirst(Escape(s, delim) + rest, delim) == Prepend(s[0], SplitFirst(Escape(s[1..], delim) + rest, delim))
    ensures SplitAll(Escape(s, delim) + rest, delim) == Extend([s[0]], SplitAll(Escape(s[1..], delim) + rest, delim))
  {
    hide Escape, Prepend, Extend, EscapeAt;
    EscapedFront(s, delim, rest);
  }

  lemma {:induction false} SplitFirstEscaped(s: Bytes, delim: byte, rest: Bytes)
    requires delim != BACKSLASH
    requires rest == [] || rest[0] == delim
    ensures SplitFirst(Escape(s, delim) + rest, delim)
         == (if rest == [] then Split(s, false, []) else Split(s, true, rest[1..]))
  {
    if s == [] {
      assert Escape(s, delim) + rest == rest;
    } else {
      hide SplitFirst, Escape, Prepend;
      SplitFirstEscaped(s[1..], delim, rest);
      EscapedHead(s, delim, rest);
      Prepended(s, rest == [], if rest == [] then [] else rest[1..]);
    }
  }

  lemma Prepended(s: Bytes, end: bool, after: Bytes)
    requires s != []
    ensures Prepend(s[0], Split(s[1..], !end, after)) == Split(s, !end, after)
  {
  }

  lemma {:induction false} SplitAllEscaped(s: Bytes, delim: byte, rest: Bytes)
    requires delim != BACKSLASH
    requires rest == [] || rest[0] == delim
    ensures SplitAll(Escape(s, delim) + rest, delim)
         == (if rest == [] then [s] else [s] + SplitAll(rest[1..], delim))
  {
    if s == [] {
      assert Escape(s, delim) + rest == rest;
    } else {
      hide SplitAll, Escape;
      SplitAllEscaped(s[1..], delim, rest);
      EscapedHead(s, delim, rest);
      assert s == [s[0]] + s[1..];
    }
  }

  /** Any pieces at all, joined with escapes, split into the same pieces. */
  lemma {:induction false} SplitInvertsJoin(parts: seq<Bytes>, delim: byte)
    requires parts != [] && delim != BACKSLASH
    ensures SplitAll(Join(parts, delim), delim) == parts
  {
    if |parts| == 1 {
      assert Join(parts, delim) == Escape(parts[0], delim) + [];
      SplitAllEscaped(parts[0], delim, []);
    } else {
      var rest := [delim] + Join(parts[1..], delim);
      assert Join(parts, delim) == Escape(parts[0], delim) + rest;
      SplitAllEscaped(parts[0], delim, rest);
      assert rest[1..] == Join(parts[1..], delim);
      SplitInvertsJoin(parts[1..], delim);
    }
  }

  // --- ParseExpression ----------------------------------------------------------

  function ParseSegment(part: Bytes): Segment {
    var p := SplitFirst(part, EQUALS);
    Segment(p.before, if p.found then Some(p.after) else None)
  }

  predicate SegmentCompiles(re: Regexps, s: Segment) {
    re.compiles(s.key) && (s.value.Some? ==> re.compiles(s.value.value))
  }

  function ParseParts(re: Regexps, parts: seq<Bytes>): Result<seq<Segment>, ExprError> {
    if parts == [] then Ok([])
    else if parts[0] == [] then ParseParts(re, parts[1..])
    else if !SegmentCompiles(re, ParseSegment(parts[0])) then Err(BadRegexp)
    else
      var rest :- ParseParts(re, parts[1..]);
      Ok([ParseSegment(parts[0])] + rest)
  }

  function Parse(re: Regexps, expression: Bytes): Result<seq<Segment>, ExprError> {
    var segments :- ParseParts(re, SplitAll(expression, SLASH));
    if segments == [] then Err(EmptyExpression) else Ok(segments)
  }

  /** ParseExpression, with its loop over the parts. */
  method ParseExpression(re: Regexps, expression: Bytes) returns (r: Result<seq<Segment>, ExprError>)
    ensures r == Parse(re, expression)
  {
    var parts := SplitUnescaped(expression, SLASH);
    var segments: seq<Segment> := [];
    assert parts[0..] == parts;
    ResumeNone(ParseParts(re, parts));
    for i := 0 to |parts|
      invariant ParseParts(re, parts) == Resume(segments, ParseParts(re, parts[i..]))
    {
      hide SplitFirst, SplitAll;
      assert parts[i..][1..] == parts[i + 1..];
      if parts[i] != [] {
        var key, hasValue, value := SplitFirstUnescaped(parts[i], EQUALS);
        var s := Segment(key, if hasValue then Some(value) else None);
        if !re.compiles(key) || (hasValue && !re.compiles(value)) {
          return Err(BadRegexp);
        }
        ResumeOne(segments, s, ParseParts(re, parts[i + 1..]));
        segments := segments + [s];
      }
    }
    assert segments + [] == segments;
    if segments == [] {
      return Err(EmptyExpression);
    }
    return Ok(segments);
  }

  function Resume(done: seq<Segment>, r: Result<seq<Segment>, ExprError>): Result<seq<Segment>, ExprError> {
    if r.Ok? then Ok(done + r.value) else r
  }

  lemma ResumeNone(r: Result<seq<Segment>, ExprError>)
    ensures Resume([], r) == r
  {
    if r.Ok? {
      assert [] + r.value == r.value;
    }
  }

  lemma ResumeOne(done: seq<Segment>, s: Segment, r: Result<seq<Segment>, ExprError>)
    ensures Resume(done, if r.Ok? then Ok([s] + r.value) else r) == Resume(done + [s], r)
  {
    if r.Ok? {
      assert done + ([s] + r.value) == done + [s] + r.value;
    }
  }

  /** How a segment is written: "=" escaped inside the key, then "/" escaped throughout. */
  function WriteSegment(s: Segment): Bytes {
    Escape(s.key, EQUALS) + (if s.value.Some? then [EQUALS] + s.value.value else [])
  }

  function WriteSegments(segments: seq<Segment>): seq<Bytes> {
    seq(|segments|, i requires 0 <= i < |segments| => WriteSegment(segments[i]))
  }

  lemma ParseWritten(s: Segment)
    ensures ParseSegment(WriteSegment(s)) == s
  {
    var rest := if s.value.Some? then [EQUALS] + s.value.value else [];
    SplitFirstEscaped(s.key, EQUALS, rest);
  }

  lemma {:induction false} ParsePartsWritten(re: Regexps, segments: seq<Segment>)
    requires forall s :: s in segments ==> WriteSegment(s) != []
    ensures ParseParts(re, WriteSegments(segments))
         == if forall s :: s in segments ==> re.compiles(s.key) && (s.value.Some? ==> re.compiles(s.value.value))
            then Ok(segments) else Err(BadRegexp)
  {
    if segments != [] {
      hide ParseSegment, WriteSegment;
      ParseWritten(segments[0]);
      assert WriteSegments(segments)[0] == WriteSegment(segments[0]);
      assert WriteSegments(segments)[1..] == WriteSegments(segments[1..]);
      assert segments == [segments[0]] + segments[1..];
      ParsePartsWritten(re, segments[1..]);
    }
  }

  /**
   * Any non-empty segments can be written as one expression, whatever their characters,
   * which parses to them if all their patterns compile and is refused if one does not.
   */
  lemma WrittenExpressionParses(re: Regexps, segments: seq<Segment>)
    requires segments != []
    requires forall s :: s in segments ==> s.key != [] || s.value.Some?
    ensures Parse(re, Join(WriteSegments(segments), SLASH))
         == if forall s :: s in segments ==> re.compiles(s.key) && (s.value.Some? ==> re.compiles(s.value.value))
            then Ok(segments) else Err(BadRegexp)
  {
    forall s | s in segments
      ensures WriteSegment(s) != []
    {
    }
    SplitInvertsJoin(WriteSegments(segments), SLASH);
    ParsePartsWritten(re, segments);
  }

  // --- "@index" -------------------------------------------------------------------

  /** fmt's %d of a non-negative number. */
  function Decimal(n: nat): (d: Bytes)
    ensures d != []
    ensures forall i :: 0 <= i < |d| ==> ZERO <= d[i] < ZERO + 10
  {
    if n < 10 then [ZERO + n] else Decimal(n / 10) + [ZERO + n % 10]
  }

  predicate IsDigit(c: byte) {
    ZERO <= c < ZERO + 10
  }

  function Digits(s: Bytes): Option<nat> {
    if s == [] then Some(0)
    else
      var n := |s| - 1;
      var head := Digits(s[..n]);
      if head.Some? && IsDigit(s[n]) then Some(head.value * 10 + (s[n] - ZERO)) else None
  }

  /** strconv.Atoi: an optional sign, at least one digit, and a value that fits in 64 bits. */
  function Atoi(s: Bytes): Option<int> {
    var signed := s != [] && (s[0] == PLUS || s[0] == MINUS);
    var body := if signed then s[1..] else s;
    var n := Digits(body);
    if body == [] || n.None? then None
    else
      var v: int := if signed && s[0] == MINUS then -(n.value as int) else n.value as int;
      if -MAX_INT64 - 1 <= v <= MAX_INT64 then Some(v) else None
  }

  function SplitResumeSuffix(raw: Bytes): (Bytes, int) {
    var p := SplitFirst(raw, AT);
    if p.found && Atoi(p.after).Some? then (p.before, Atoi(p.after).value) else (raw, 0)
  }

  function ResumeExpression(base: Bytes, index: nat): Bytes {
    base + [AT] + Decimal(index)
  }

  lemma {:induction false} DigitsDecimal(n: nat)
    ensures Digits(Decimal(n)) == Some(n)
  {
    if n < 10 {
      assert Digits([ZERO + n][..0]) == Some(0);
    } else {
      DigitsDecimal(n / 10);
      assert Decimal(n)[..|Decimal(n)| - 1] == Decimal(n / 10);
    }
  }

  /** What a base must look like for its continuation pointers to lead back to it. */
  predicate CleanBase(base: Bytes) {
    && AT !in base
    && (forall i :: 0 <= i < |base| - 1 ==> !(base[i] == BACKSLASH && base[i + 1] == BACKSLASH))
    && (base != [] ==> base[|base| - 1] != BACKSLASH)
  }

  lemma {:induction false} SplitAtSuffix(base: Bytes, digits: Bytes)
    requires forall i :: 0 <= i < |digits| ==> IsDigit(digits[i])
    ensures var p := SplitFirst(base + [AT] + digits, AT);
            if CleanBase(base) then p == Split(base, true, digits) else p.found ==> |p.before| < |base|
    decreases |base|
  {
    var s := base + [AT] + digits;
    if base == [] {
      assert s[1..] == digits;
    } else if |base| == 1 && base[0] == BACKSLASH {
      assert s[2..] == digits;
      NoDelimiter(digits);
    } else if EscapeAt(base, AT) {
      assert EscapeAt(s, AT) && s[2..] == base[2..] + [AT] + digits;
      SplitAtSuffix(base[2..], digits);
      assert base[0] == BACKSLASH && (base[1] == AT || base[1] == BACKSLASH);
      assert !CleanBase(base);
    } else if base[0] == AT {
      assert s[0] == AT;
    } else {
      assert !EscapeAt(s, AT);
      assert s[1..] == base[1..] + [AT] + digits;
      SplitAtSuffix(base[1..], digits);
      CleanTail(base);
    }
  }

  lemma CleanTail(base: Bytes)
    requires base != [] && base[0] != AT && !EscapeAt(base, AT) && base != [BACKSLASH]
    ensures CleanBase(base) <==> CleanBase(base[1..])
  {
    var t := base[1..];
    assert base == [base[0]] + t;
    if CleanBase(t) {
      forall i | 0 <= i < |base| - 1
        ensures !(base[i] == BACKSLASH && base[i + 1] == BACKSLASH)
      {
        if i > 0 {
          assert base[i] == t[i - 1] && base[i + 1] == t[i];
        }
      }
    }
    if CleanBase(base) {
      forall i | 0 <= i < |t| - 1
        ensures !(t[i] == BACKSLASH && t[i + 1] == BACKSLASH)
      {
        assert t[i] == base[i + 1] && t[i + 1] == base[i + 2];
      }
    }
  }

  lemma {:induction false} NoDelimiter(digits: Bytes)
    requires forall i :: 0 <= i < |digits| ==> IsDigit(digits[i])
    ensures !SplitFirst(digits, AT).found
  {
    if digits != [] {
      NoDelimiter(digits[1..]);
    }
  }

  /**
   * "base@index" reads back as (base, index) exactly when base has no "@", no
   * doubled backslash and no backslash at its end: SplitResumeSuffix unescapes
   * the base it returns, so any other base comes back as something else.
   */
  lemma ResumeSuffixSurvives(base: Bytes, index: nat)
    requires index <= MAX_INT64
    ensures SplitResumeSuffix(ResumeExpression(base, index)) == (base, index) <==> CleanBase(base)
  {
    var digits := Decimal(index);
    SplitAtSuffix(base, digits);
    DigitsDecimal(index);
    assert Atoi(digits) == Some(index);
  }

  lemma {:induction false} SplitAtClean(base: Bytes, rest: Bytes)
    requires CleanBase(base)
    ensures SplitFirst(base + [AT] + rest, AT) == Split(base, true, rest)
    decreases |base|
  {
    var s := base + [AT] + rest;
    if base == [] {
      assert s[1..] == rest;
    } else {
      assert s[1..] == base[1..] + [AT] + rest;
      assert base[0] in base;
      assert !EscapeAt(s, AT);
      if base != [BACKSLASH] {
        CleanTail(base);
      }
      SplitAtClean(base[1..], rest);
    }
  }

  /** What follows the "@" counts only if it is a number; else the "@" is part of the expression. */
  lemma SuffixIsNumber(base: Bytes, rest: Bytes)
    requires CleanBase(base)
    ensures SplitResumeSuffix(base + [AT] + rest)
         == if Atoi(rest).Some? then (base, Atoi(rest).value) else (base + [AT] + rest, 0)
  {
    SplitAtClean(base, rest);
  }

  /** Numbers are digits, behind one sign or none, that fit in 64 bits. */
  lemma AtoiMeans(s: Bytes, n: nat)
    ensures n <= MAX_INT64 ==> Atoi([PLUS] + Decimal(n)) == Some(n) && Atoi(Decimal(n)) == Some(n)
    ensures n <= MAX_INT64 ==> Atoi([MINUS] + Decimal(n)).Some? && Atoi([MINUS] + Decimal(n)).value == 0 - n
    ensures n > MAX_INT64 ==> Atoi(Decimal(n)) == None
    ensures Atoi(s).Some? ==>
              s != [] && (forall i :: 1 <= i < |s| ==> IsDigit(s[i]))
              && (IsDigit(s[0]) || (|s| > 1 && (s[0] == PLUS || s[0] == MINUS)))
  {
    hide Decimal;
    DigitsDecimal(n);
    var d := Decimal(n);
    assert ([PLUS] + d)[1..] == d && ([MINUS] + d)[1..] == d;
    var body := if s != [] && (s[0] == PLUS || s[0] == MINUS) then s[1..] else s;
    AllDigits(body);
    assert forall i :: 1 <= i < |s| ==> s[i] == s[1..][i - 1];
    hide Digits;
  }

  lemma {:induction false} AllDigits(s: Bytes)
    ensures Digits(s).Some? ==> forall i :: 0 <= i < |s| ==> IsDigit(s[i])
  {
    if s != [] {
      AllDigits(s[..|s| - 1]);
    }
  }

  /** A client's escaped "@" in a base: the server's continuation for it leads elsewhere. */
  lemma EscapedAtIsLost()
    ensures var base := SplitResumeSuffix(['a' as int, BACKSLASH, AT]).0;
            SplitResumeSuffix(ResumeExpression(base, 5)) != (base, 5)
  {
    var raw: Bytes := ['a' as int, BACKSLASH, AT];
    assert raw[1..] == [BACKSLASH, AT] && raw[1..][2..] == [];
    var base := SplitResumeSuffix(raw).0;
    assert SplitFirst(raw, AT) == Prepend('a' as int, Prepend(AT, SplitFirst([], AT)));
    assert !SplitFirst(raw, AT).found;
    ResumeSuffixSurvives(base, 5);
  }
}
