/** Capability strings: stamp parsing and glob matching (sdk/go/capability.go). */
module Capability {
  import opened Prelude

  const STAMP_PREFIX := "STAMP:artefact/"
  const ATTEST_PREFIX := "ATTEST:artefact/"

  // ------------------------------------------------------------------ parsing

  datatype StampCapability = StampCapability(kind: string, stamp: string)

  /** Position of the first '/', or |s|. */
  function FirstSlash(s: string): (i: nat)
    ensures i <= |s| && '/' !in s[..i] && (i < |s| ==> s[i] == '/')
  {
    if s == "" || s[0] == '/' then 0 else 1 + FirstSlash(s[1..])
  }

  function ParseStampCapability(cap: string): Option<StampCapability> {
    if STAMP_PREFIX <= cap then SplitKindAndStamp(cap[|STAMP_PREFIX|..])
    else if ATTEST_PREFIX <= cap then SplitKindAndStamp(cap[|ATTEST_PREFIX|..])
    else None
  }

  /** strings.SplitN(rest, "/", 2), both halves non-empty. */
  function SplitKindAndStamp(rest: string): Option<StampCapability> {
    var i := FirstSlash(rest);
    if i == |rest| || i == 0 || i + 1 == |rest| then None
    else Some(StampCapability(rest[..i], rest[i + 1..]))
  }

  ghost predicate Prints(cap: string, kind: string, stamp: string) {
    cap == "STAMP:artefact/" + kind + "/" + stamp || cap == "ATTEST:artefact/" + kind + "/" + stamp
  }

  /** The parser accepts exactly the printed forms, and recovers the kind and stamp they were printed from. */
  lemma ParseInvertsPrint(cap: string, kind: string, stamp: string)
    ensures ParseStampCapability(cap) == Some(StampCapability(kind, stamp))
      <==> (Prints(cap, kind, stamp) && kind != "" && stamp != "" && '/' !in kind)
  {
    if STAMP_PREFIX <= cap {
      SplitInvertsJoin(cap, STAMP_PREFIX, kind, stamp);
      assert cap[0] == STAMP_PREFIX[0] == 'S' && ATTEST_PREFIX[0] == 'A';
      assert !(ATTEST_PREFIX <= cap);
    } else if ATTEST_PREFIX <= cap {
      SplitInvertsJoin(cap, ATTEST_PREFIX, kind, stamp);
    }
    assert STAMP_PREFIX + kind + "/" + stamp == STAMP_PREFIX + (kind + "/" + stamp);
    assert ATTEST_PREFIX + kind + "/" + stamp == ATTEST_PREFIX + (kind + "/" + stamp);
  }

  lemma SplitInvertsJoin(cap: string, prefix: string, kind: string, stamp: string)
    requires prefix <= cap
    ensures SplitKindAndStamp(cap[|prefix|..]) == Some(StampCapability(kind, stamp))
      <==> (cap == prefix + kind + "/" + stamp && kind != "" && stamp != "" && '/' !in kind)
  {
    var rest := cap[|prefix|..];
    assert cap == prefix + rest;
    assert prefix + kind + "/" + stamp == prefix + (kind + "/" + stamp);
    if cap == prefix + kind + "/" + stamp && kind != "" && stamp != "" && '/' !in kind {
      assert rest == kind + "/" + stamp;
      SlashAfterKind(kind, stamp);
      assert rest[..|kind|] == kind && rest[|kind| + 1..] == stamp;
    }
    if SplitKindAndStamp(rest) == Some(StampCapability(kind, stamp)) {
      assert rest == kind + "/" + stamp;
    }
  }

  lemma {:induction false} SlashAfterKind(kind: string, stamp: string)
    requires '/' !in kind
    ensures FirstSlash(kind + "/" + stamp) == |kind|
  {
    if kind != "" {
      assert (kind + "/" + stamp)[1..] == kind[1..] + "/" + stamp;
      SlashAfterKind(kind[1..], stamp);
    }
  }

  // ------------------------------------------------- filepath.Match on a segment

  datatype Token = AnyRun | AnyChar | Literal(c: char) | Class(negated: bool, ranges: seq<(char, char)>)

  /** One member of a bracket class: the possibly escaped character and the text after it; a class may not end here. */
  function ClassChar(p: string): Option<(char, string)> {
    if p == "" || p[0] == '-' || p[0] == ']' then None
    else if p[0] == '\\' then
      if |p| < 3 then None else Some((p[1], p[2..]))
    else if |p| < 2 then None else Some((p[0], p[1..]))
  }

  /** The ranges of a bracket class and the pattern after its closing bracket. */
  function ClassRanges(p: string, first: bool): Option<(seq<(char, char)>, string)>
    decreases |p|
  {
    if !first && p != "" && p[0] == ']' then Some(([], p[1..]))
    else match ClassChar(p)
      case None => None
      case Some((lo, rest)) =>
        var end := if rest[0] == '-' then ClassChar(rest[1..]) else Some((lo, rest));
        match end
        case None => None
        case Some((hi, rest')) =>
          match ClassRanges(rest', false)
          case None => None
          case Some((more, after)) => Some(([(lo, hi)] + more, after))
  }

  /** The pattern as filepath.Match reads it; None is its bad-pattern error. */
  function Tokens(p: string): Option<seq<Token>>
    decreases |p|
  {
    if p == "" then Some([])
    else if p[0] == '*' then Prepend(AnyRun, Tokens(p[1..]))
    else if p[0] == '?' then Prepend(AnyChar, Tokens(p[1..]))
    else if p[0] == '\\' then
      if |p| < 2 then None else Prepend(Literal(p[1]), Tokens(p[2..]))
    else if p[0] == '[' then
      var negated := |p| > 1 && p[1] == '^';
      match ClassRanges(if negated then p[2..] else p[1..], true)
      case None => None
      case Some((ranges, after)) => if |after| < |p| then Prepend(Class(negated, ranges), Tokens(after)) else None
    else Prepend(Literal(p[0]), Tokens(p[1..]))
  }

  function Prepend(t: Token, rest: Option<seq<Token>>): Option<seq<Token>> {
    match rest
    case None => None
    case Some(ts) => Some([t] + ts)
  }

  predicate InClass(t: Token, c: char)
    requires t.Class?
  {
    t.negated != exists i :: 0 <= i < |t.ranges| && t.ranges[i].0 <= c <= t.ranges[i].1
  }

  /** An AnyRun takes any run without '/', an AnyChar any character but '/'. */
  predicate MatchTokens(ts: seq<Token>, s: string) {
    if ts == [] then s == ""
    else match ts[0]
      case AnyRun => exists k :: 0 <= k <= |s| && '/' !in s[..k] && MatchTokens(ts[1..], s[k..])
      case AnyChar => s != "" && s[0] != '/' && MatchTokens(ts[1..], s[1..])
      case Literal(c) => s != "" && s[0] == c && MatchTokens(ts[1..], s[1..])
      case Class(_, _) => s != "" && InClass(ts[0], s[0]) && MatchTokens(ts[1..], s[1..])
  }

  predicate MatchSegment(pattern: string, segment: string) {
    var ts := Tokens(pattern);
    ts.Some? && MatchTokens(ts.value, segment)
  }

  // ------------------------------------------------------------ MatchCapability

  /** strings.Split(s, "/"). */
  function Split(s: string): (segs: seq<string>)
    ensures segs != []
  {
    if s == "" then [""]
    else if s[0] == '/' then [""] + Split(s[1..])
    else var rest := Split(s[1..]); [[s[0]] + rest[0]] + rest[1..]
  }

  predicate MatchCapability(capability: string, required: string) {
    if '*' !in capability then capability == required
    else
      var capSegs, reqSegs := Split(capability), Split(required);
      |capSegs| == |reqSegs| && forall i :: 0 <= i < |capSegs| ==> MatchSegment(capSegs[i], reqSegs[i])
  }

  // ---------------------------------------------------- the documented meaning

  ghost function Stars(cap: string): nat {
    if cap == "" then 0 else (if cap[0] == '*' then 1 else 0) + Stars(cap[1..])
  }

  /** cap with its stars replaced, left to right, by the given strings. */
  ghost function Fill(cap: string, fills: seq<string>): string
    requires |fills| == Stars(cap)
  {
    if cap == "" then ""
    else if cap[0] == '*' then fills[0] + Fill(cap[1..], fills[1..])
    else [cap[0]] + Fill(cap[1..], fills)
  }

  ghost predicate SlashFree(fills: seq<string>) {
    forall i :: 0 <= i < |fills| ==> '/' !in fills[i]
  }

  /** required is capability with every star replaced by some string without '/'. */
  ghost predicate IsInstance(capability: string, required: string) {
    exists fills :: |fills| == Stars(capability) && SlashFree(fills) && Fill(capability, fills) == required
  }

  /** The characters besides the star that filepath.Match treats specially. */
  predicate Special(c: char) { c == '?' || c == '[' || c == '\\' }

  ghost predicate Plain(s: string) { forall i :: 0 <= i < |s| ==> !Special(s[i]) }
}

module CapabilityTheorems {
  import opened Prelude
  import opened Capability

  /** IsInstance, read from the left. */
  ghost predicate Inst(cap: string, req: string) {
    if cap == "" then req == ""
    else if cap[0] == '*' then exists k :: 0 <= k <= |req| && '/' !in req[..k] && Inst(cap[1..], req[k..])
    else req != "" && req[0] == cap[0] && Inst(cap[1..], req[1..])
  }

  lemma {:induction false} InstanceToInst(cap: string, fills: seq<string>)
    requires |fills| == Stars(cap) && SlashFree(fills)
    ensures Inst(cap, Fill(cap, fills))
  {
    var req := Fill(cap, fills);
    if cap != "" {
      if cap[0] == '*' {
        InstanceToInst(cap[1..], fills[1..]);
        assert req[|fills[0]|..] == Fill(cap[1..], fills[1..]);
        assert req[..|fills[0]|] == fills[0];
      } else {
        InstanceToInst(cap[1..], fills);
        assert req[1..] == Fill(cap[1..], fills);
      }
    }
  }

  lemma {:induction false} InstToInstance(cap: string, req: string) returns (fills: seq<string>)
    requires Inst(cap, req)
    ensures |fills| == Stars(cap) && SlashFree(fills) && Fill(cap, fills) == req
  {
    if cap == "" {
      fills := [];
    } else if cap[0] == '*' {
      var k :| 0 <= k <= |req| && '/' !in req[..k] && Inst(cap[1..], req[k..]);
      var rest := InstToInstance(cap[1..], req[k..]);
      fills := [req[..k]] + rest;
      assert fills[1..] == rest;
      assert req == req[..k] + req[k..];
    } else {
      fills := InstToInstance(cap[1..], req[1..]);
      assert req == [req[0]] + req[1..];
    }
  }

  /** A slash-free prefix stays inside the first segment. */
  lemma {:induction false} SplitPrefix(s: string, k: nat)
    requires k <= |s| && '/' !in s[..k]
    ensures Split(s)[0] == s[..k] + Split(s[k..])[0] && Split(s)[1..] == Split(s[k..])[1..]
  {
    if k > 0 {
      assert s[0] == s[..k][0] && s[1..][..k - 1] == s[..k][1..] && s[1..][k - 1..] == s[k..];
      SplitPrefix(s[1..], k - 1);
      assert s[..k] + Split(s[k..])[0] == [s[0]] + (s[1..][..k - 1] + Split(s[k..])[0]);
    } else {
      assert s[0..] == s;
    }
  }

  lemma {:induction false} FirstSegment(s: string)
    ensures '/' !in Split(s)[0] && Split(s)[0] <= s
    ensures |Split(s)| > 1 <==> |Split(s)[0]| < |s|
    ensures |Split(s)| > 1 ==> s[|Split(s)[0]|] == '/' && Split(s)[1..] == Split(s[|Split(s)[0]| + 1..])
  {
    if s != "" && s[0] != '/' {
      FirstSegment(s[1..]);
      var h := Split(s)[0];
      assert h[1..] == Split(s[1..])[0];
      assert s[1..][|h| - 1..] == s[|h|..];
      if |Split(s)| > 1 {
        assert s[1..][|h| - 1] == s[|h|];
        assert s[1..][|h|..] == s[|h| + 1..];
      }
    }
  }

  ghost predicate SegmentsMatch(caps: seq<string>, reqs: seq<string>) {
    |caps| == |reqs| && forall i :: 0 <= i < |caps| ==> Inst(caps[i], reqs[i])
  }

  lemma SegmentsMatchCons(a: string, as': seq<string>, b: string, bs: seq<string>)
    ensures SegmentsMatch([a] + as', [b] + bs) <==> Inst(a, b) && SegmentsMatch(as', bs)
  {
    var caps, reqs := [a] + as', [b] + bs;
    assert SegmentsMatch(caps, reqs) ==> Inst(caps[0], reqs[0]);
    if SegmentsMatch(caps, reqs) {
      forall i | 0 <= i < |as'| ensures Inst(as'[i], bs[i]) {
        assert as'[i] == caps[i + 1] && bs[i] == reqs[i + 1];
      }
    }
  }

  /** Whole-string instances are segment-by-segment instances: a star never crosses '/'. */
  lemma {:induction false} InstBySegments(cap: string, req: string)
    ensures Inst(cap, req) <==> SegmentsMatch(Split(cap), Split(req))
    decreases |cap|
  {
    var segs, reqs := Split(req)[1..], Split(req)[0];
    assert Split(req) == [reqs] + segs;
    FirstSegment(req);
    if cap == "" {
      assert SegmentsMatch([""], Split(req)) ==> Inst("", Split(req)[0]);
    } else if cap[0] == '/' {
      SegmentsMatchCons("", Split(cap[1..]), reqs, segs);
      if req != "" && req[0] == '/' {
        InstBySegments(cap[1..], req[1..]);
        assert reqs == "";
      } else if req != "" {
        assert reqs != "";
      }
    } else {
      var head, tail := Split(cap[1..])[0], Split(cap[1..])[1..];
      assert Split(cap) == [[cap[0]] + head] + tail;
      assert Split(cap[1..]) == [head] + tail;
      assert ([cap[0]] + head)[1..] == head;
      SegmentsMatchCons([cap[0]] + head, tail, reqs, segs);
      if cap[0] == '*' {
        InstStar(cap, req, head, tail, reqs, segs);
      } else {
        if req != "" && req[0] == cap[0] {
          InstBySegments(cap[1..], req[1..]);
          assert Split(req[1..]) == [reqs[1..]] + segs;
          SegmentsMatchCons(head, tail, reqs[1..], segs);
        } else if reqs != "" {
          assert reqs[0] == req[0];
        }
      }
    }
  }

  lemma {:induction false} InstStar(cap: string, req: string, head: string, tail: seq<string>, reqs: string, segs: seq<string>)
    requires cap != "" && cap[0] == '*'
    requires Split(cap[1..]) == [head] + tail && Split(req) == [reqs] + segs
    ensures Inst(cap, req) <==> Inst(['*'] + head, reqs) && SegmentsMatch(tail, segs)
    decreases |cap|, 0
  {
    FirstSegment(req);
    assert (['*'] + head)[1..] == head;
    forall k | 0 <= k <= |reqs|
      ensures Inst(cap[1..], req[k..]) <==> Inst(head, reqs[k..]) && SegmentsMatch(tail, segs)
    {
      assert req[..k] == reqs[..k];
      SplitPrefix(req, k);
      assert Split(req[k..])[0] == reqs[k..];
      assert Split(req[k..]) == [reqs[k..]] + segs;
      InstBySegments(cap[1..], req[k..]);
      SegmentsMatchCons(head, tail, reqs[k..], segs);
    }
    if Inst(cap, req) {
      var k :| 0 <= k <= |req| && '/' !in req[..k] && Inst(cap[1..], req[k..]);
      forall far | |reqs| < far <= |req| ensures '/' in req[..far] {
        assert req[..far][|reqs|] == '/';
      }
      assert '/' !in reqs[..k];
    }
    if Inst(['*'] + head, reqs) && SegmentsMatch(tail, segs) {
      var k :| 0 <= k <= |reqs| && '/' !in reqs[..k] && Inst(head, reqs[k..]);
      assert req[..k] == reqs[..k];
    }
  }

  /** On a plain pattern filepath.Match knows only literals and stars. */
  lemma {:induction false} PlainSegment(p: string, s: string)
    requires Plain(p)
    ensures Tokens(p).Some? && (MatchTokens(Tokens(p).value, s) <==> Inst(p, s))
  {
    if p != "" {
      assert Plain(p[1..]);
      PlainSegment(p[1..], s);
      var ts := Tokens(p).value;
      assert ts[1..] == Tokens(p[1..]).value;
      if p[0] == '*' {
        forall k | 0 <= k <= |s|
          ensures MatchTokens(ts[1..], s[k..]) <==> Inst(p[1..], s[k..])
        {
          PlainSegment(p[1..], s[k..]);
        }
      } else if s != "" {
        PlainSegment(p[1..], s[1..]);
      }
    }
  }

  lemma {:induction false} SegmentsArePlain(s: string)
    requires Plain(s)
    ensures forall i :: 0 <= i < |Split(s)| ==> Plain(Split(s)[i])
  {
    if s != "" {
      assert Plain(s[1..]);
      SegmentsArePlain(s[1..]);
    }
  }

  lemma {:induction false} StarFree(cap: string, req: string)
    requires '*' !in cap
    ensures Inst(cap, req) <==> cap == req
  {
    if cap != "" && req != "" {
      StarFree(cap[1..], req[1..]);
      assert cap == [cap[0]] + cap[1..] && req == [req[0]] + req[1..];
    }
  }

  /**
   * The documented rule, for every capability without the other filepath.Match characters and every
   * required string: matching segment by segment is replacing each star by some string without '/'.
   */
  lemma MatchIsInstance(cap: string, req: string)
    requires '*' !in cap || Plain(cap)
    ensures MatchCapability(cap, req) <==> IsInstance(cap, req)
  {
    if IsInstance(cap, req) {
      var fills :| |fills| == Stars(cap) && SlashFree(fills) && Fill(cap, fills) == req;
      InstanceToInst(cap, fills);
    }
    if Inst(cap, req) {
      var fills := InstToInstance(cap, req);
    }
    if '*' !in cap {
      StarFree(cap, req);
    } else {
      InstBySegments(cap, req);
      SegmentsArePlain(cap);
      var caps, reqs := Split(cap), Split(req);
      if |caps| == |reqs| {
        forall i | 0 <= i < |caps| ensures MatchSegment(caps[i], reqs[i]) <==> Inst(caps[i], reqs[i]) {
          PlainSegment(caps[i], reqs[i]);
        }
      }
    }
  }

  // ------------------------------------------------- where the rule breaks down

  ghost predicate Satisfiable(ts: seq<Token>) {
    forall i :: 0 <= i < |ts| && ts[i].Class? ==> exists c :: c != '/' && InClass(ts[i], c)
  }

  /** A shortest slash-free text the tokens accept, spelling AnyChar as 'x'. */
  ghost function Shortest(ts: seq<Token>): string
    requires Satisfiable(ts)
  {
    if ts == [] then ""
    else
      assert Satisfiable(ts[1..]) by { assert forall i :: 0 <= i < |ts| - 1 ==> ts[1..][i] == ts[i + 1]; }
      var rest := Shortest(ts[1..]);
      match ts[0]
      case AnyRun => rest
      case AnyChar => ['x'] + rest
      case Literal(c) => [c] + rest
      case Class(_, _) => var c :| c != '/' && InClass(ts[0], c); [c] + rest
  }

  lemma {:induction false} ShortestMatches(ts: seq<Token>)
    requires Satisfiable(ts)
    ensures MatchTokens(ts, Shortest(ts))
  {
    if ts != [] {
      assert Satisfiable(ts[1..]) by { assert forall i :: 0 <= i < |ts| - 1 ==> ts[1..][i] == ts[i + 1]; }
      var s := Shortest(ts);
      ShortestMatches(ts[1..]);
      if ts[0].AnyRun? {
        assert s[0..] == s && s[..0] == "";
      }
    }
  }

  lemma {:induction false} UnsatisfiableMatchesNothing(ts: seq<Token>, s: string)
    requires !Satisfiable(ts) && '/' !in s
    ensures !MatchTokens(ts, s)
  {
    if ts[0].Class? && (forall c :: c != '/' ==> !InClass(ts[0], c)) {
      assert s != "" ==> s[0] != '/';
    } else {
      assert !Satisfiable(ts[1..]) by {
        var i :| 0 <= i < |ts| && ts[i].Class? && forall c :: c != '/' ==> !InClass(ts[i], c);
        assert ts[1..][i - 1] == ts[i];
      }
      if ts[0].AnyRun? {
        forall k | 0 <= k <= |s| ensures !MatchTokens(ts[1..], s[k..]) {
          UnsatisfiableMatchesNothing(ts[1..], s[k..]);
        }
      } else if s != "" {
        UnsatisfiableMatchesNothing(ts[1..], s[1..]);
      }
    }
  }

  ghost function NonStars(s: string): nat {
    if s == "" then 0 else (if s[0] == '*' then 0 else 1) + NonStars(s[1..])
  }

  lemma {:induction false} ClassCharConsumes(p: string)
    requires ClassChar(p).Some?
    ensures NonStars(ClassChar(p).value.1) <= NonStars(p) && |ClassChar(p).value.1| < |p|
  {
    if p[0] == '\\' {
      assert p[1..][1..] == p[2..];
    }
  }

  lemma {:induction false} ClassRangesConsume(p: string, first: bool)
    requires ClassRanges(p, first).Some?
    ensures NonStars(ClassRanges(p, first).value.1) < NonStars(p)
    decreases |p|
  {
    if first || p == "" || p[0] != ']' {
      ClassCharConsumes(p);
      var rest := ClassChar(p).value.1;
      if rest[0] == '-' {
        ClassCharConsumes(rest[1..]);
        ClassRangesConsume(ClassChar(rest[1..]).value.1, false);
      } else {
        ClassRangesConsume(rest, false);
      }
    }
  }

  /** The shortest text is shorter than the pattern's non-star characters, or it avoids the special ones. */
  lemma {:induction false} ShortestIsShort(p: string)
    requires Tokens(p).Some? && Satisfiable(Tokens(p).value)
    ensures |Shortest(Tokens(p).value)| <= NonStars(p)
    ensures |Shortest(Tokens(p).value)| == NonStars(p) ==> Plain(Shortest(Tokens(p).value))
    decreases |p|
  {
    if p != "" {
      var ts := Tokens(p).value;
      assert Satisfiable(ts[1..]) by { assert forall i :: 0 <= i < |ts| - 1 ==> ts[1..][i] == ts[i + 1]; }
      if p[0] == '\\' {
        assert p[1..][1..] == p[2..];
        assert Tokens(p[2..]) == Some(ts[1..]);
        ShortestIsShort(p[2..]);
      } else if p[0] == '[' {
        var body := if |p| > 1 && p[1] == '^' then p[2..] else p[1..];
        assert |p| > 1 && p[1] == '^' ==> p[1..][1..] == p[2..];
        ClassRangesConsume(body, true);
        var after := ClassRanges(body, true).value.1;
        assert Tokens(after) == Some(ts[1..]);
        ShortestIsShort(after);
      } else {
        assert Tokens(p[1..]) == Some(ts[1..]);
        ShortestIsShort(p[1..]);
      }
    }
  }

  lemma {:induction false} InstKeepsCharacters(p: string, s: string, c: char)
    requires Inst(p, s)
    ensures NonStars(p) <= |s|
    ensures c != '*' && c in p ==> c in s
  {
    if p != "" {
      if p[0] == '*' {
        var k :| 0 <= k <= |s| && '/' !in s[..k] && Inst(p[1..], s[k..]);
        InstKeepsCharacters(p[1..], s[k..], c);
      } else {
        InstKeepsCharacters(p[1..], s[1..], c);
      }
    }
  }

  lemma ShortestIsNoInstance(p: string)
    requires !Plain(p) && Tokens(p).Some? && Satisfiable(Tokens(p).value)
    ensures !Inst(p, Shortest(Tokens(p).value))
  {
    var s := Shortest(Tokens(p).value);
    var i :| 0 <= i < |p| && Special(p[i]);
    ShortestIsShort(p);
    if Inst(p, s) {
      InstKeepsCharacters(p, s, p[i]);
    }
  }

  ghost function Join(segs: seq<string>): string
    requires segs != []
  {
    if |segs| == 1 then segs[0] else segs[0] + "/" + Join(segs[1..])
  }

  lemma {:induction false} SplitHead(a: string, s: string)
    requires '/' !in a
    ensures Split(a) == [a] && Split(a + "/" + s) == [a] + Split(s)
  {
    if a == "" {
      assert (a + "/" + s)[1..] == s;
    } else {
      SplitHead(a[1..], s);
      assert (a + "/" + s)[1..] == a[1..] + "/" + s;
      assert a == [a[0]] + a[1..];
    }
  }

  lemma {:induction false} SplitInvertsJoin(segs: seq<string>)
    requires segs != [] && SlashFree(segs)
    ensures Split(Join(segs)) == segs
  {
    if |segs| == 1 {
      SplitHead(segs[0], "");
    } else {
      assert SlashFree(segs[1..]);
      SplitInvertsJoin(segs[1..]);
      SplitHead(segs[0], Join(segs[1..]));
    }
  }

  lemma {:induction false} SegmentsSlashFree(s: string)
    ensures SlashFree(Split(s))
  {
    if s != "" {
      SegmentsSlashFree(s[1..]);
    }
  }

  lemma {:induction false} SplitKeepsCharacters(s: string, c: char)
    requires c in s && c != '/'
    ensures exists i :: 0 <= i < |Split(s)| && c in Split(s)[i]
  {
    if s[0] == c {
      assert c in Split(s)[0];
    } else {
      assert s == [s[0]] + s[1..];
      SplitKeepsCharacters(s[1..], c);
      var i :| 0 <= i < |Split(s[1..])| && c in Split(s[1..])[i];
      if s[0] == '/' {
        assert Split(s)[i + 1] == Split(s[1..])[i];
      } else {
        assert c in Split(s)[i];
      }
    }
  }

  lemma {:induction false} TokensSlashFree(p: string)
    requires '/' !in p && Tokens(p).Some? && Satisfiable(Tokens(p).value)
    ensures '/' !in Shortest(Tokens(p).value)
    decreases |p|
  {
    if p != "" {
      var ts := Tokens(p).value;
      assert Satisfiable(ts[1..]) by { assert forall i :: 0 <= i < |ts| - 1 ==> ts[1..][i] == ts[i + 1]; }
      if p[0] == '\\' {
        TokensSlashFree(p[2..]);
        assert Tokens(p[2..]) == Some(ts[1..]);
      } else if p[0] == '[' {
        var body := if |p| > 1 && p[1] == '^' then p[2..] else p[1..];
        ClassRangesSuffix(body, true);
        var after := ClassRanges(body, true).value.1;
        TokensSlashFree(after);
        assert Tokens(after) == Some(ts[1..]);
      } else {
        TokensSlashFree(p[1..]);
        assert Tokens(p[1..]) == Some(ts[1..]);
      }
    }
  }

  lemma {:induction false} ClassRangesSuffix(p: string, first: bool)
    requires ClassRanges(p, first).Some? && '/' !in p
    ensures '/' !in ClassRanges(p, first).value.1
    decreases |p|
  {
    if first || p == "" || p[0] != ']' {
      var rest := ClassChar(p).value.1;
      if rest[0] == '-' {
        ClassRangesSuffix(ClassChar(rest[1..]).value.1, false);
      } else {
        ClassRangesSuffix(rest, false);
      }
    }
  }

  ghost predicate Readable(p: string) { Tokens(p).Some? && Satisfiable(Tokens(p).value) }

  /** A starred capability with another special character in it disagrees with the documented rule on some string. */
  lemma SpecialBreaksRule(cap: string) returns (req: string)
    requires '*' in cap && !Plain(cap)
    ensures MatchCapability(cap, req) != IsInstance(cap, req)
  {
    var segs := Split(cap);
    SegmentsSlashFree(cap);
    if i :| 0 <= i < |segs| && !Readable(segs[i]) {
      var fills := seq(Stars(cap), i => "");
      req := Fill(cap, fills);
      assert IsInstance(cap, req);
      SegmentsSlashFree(req);
      if |Split(req)| == |segs| && Tokens(segs[i]).Some? {
        UnsatisfiableMatchesNothing(Tokens(segs[i]).value, Split(req)[i]);
      }
    } else {
      var texts := seq(|segs|, i requires 0 <= i < |segs| => Shortest(Tokens(segs[i]).value));
      forall i | 0 <= i < |segs| ensures '/' !in texts[i] && MatchSegment(segs[i], texts[i]) {
        TokensSlashFree(segs[i]);
        ShortestMatches(Tokens(segs[i]).value);
      }
      req := Join(texts);
      SplitInvertsJoin(texts);
      assert MatchCapability(cap, req);
      var k :| 0 <= k < |cap| && Special(cap[k]);
      SplitKeepsCharacters(cap, cap[k]);
      var i :| 0 <= i < |segs| && cap[k] in segs[i];
      assert !Plain(segs[i]);
      ShortestIsNoInstance(segs[i]);
      InstBySegments(cap, req);
      if IsInstance(cap, req) {
        var fills :| |fills| == Stars(cap) && SlashFree(fills) && Fill(cap, fills) == req;
        InstanceToInst(cap, fills);
      }
    }
  }

  /** The documented wildcard rule holds of a capability exactly when it has no star or no other special character. */
  lemma DocumentedRuleHoldsIff(cap: string)
    ensures (forall req :: MatchCapability(cap, req) <==> IsInstance(cap, req)) <==> ('*' !in cap || Plain(cap))
  {
    if '*' !in cap || Plain(cap) {
      forall req ensures MatchCapability(cap, req) <==> IsInstance(cap, req) {
        MatchIsInstance(cap, req);
      }
    } else {
      var req := SpecialBreaksRule(cap);
    }
  }

  // ------------------------------------------- the other special characters, one by one

  /** Every character escaped. */
  function Escaped(text: string): string {
    if text == "" then "" else ['\\', text[0]] + Escaped(text[1..])
  }

  /** A fully escaped pattern matches exactly the text it escapes. */
  lemma {:induction false} EscapedMatchesItself(text: string, s: string)
    ensures MatchSegment(Escaped(text), s) <==> s == text
  {
    if text != "" {
      var p := Escaped(text);
      assert p[2..] == Escaped(text[1..]);
      EscapedMatchesItself(text[1..], if s == "" then s else s[1..]);
      EscapedIsReadable(text[1..]);
      assert Tokens(p) == Prepend(Literal(text[0]), Tokens(p[2..]));
      assert Tokens(p).value[1..] == Tokens(p[2..]).value;
      if s != "" { assert s == [s[0]] + s[1..] && text == [text[0]] + text[1..]; }
    }
  }

  lemma {:induction false} EscapedIsReadable(text: string)
    ensures Tokens(Escaped(text)).Some?
  {
    if text != "" {
      EscapedIsReadable(text[1..]);
      assert Escaped(text)[2..] == Escaped(text[1..]);
    }
  }

  /** A range class takes exactly one character, in the range, or outside it when negated. */
  lemma RangeTakesOne(lo: char, hi: char, negated: bool, s: string)
    requires lo !in "^-]\\" && hi !in "-]\\"
    ensures var p := "[" + (if negated then "^" else "") + [lo, '-', hi, ']'];
            MatchSegment(p, s) <==> |s| == 1 && (negated != (lo <= s[0] <= hi))
  {
    var body := [lo, '-', hi, ']'];
    var p := "[" + (if negated then "^" else "") + body;
    assert (if negated then p[2..] else p[1..]) == body;
    RangeBody(lo, hi);
    var t := Class(negated, [(lo, hi)]);
    assert Tokens("") == Some([]);
    assert p[0] == '[' && (negated <==> p[1] == '^');
    assert [t] + [] == [t];
    assert Tokens(p) == Prepend(t, Tokens(""));
    OneClass(t, s);
    assert t.ranges[0] == (lo, hi);
  }

  lemma OneClass(t: Token, s: string)
    requires t.Class?
    ensures MatchTokens([t], s) <==> |s| == 1 && InClass(t, s[0])
  {
    assert [t][1..] == [];
    assert |s| == 1 ==> s[1..] == "";
  }

  lemma RangeBody(lo: char, hi: char)
    requires lo !in "^-]\\" && hi !in "-]\\"
    ensures ClassRanges([lo, '-', hi, ']'], true) == Some(([(lo, hi)], ""))
  {
    var body := [lo, '-', hi, ']'];
    assert lo != '-' && lo != ']' && lo != '\\' && hi != '-' && hi != ']' && hi != '\\';
    assert body[1..] == ['-', hi, ']'] && body[1..][1..] == [hi, ']'] && [hi, ']'][1..] == "]" && "]"[1..] == "";
    assert ClassChar(body) == Some((lo, body[1..]));
    assert ClassChar([hi, ']']) == Some((hi, "]"));
    assert ClassRanges("]", false) == Some(([], ""));
    assert [(lo, hi)] + [] == [(lo, hi)];
  }
}
