/** The feedback lifecycle as the Archivist enforces it, and what every run of it keeps. */
module Feedback {
  import opened Prelude

  datatype State = New | Actioned | WontFix | Rejected | Deadlocked | Resolved

  /** depth is the number of history events, the "created" event included. */
  datatype Item = Item(kind: string, source: string, canWontFix: bool, version: string,
                       state: State, ruling: string, depth: nat)

  datatype Move =
    | Resolve | Refuse | AcceptFix | RejectFix | AcceptRefusal | RejectRefusal
    | Deadlock
    | LinkRuling(law: string, target: State)

  function Created(kind: string, source: string, canWontFix: bool, version: string): Item {
    Item(kind, source, canWontFix, version, New, "", 1)
  }

  predicate Enabled(i: Item, m: Move) {
    match m
    case Resolve => i.state == New || i.state == Rejected
    case Refuse => i.state == New || i.state == Rejected
    case AcceptFix => i.state == Actioned
    case RejectFix => i.state == Actioned
    case AcceptRefusal => i.state == WontFix
    case RejectRefusal => i.state == WontFix
    case Deadlock => i.state != Resolved && i.state != Deadlocked
    case LinkRuling(law, target) =>
      i.state == Deadlocked && i.ruling == "" && law != "" && (target == WontFix || target == Rejected)
  }

  function Target(m: Move): State {
    match m
    case Resolve => Actioned
    case Refuse => WontFix
    case AcceptFix => Resolved
    case RejectFix => Rejected
    case AcceptRefusal => Resolved
    case RejectRefusal => Rejected
    case Deadlock => Deadlocked
    case LinkRuling(_, target) => target
  }

  function Apply(i: Item, m: Move): Item {
    i.(state := Target(m), depth := i.depth + 1, ruling := if m.LinkRuling? then m.law else i.ruling)
  }

  /** Storing a new version resolves the items of older versions that could not be refused anyway. */
  predicate Stale(i: Item, newVersion: string) {
    i.version != newVersion && !i.canWontFix && i.state != Resolved && i.state != Deadlocked && i.ruling == ""
  }

  /** The follow-up insert adds an event to every resolved item of an older version, newly resolved or not. */
  function Supersede(i: Item, newVersion: string): Item {
    if Stale(i, newVersion) then i.(state := Resolved, depth := i.depth + 1)
    else if i.version != newVersion && !i.canWontFix && i.state == Resolved && i.ruling == "" then i.(depth := i.depth + 1)
    else i
  }

  /** What a Sort visit looks for: deadlocked already, or NEW/ACTIONED and too deep. */
  predicate Escalates(i: Item, threshold: int) {
    i.state == Deadlocked || ((i.state == New || i.state == Actioned) && i.depth >= threshold)
  }

  // ------------------------------------------------------------ runs of one item

  /** Cleared: a Sort visit whose deadlock check found nothing. Superseded: a new version was stored. */
  datatype Event = Do(move: Move) | Cleared | Superseded(version: string)

  function Step(i: Item, e: Event, threshold: int): Option<Item> {
    match e
    case Do(m) => if Enabled(i, m) then Some(Apply(i, m)) else None
    case Cleared => if Escalates(i, threshold) then None else Some(i)
    case Superseded(v) => Some(Supersede(i, v))
  }

  /** The item after the events; None when one of them is not possible. */
  function Run(i: Item, es: seq<Event>, threshold: int): Option<Item>
    decreases |es|
  {
    if es == [] then Some(i)
    else match Step(i, es[0], threshold)
      case None => None
      case Some(j) => Run(j, es[1..], threshold)
  }

  ghost function CountOf(es: seq<Event>, p: Event -> bool): nat {
    if es == [] then 0 else (if p(es[0]) then 1 else 0) + CountOf(es[1..], p)
  }

  predicate IsRuling(e: Event) { e.Do? && e.move.LinkRuling? }
  predicate IsAcceptance(e: Event) { e == Do(AcceptFix) || e == Do(AcceptRefusal) }
  predicate IsRejectFix(e: Event) { e == Do(RejectFix) }
  predicate IsRefusal(e: Event) { e == Do(Refuse) }
  predicate IsRefusalJudged(e: Event) { e == Do(AcceptRefusal) || e == Do(RejectRefusal) }
  predicate IsFix(e: Event) { e == Do(Resolve) }
  predicate IsFixJudged(e: Event) { e == Do(AcceptFix) || e == Do(RejectFix) }
  predicate IsRejectRefusal(e: Event) { e == Do(RejectRefusal) }

  /** A reviewer's move: accepting or rejecting what the refiner did. */
  predicate IsReview(e: Event) {
    e.Do? && (e.move.AcceptFix? || e.move.RejectFix? || e.move.AcceptRefusal? || e.move.RejectRefusal?)
  }

  /** Every review comes directly after a cleared Sort visit; cleared says whether one was just made. */
  ghost predicate ReviewsFollowVisits(es: seq<Event>, cleared: bool)
    decreases |es|
  {
    es == [] || ((IsReview(es[0]) ==> cleared) && ReviewsFollowVisits(es[1..], es[0].Cleared?))
  }

  lemma {:induction false} RunAppend(i: Item, es: seq<Event>, fs: seq<Event>, threshold: int)
    ensures Run(i, es + fs, threshold)
         == match Run(i, es, threshold) { case None => None case Some(j) => Run(j, fs, threshold) }
    decreases |es|
  {
    if es == [] {
      assert es + fs == fs;
    } else {
      assert (es + fs)[1..] == es[1..] + fs;
      match Step(i, es[0], threshold)
      case None =>
      case Some(j) => RunAppend(j, es[1..], fs, threshold);
    }
  }

  lemma {:induction false} CountAppend(es: seq<Event>, fs: seq<Event>, p: Event -> bool)
    ensures CountOf(es + fs, p) == CountOf(es, p) + CountOf(fs, p)
    decreases |es|
  {
    if es == [] {
      assert es + fs == fs;
    } else {
      assert (es + fs)[1..] == es[1..] + fs;
      CountAppend(es[1..], fs, p);
    }
  }

  // ------------------------------------------------------------------- theorems

  /** The service's transitions, one row per call: from which states, and to which. */
  lemma LifecycleTable(i: Item, m: Move)
    ensures Enabled(i, m) <==>
              || (m in {Resolve, Refuse} && i.state in {New, Rejected})
              || (m in {AcceptFix, RejectFix} && i.state == Actioned)
              || (m in {AcceptRefusal, RejectRefusal} && i.state == WontFix)
              || (m == Deadlock && i.state in {New, Actioned, WontFix, Rejected})
              || (m.LinkRuling? && i.state == Deadlocked && i.ruling == "" && m.law != "" && m.target in {WontFix, Rejected})
    ensures var j := Apply(i, m);
            && (m == Resolve ==> j.state == Actioned) && (m == Refuse ==> j.state == WontFix)
            && (m in {AcceptFix, AcceptRefusal} ==> j.state == Resolved)
            && (m in {RejectFix, RejectRefusal} ==> j.state == Rejected)
            && (m == Deadlock ==> j.state == Deadlocked)
            && (m.LinkRuling? ==> j.state == m.target && j.ruling == m.law) && (!m.LinkRuling? ==> j.ruling == i.ruling)
            && j.depth == i.depth + 1
            && (j.kind, j.source, j.canWontFix, j.version) == (i.kind, i.source, i.canWontFix, i.version)
  {
  }

  /** Storing a version closes exactly the open items of other versions that may not be refused and have no ruling. */
  lemma SupersedingClosesIff(i: Item, version: string)
    ensures Supersede(i, version).state == Resolved
       <==> i.state == Resolved
            || (i.version != version && !i.canWontFix && i.ruling == "" && i.state in {New, Actioned, WontFix, Rejected})
    ensures Supersede(i, version).state != Resolved ==> Supersede(i, version) == i
  {
  }

  /** RESOLVED is final. */
  lemma {:induction false} ResolvedIsFinal(i: Item, es: seq<Event>, threshold: int)
    requires i.state == Resolved && Run(i, es, threshold).Some?
    ensures Run(i, es, threshold).value.state == Resolved
    decreases |es|
  {
    if es != [] {
      ResolvedIsFinal(Step(i, es[0], threshold).value, es[1..], threshold);
    }
  }

  /**
   * Unless a new version supersedes it, an item is closed by exactly one acceptance, and by nothing else:
   * a run ends RESOLVED exactly when one of its events accepted a fix or a refusal.
   */
  lemma {:induction false} ResolvedIffAccepted(i: Item, es: seq<Event>, threshold: int)
    requires Run(i, es, threshold).Some?
    requires i.canWontFix || forall k :: 0 <= k < |es| ==> !es[k].Superseded?
    ensures CountOf(es, IsAcceptance) == if i.state != Resolved && Run(i, es, threshold).value.state == Resolved then 1 else 0
    decreases |es|
  {
    if es != [] {
      assert forall k :: 0 <= k < |es| - 1 ==> es[1..][k] == es[k + 1];
      ResolvedIffAccepted(Step(i, es[0], threshold).value, es[1..], threshold);
      if Step(i, es[0], threshold).value.state == Resolved {
        ResolvedIsFinal(Step(i, es[0], threshold).value, es[1..], threshold);
      }
    }
  }

  /** In any run at most one ruling is linked, none if the item carries one already, and a linked one stays. */
  lemma {:induction false} RuledAtMostOnce(i: Item, es: seq<Event>, threshold: int)
    requires Run(i, es, threshold).Some?
    ensures CountOf(es, IsRuling) <= if i.ruling == "" then 1 else 0
    ensures i.ruling != "" ==> Run(i, es, threshold).value.ruling == i.ruling
    decreases |es|
  {
    if es != [] {
      RuledAtMostOnce(Step(i, es[0], threshold).value, es[1..], threshold);
    }
  }

  /** How often a run takes the item out of DEADLOCKED. */
  ghost function Escapes(i: Item, es: seq<Event>, threshold: int): nat
    requires Run(i, es, threshold).Some?
    decreases |es|
  {
    if es == [] then 0
    else
      var j := Step(i, es[0], threshold).value;
      (if i.state == Deadlocked && j.state != Deadlocked then 1 else 0) + Escapes(j, es[1..], threshold)
  }

  /** Every escape is a ruling, so in any run there is at most one. */
  lemma {:induction false} EscapesAreRulings(i: Item, es: seq<Event>, threshold: int)
    requires Run(i, es, threshold).Some?
    ensures Escapes(i, es, threshold) == CountOf(es, IsRuling) <= 1
    decreases |es|
  {
    RuledAtMostOnce(i, es, threshold);
    if es != [] {
      EscapesAreRulings(Step(i, es[0], threshold).value, es[1..], threshold);
    }
  }

  /** A second deadlock is permanent: nothing at all changes a deadlocked item that has its ruling. */
  lemma {:induction false} SecondDeadlockIsPermanent(i: Item, es: seq<Event>, threshold: int)
    requires i.state == Deadlocked && i.ruling != "" && Run(i, es, threshold).Some?
    ensures Run(i, es, threshold).value == i
    decreases |es|
  {
    if es != [] {
      SecondDeadlockIsPermanent(Step(i, es[0], threshold).value, es[1..], threshold);
    }
  }

  /**
   * After a ruling, a fix can no longer be accepted: once the refiner resolves the item, every
   * disciplined run keeps it ACTIONED until Sort deadlocks it again, this time for good.
   */
  lemma {:induction false} FixAfterRulingIsLost(i: Item, es: seq<Event>, threshold: int)
    requires i.state == Actioned || i.state == Deadlocked
    requires i.ruling != "" && i.depth >= threshold
    requires Run(i, es, threshold).Some? && ReviewsFollowVisits(es, false)
    ensures Run(i, es, threshold).value.state in {Actioned, Deadlocked}
    decreases |es|
  {
    if es != [] {
      FixAfterRulingIsLost(Step(i, es[0], threshold).value, es[1..], threshold);
    }
  }

  /** A disciplined run that links a REJECTED ruling, lets the refiner fix the item, and ends RESOLVED. */
  ghost predicate FixAccepted(i: Item, law: string, es: seq<Event>, threshold: int) {
    var all := [Do(LinkRuling(law, Rejected)), Do(Resolve)] + es;
    ReviewsFollowVisits(all, false) && Run(i, all, threshold).Some? && Run(i, all, threshold).value.state == Resolved
  }

  /**
   * A REJECTED ruling sends the item back to be fixed, but the ruling and the fix are two more events: the
   * fix can be accepted exactly when the item's depth leaves room for both below the threshold.
   */
  lemma RejectedRulingFixableIff(i: Item, law: string, threshold: int)
    requires i.state == Deadlocked && i.ruling == "" && law != ""
    ensures (exists es :: FixAccepted(i, law, es, threshold)) <==> i.depth + 2 < threshold
  {
    var start := [Do(LinkRuling(law, Rejected)), Do(Resolve)];
    var j := Apply(Apply(i, LinkRuling(law, Rejected)), Resolve);
    assert start[1..] == [Do(Resolve)] && start[1..][1..] == [];
    assert Run(i, start, threshold) == Some(j) by {
      assert Run(Apply(i, LinkRuling(law, Rejected)), start[1..], threshold) == Run(j, [], threshold);
    }
    if es :| FixAccepted(i, law, es, threshold) {
      RunAppend(i, start, es, threshold);
      var all := start + es;
      assert all[1..][1..] == es && all[0] == start[0] && all[1..][0] == start[1];
      assert ReviewsFollowVisits(all[1..], false) && ReviewsFollowVisits(all[1..][1..], false);
      if i.depth + 2 >= threshold { FixAfterRulingIsLost(j, es, threshold); }
    }
    if i.depth + 2 < threshold {
      AcceptAfterVisit(j, threshold);
      RunAppend(i, start, [Cleared, Do(AcceptFix)], threshold);
      assert ReviewsFollowVisits(start[1..], false);
      DisciplineAppend(start, [Cleared, Do(AcceptFix)], false);
      assert FixAccepted(i, law, [Cleared, Do(AcceptFix)], threshold);
    }
  }

  lemma AcceptAfterVisit(j: Item, threshold: int)
    requires j.state == Actioned && j.depth < threshold
    ensures ReviewsFollowVisits([Cleared, Do(AcceptFix)], false)
    ensures Run(j, [Cleared, Do(AcceptFix)], threshold) == Some(Apply(j, AcceptFix))
  {
    var es := [Cleared, Do(AcceptFix)];
    assert es[1..] == [Do(AcceptFix)] && es[1..][1..] == [];
    assert ReviewsFollowVisits(es[1..], true);
    assert Run(j, es[1..], threshold) == Run(Apply(j, AcceptFix), [], threshold);
  }

  /** A disciplined run of one move, a visit and a review that ends RESOLVED. */
  ghost predicate ClosedBy(i: Item, first: Move, review: Move, threshold: int) {
    var es := [Do(first), Cleared, Do(review)];
    ReviewsFollowVisits(es, false) && Run(i, es, threshold).Some? && Run(i, es, threshold).value.state == Resolved
  }

  lemma ClosedInThree(i: Item, first: Move, review: Move, threshold: int)
    ensures ClosedBy(i, first, review, threshold)
       <==> && Enabled(i, first) && !IsReview(Do(first)) && !Escalates(Apply(i, first), threshold)
            && Enabled(Apply(i, first), review) && Apply(Apply(i, first), review).state == Resolved
  {
    var es := [Do(first), Cleared, Do(review)];
    var j := Apply(i, first);
    assert es[1..] == [Cleared, Do(review)] && es[1..][1..] == [Do(review)] && es[1..][1..][1..] == [];
    assert Run(i, es, threshold) == if Enabled(i, first) then Run(j, es[1..], threshold) else None;
    assert Run(j, es[1..], threshold) == if Escalates(j, threshold) then None else Run(j, es[1..][1..], threshold);
    assert Run(j, es[1..][1..], threshold) == if Enabled(j, review) then Run(Apply(j, review), [], threshold) else None;
    assert ReviewsFollowVisits(es[1..][1..], true);
    assert ReviewsFollowVisits(es[1..], false);
  }

  /**
   * A refusal can always be accepted: whatever the item's depth, one that is open for refinement can be
   * refused and a deadlocked one ruled WONT_FIX, and the next disciplined review closes it.
   */
  lemma RefusalCloses(i: Item, law: string, threshold: int)
    ensures i.state in {New, Rejected} ==> ClosedBy(i, Refuse, AcceptRefusal, threshold)
    ensures i.state == Deadlocked && i.ruling == "" && law != "" ==> ClosedBy(i, LinkRuling(law, WontFix), AcceptRefusal, threshold)
  {
    ClosedInThree(i, Refuse, AcceptRefusal, threshold);
    ClosedInThree(i, LinkRuling(law, WontFix), AcceptRefusal, threshold);
  }

  /** A fix can be accepted in the next disciplined review exactly while the item is open and the fix leaves it below the threshold. */
  lemma FixClosesIff(i: Item, threshold: int)
    ensures ClosedBy(i, Resolve, AcceptFix, threshold) <==> i.state in {New, Rejected} && i.depth + 1 < threshold
  {
    ClosedInThree(i, Resolve, AcceptFix, threshold);
  }

  /** Only Sort deadlocks items, and only those its check escalates. */
  ghost predicate DeadlocksBySort(i: Item, es: seq<Event>, threshold: int)
    requires Run(i, es, threshold).Some?
    decreases |es|
  {
    es == [] || ((es[0] == Do(Deadlock) ==> Escalates(i, threshold))
                 && DeadlocksBySort(Step(i, es[0], threshold).value, es[1..], threshold))
  }

  /** How often a fix of an item that has its ruling is accepted or rejected. */
  ghost function RuledFixesJudged(i: Item, es: seq<Event>, threshold: int): nat
    requires Run(i, es, threshold).Some?
    decreases |es|
  {
    if es == [] then 0
    else (if i.ruling != "" && (es[0] == Do(AcceptFix) || es[0] == Do(RejectFix)) then 1 else 0)
         + RuledFixesJudged(Step(i, es[0], threshold).value, es[1..], threshold)
  }

  /** Deadlocked and ruled items are past the threshold. */
  ghost predicate PastThreshold(i: Item, threshold: int) {
    i.state == Deadlocked || i.ruling != "" ==> i.depth > threshold
  }

  lemma {:induction false} NoRuledFixFrom(i: Item, es: seq<Event>, threshold: int, cleared: bool)
    requires Run(i, es, threshold).Some? && DeadlocksBySort(i, es, threshold) && ReviewsFollowVisits(es, cleared)
    requires PastThreshold(i, threshold) && (cleared ==> !Escalates(i, threshold))
    ensures RuledFixesJudged(i, es, threshold) == 0
    decreases |es|
  {
    if es != [] {
      NoRuledFixFrom(Step(i, es[0], threshold).value, es[1..], threshold, es[0].Cleared?);
    }
  }

  /**
   * So in the flow, where only Sort deadlocks and each review follows a visit that let the item pass, no
   * fix of an item that has had a ruling is ever judged: a refusal is the only way it can be closed.
   */
  lemma RuledFixIsNeverJudged(i: Item, es: seq<Event>, threshold: int)
    requires i == Created(i.kind, i.source, i.canWontFix, i.version)
    requires Run(i, es, threshold).Some? && DeadlocksBySort(i, es, threshold) && ReviewsFollowVisits(es, false)
    ensures RuledFixesJudged(i, es, threshold) == 0
  {
    NoRuledFixFrom(i, es, threshold, false);
  }

  /** Until the first deadlock, parity says whose turn it is: odd the refiner's, even the reviewer's. */
  ghost predicate TurnByParity(i: Item) {
    && (i.state == New || i.state == Rejected ==> i.depth % 2 == 1)
    && (i.state == Actioned || i.state == WontFix ==> i.depth % 2 == 0)
  }

  ghost predicate NoDeadlockMove(es: seq<Event>) {
    forall k :: 0 <= k < |es| ==> es[k] != Do(Deadlock)
  }

  lemma {:induction false} ParityFixesTurn(i: Item, es: seq<Event>, threshold: int)
    requires TurnByParity(i) && i.state != Deadlocked && NoDeadlockMove(es) && Run(i, es, threshold).Some?
    ensures TurnByParity(Run(i, es, threshold).value) && Run(i, es, threshold).value.state != Deadlocked
    decreases |es|
  {
    if es != [] {
      assert es[0] != Do(Deadlock);
      assert NoDeadlockMove(es[1..]) by { assert forall k :: 0 <= k < |es| - 1 ==> es[1..][k] == es[k + 1]; }
      ParityFixesTurn(Step(i, es[0], threshold).value, es[1..], threshold);
    }
  }

  // ---------------------------------------------------------------- debate bound

  /** How many more fixes can be rejected before the threshold ends the debate. */
  ghost function RejectionsLeft(i: Item, threshold: int): int {
    if i.state == Actioned then (if i.depth <= threshold then (threshold - i.depth + 1) / 2 else 0)
    else if i.depth < threshold then (threshold - i.depth) / 2 else 0
  }

  lemma {:induction false} DebateBoundFrom(i: Item, es: seq<Event>, threshold: int, cleared: bool)
    requires Run(i, es, threshold).Some? && ReviewsFollowVisits(es, cleared)
    requires cleared ==> !Escalates(i, threshold)
    ensures CountOf(es, IsRejectFix) <= RejectionsLeft(i, threshold)
    decreases |es|
  {
    if es != [] {
      DebateBoundFrom(Step(i, es[0], threshold).value, es[1..], threshold, es[0].Cleared?);
    }
  }

  /** The debate bound: in every disciplined run, at most (threshold - 1) / 2 fixes of an item are rejected. */
  lemma DebateBound(i: Item, es: seq<Event>, threshold: int)
    requires i == Created(i.kind, i.source, i.canWontFix, i.version) && threshold >= 1
    requires Run(i, es, threshold).Some? && ReviewsFollowVisits(es, false)
    ensures CountOf(es, IsRejectFix) <= (threshold - 1) / 2
  {
    DebateBoundFrom(i, es, threshold, false);
  }

  /** Each refusal judged, either way, was made before, or is the ruling that set the item to WONT_FIX. */
  lemma {:induction false} JudgedRefusalsWereMade(i: Item, es: seq<Event>, threshold: int)
    requires Run(i, es, threshold).Some?
    ensures CountOf(es, IsRefusalJudged) <= CountOf(es, IsRefusal) + CountOf(es, IsRuling) + if i.state == WontFix then 1 else 0
    ensures CountOf(es, IsRejectRefusal) <= CountOf(es, IsRefusalJudged)
    decreases |es|
  {
    if es != [] {
      JudgedRefusalsWereMade(Step(i, es[0], threshold).value, es[1..], threshold);
    }
  }

  /** Each fix judged, either way, was made before. */
  lemma {:induction false} JudgedFixesWereMade(i: Item, es: seq<Event>, threshold: int)
    requires Run(i, es, threshold).Some?
    ensures CountOf(es, IsFixJudged) <= CountOf(es, IsFix) + if i.state == Actioned then 1 else 0
    decreases |es|
  {
    if es != [] {
      JudgedFixesWereMade(Step(i, es[0], threshold).value, es[1..], threshold);
    }
  }

  const ROUND := [Do(Resolve), Cleared, Do(RejectFix)]

  ghost function Rounds(n: nat): seq<Event> {
    if n == 0 then [] else Rounds(n - 1) + ROUND
  }

  /** The bound is reached: that many rounds of fix, visit and rejection are possible. */
  lemma {:induction false} DebateBoundIsTight(i: Item, n: nat, threshold: int)
    requires i == Created(i.kind, i.source, i.canWontFix, i.version) && n <= (threshold - 1) / 2
    ensures ReviewsFollowVisits(Rounds(n), false)
    ensures CountOf(Rounds(n), IsRejectFix) == n
    ensures Run(i, Rounds(n), threshold) == Some(i.(state := if n == 0 then New else Rejected, depth := 1 + 2 * n))
  {
    if n > 0 {
      DebateBoundIsTight(i, n - 1, threshold);
      var j := Run(i, Rounds(n - 1), threshold).value;
      RunAppend(i, Rounds(n - 1), ROUND, threshold);
      OneRound(j, threshold);
      CountAppend(Rounds(n - 1), ROUND, IsRejectFix);
      DisciplineAppend(Rounds(n - 1), ROUND, false);
    }
  }

  lemma OneRound(j: Item, threshold: int)
    requires (j.state == New || j.state == Rejected) && j.depth + 1 < threshold
    ensures Run(j, ROUND, threshold) == Some(j.(state := Rejected, depth := j.depth + 2))
    ensures CountOf(ROUND, IsRejectFix) == 1 && ReviewsFollowVisits(ROUND, false)
  {
    var es := ROUND;
    assert es[1..] == [Cleared, Do(RejectFix)] && es[1..][1..] == [Do(RejectFix)] && es[1..][1..][1..] == [];
    var k := Apply(j, Resolve);
    assert Run(k, es[1..], threshold) == Run(k, [Do(RejectFix)], threshold);
    assert Run(k, [Do(RejectFix)], threshold) == Run(Apply(k, RejectFix), [], threshold);
    assert ReviewsFollowVisits([Do(RejectFix)], true);
    assert CountOf([Do(RejectFix)], IsRejectFix) == 1;
    assert CountOf(es[1..], IsRejectFix) == 1;
  }

  lemma {:induction false} DisciplineAppend(es: seq<Event>, fs: seq<Event>, cleared: bool)
    requires ReviewsFollowVisits(es, cleared) && ReviewsFollowVisits(fs, false)
    ensures ReviewsFollowVisits(es + fs, cleared)
    decreases |es|
  {
    if es == [] {
      assert es + fs == fs;
      if fs != [] { assert ReviewsFollowVisits(fs[1..], fs[0].Cleared?); }
    } else {
      assert (es + fs)[1..] == es[1..] + fs;
      DisciplineAppend(es[1..], fs, es[0].Cleared?);
    }
  }

  const REFUSAL_ROUND := [Do(Refuse), Cleared, Do(RejectRefusal)]

  ghost function RefusalRounds(n: nat): seq<Event> {
    if n == 0 then [] else RefusalRounds(n - 1) + REFUSAL_ROUND
  }

  /**
   * Only fixes are bounded. The deadlock check skips WONT_FIX and REJECTED, so for every n a disciplined
   * run refuses and rejects the refusal n times and Sort never deadlocks the item, whatever the threshold.
   */
  lemma {:induction false} RefusalsAreUnbounded(i: Item, n: nat, threshold: int)
    requires i == Created(i.kind, i.source, i.canWontFix, i.version)
    ensures ReviewsFollowVisits(RefusalRounds(n), false)
    ensures CountOf(RefusalRounds(n), IsRejectRefusal) == n
    ensures Run(i, RefusalRounds(n), threshold) == Some(i.(state := if n == 0 then New else Rejected, depth := 1 + 2 * n))
  {
    if n > 0 {
      RefusalsAreUnbounded(i, n - 1, threshold);
      RunAppend(i, RefusalRounds(n - 1), REFUSAL_ROUND, threshold);
      OneRefusalRound(Run(i, RefusalRounds(n - 1), threshold).value, threshold);
      CountAppend(RefusalRounds(n - 1), REFUSAL_ROUND, IsRejectRefusal);
      DisciplineAppend(RefusalRounds(n - 1), REFUSAL_ROUND, false);
    }
  }

  lemma OneRefusalRound(j: Item, threshold: int)
    requires j.state == New || j.state == Rejected
    ensures Run(j, REFUSAL_ROUND, threshold) == Some(j.(state := Rejected, depth := j.depth + 2))
    ensures CountOf(REFUSAL_ROUND, IsRejectRefusal) == 1 && ReviewsFollowVisits(REFUSAL_ROUND, false)
  {
    var es := REFUSAL_ROUND;
    assert es[1..] == [Cleared, Do(RejectRefusal)] && es[1..][1..] == [Do(RejectRefusal)] && es[1..][1..][1..] == [];
    var k := Apply(j, Refuse);
    assert Run(k, es[1..], threshold) == Run(k, [Do(RejectRefusal)], threshold);
    assert Run(k, [Do(RejectRefusal)], threshold) == Run(Apply(k, RejectRefusal), [], threshold);
    assert ReviewsFollowVisits([Do(RejectRefusal)], true);
    assert CountOf([Do(RejectRefusal)], IsRejectRefusal) == 1;
    assert CountOf(es[1..], IsRejectRefusal) == 1;
  }
}
