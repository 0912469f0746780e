/** The Cartographer transaction handle (sdk/go/transaction.go): check, call, set, from any number of goroutines. */
module Transaction {
  import opened Prelude

  /** Other stands for every read, write, diff and refresh: it checks and calls but sets nothing. */
  datatype Op = Commit | Rollback | Extend | Other

  /** The server accepts at most one commit or rollback of the id. */
  datatype Server = Open | Committed | RolledBack

  /** Where a goroutine is in its current call; the lock is not held in between. */
  datatype Stage = Idle | Checked(op: Op) | Answered(op: Op, granted: int)

  /**
   * What becomes of a request: accepted, accepted but the answer lost, or refused. For an extension,
   * granted is the timeout the server applies, which need not be the one asked for.
   */
  datatype Outcome = Accepted(granted: int) | Lost(granted: int) | Refused

  datatype State = State(committed: bool, rolledBack: bool, applied: int,
                         server: Server, lastGrant: int,
                         stages: map<nat, Stage>, sent: seq<nat>)

  datatype Step = Check(thread: nat, op: Op) | Call(thread: nat, outcome: Outcome) | Set(thread: nat)

  function Start(timeout: int): State { State(false, false, timeout, Open, timeout, map[], []) }

  function StageOf(s: State, t: nat): Stage { if t in s.stages then s.stages[t] else Idle }

  function At(s: State, t: nat, stage: Stage): State { s.(stages := s.stages[t := stage]) }

  predicate Terminal(s: State) { s.committed || s.rolledBack }

  predicate Possible(s: State, step: Step) {
    match step
    case Check(t, _) => StageOf(s, t) == Idle
    case Call(t, outcome) =>
      StageOf(s, t).Checked? && (outcome == Refused || s.server == Open || StageOf(s, t).op == Other)
    case Set(t) => StageOf(s, t).Answered?
  }

  /** What an accepted request does to the server. */
  function Accept(s: State, op: Op, granted: int): State {
    match op
    case Commit => s.(server := Committed)
    case Rollback => s.(server := RolledBack)
    case Extend => s.(lastGrant := granted)
    case Other => s
  }

  function Next(s: State, step: Step): State
    requires Possible(s, step)
  {
    match step
    case Check(t, op) => if Terminal(s) then s else At(s, t, Checked(op))
    case Call(t, outcome) =>
      var op := StageOf(s, t).op;
      var s' := if outcome == Refused then s else Accept(s, op, outcome.granted);
      At(s', t, if outcome.Accepted? then Answered(op, outcome.granted) else Idle).(sent := s.sent + [t])
    case Set(t) =>
      var s' := match StageOf(s, t).op
                case Commit => s.(committed := true)
                case Rollback => s.(rolledBack := true)
                case Extend => s.(applied := StageOf(s, t).granted)
                case Other => s;
      At(s', t, Idle)
  }

  /** The state after the steps; None when one is not possible. */
  function Run(s: State, steps: seq<Step>): Option<State>
    decreases |steps|
  {
    if steps == [] then Some(s)
    else if Possible(s, steps[0]) then Run(Next(s, steps[0]), steps[1..])
    else None
  }

  // ------------------------------------------------------------------- invariant

  predicate HasAnswer(s: State, t: nat, op: Op) { StageOf(s, t).Answered? && StageOf(s, t).op == op }

  ghost predicate Inv(s: State) {
    && (s.committed ==> s.server == Committed)
    && (s.rolledBack ==> s.server == RolledBack)
    && forall t :: (HasAnswer(s, t, Commit) ==> s.server == Committed) && (HasAnswer(s, t, Rollback) ==> s.server == RolledBack)
  }

  lemma {:induction false} RunKeepsInv(s: State, steps: seq<Step>)
    requires Inv(s) && Run(s, steps).Some?
    ensures Inv(Run(s, steps).value)
    decreases |steps|
  {
    if steps != [] {
      StepKeepsInv(s, steps[0]);
      RunKeepsInv(Next(s, steps[0]), steps[1..]);
    }
  }

  lemma StepKeepsInv(s: State, step: Step)
    requires Inv(s) && Possible(s, step)
    ensures Inv(Next(s, step))
  {
    var s' := Next(s, step);
    forall t
      ensures HasAnswer(s', t, Commit) ==> s'.server == Committed
      ensures HasAnswer(s', t, Rollback) ==> s'.server == RolledBack
    {
      assert StageOf(s', t) == StageOf(s, t) || t == step.thread;
      assert HasAnswer(s, t, Commit) ==> s.server == Committed;
      assert HasAnswer(s, t, Rollback) ==> s.server == RolledBack;
    }
    assert step.Set? ==> HasAnswer(s, step.thread, StageOf(s, step.thread).op);
  }

  /** In every interleaving the flags exclude each other, and a flag means the server accepted that action. */
  lemma FlagsAreTrue(timeout: int, steps: seq<Step>)
    requires Run(Start(timeout), steps).Some?
    ensures var s := Run(Start(timeout), steps).value;
            !(s.committed && s.rolledBack)
            && (s.committed ==> s.server == Committed) && (s.rolledBack ==> s.server == RolledBack)
  {
    RunKeepsInv(Start(timeout), steps);
  }

  predicate SetsTerminal(s: State, step: Step) {
    step.Set? && StageOf(s, step.thread).Answered? && (StageOf(s, step.thread).op == Commit || StageOf(s, step.thread).op == Rollback)
  }

  /** How many commits and rollbacks return success in the run. */
  ghost function Successes(s: State, steps: seq<Step>): nat
    decreases |steps|
  {
    if steps == [] || !Possible(s, steps[0]) then 0
    else (if SetsTerminal(s, steps[0]) then 1 else 0) + Successes(Next(s, steps[0]), steps[1..])
  }

  predicate Winner(s: State, t: nat) { HasAnswer(s, t, Commit) || HasAnswer(s, t, Rollback) }

  /** Whoever was accepted is alone, before and after the flag is set. */
  ghost predicate OneWinner(s: State) {
    && (forall t, u :: Winner(s, t) && Winner(s, u) ==> t == u)
    && (forall t :: Winner(s, t) ==> s.server != Open && !Terminal(s))
    && (Terminal(s) ==> s.server != Open)
  }

  ghost function Remaining(s: State): nat {
    if Terminal(s) then 0 else 1
  }

  lemma {:induction false} SuccessesBounded(s: State, steps: seq<Step>)
    requires OneWinner(s) && Run(s, steps).Some?
    ensures Successes(s, steps) <= Remaining(s)
    decreases |steps|
  {
    if steps != [] {
      var s' := Next(s, steps[0]);
      forall t ensures StageOf(s', t) == StageOf(s, t) || t == steps[0].thread {
      }
      if SetsTerminal(s, steps[0]) { assert Winner(s, steps[0].thread); }
      assert forall t :: Winner(s', t) ==> Winner(s, t) || (steps[0].Call? && t == steps[0].thread && s.server == Open);
      assert OneWinner(s');
      SuccessesBounded(s', steps[1..]);
    }
  }

  /** However many goroutines try, at most one commit or rollback ever succeeds on a handle. */
  lemma AtMostOneSuccess(timeout: int, steps: seq<Step>)
    requires Run(Start(timeout), steps).Some?
    ensures Successes(Start(timeout), steps) <= 1
  {
    SuccessesBounded(Start(timeout), steps);
  }

  /** One undisturbed call on an open transaction: accepted, it sets its flag and nothing else; lost or refused, none. */
  lemma CallTakesEffect(s: State, t: nat, op: Op, granted: int)
    requires !Terminal(s) && s.server == Open && StageOf(s, t) == Idle
    ensures Run(s, [Check(t, op), Call(t, Accepted(granted)), Set(t)]).Some?
    ensures var end := Run(s, [Check(t, op), Call(t, Accepted(granted)), Set(t)]).value;
            && (end.committed <==> op == Commit) && (end.rolledBack <==> op == Rollback)
            && end.server == (if op == Commit then Committed else if op == Rollback then RolledBack else Open)
            && end.applied == (if op == Extend then granted else s.applied)
            && end.lastGrant == (if op == Extend then granted else s.lastGrant)
    ensures forall outcome: Outcome :: !outcome.Accepted? ==>
              && Run(s, [Check(t, op), Call(t, outcome)]).Some?
              && var end := Run(s, [Check(t, op), Call(t, outcome)]).value;
                 (end.committed, end.rolledBack, end.applied) == (s.committed, s.rolledBack, s.applied)
  {
    var steps := [Check(t, op), Call(t, Accepted(granted)), Set(t)];
    var s1 := Next(s, steps[0]);
    var s2 := Next(s1, steps[1]);
    assert steps[1..][0] == steps[1] && steps[1..][1..][0] == steps[2] && steps[1..][1..][1..] == [];
    assert Run(s2, steps[1..][1..]) == Run(Next(s2, steps[2]), []);
    assert Run(s1, steps[1..]) == Run(s2, steps[1..][1..]);
    forall outcome: Outcome | !outcome.Accepted?
      ensures Run(s, [Check(t, op), Call(t, outcome)]) == Some(Next(s1, Call(t, outcome)))
    {
      var failing := [Check(t, op), Call(t, outcome)];
      assert failing[1..] == [Call(t, outcome)] && failing[1..][1..] == [];
      assert Run(s1, failing[1..]) == Run(Next(s1, Call(t, outcome)), []);
    }
  }

  // ---------------------------------------------------------- requests after a flag

  ghost function RequestsOf(sent: seq<nat>, t: nat): nat { multiset(sent)[t] }

  /** Once a flag is set, a goroutine outside a call sends no request ever again, whatever it tries. */
  lemma {:induction false} NoRequestAfterFlag(s: State, steps: seq<Step>, t: nat)
    requires Terminal(s) && StageOf(s, t) == Idle && Run(s, steps).Some?
    ensures var s' := Run(s, steps).value;
            Terminal(s') && StageOf(s', t) == Idle && RequestsOf(s'.sent, t) == RequestsOf(s.sent, t)
    decreases |steps|
  {
    if steps != [] {
      NoRequestAfterFlag(Next(s, steps[0]), steps[1..], t);
    }
  }

  /**
   * The flag does not stop a goroutine that had checked before: a run sets it while another goroutine is
   * between check and call, and that goroutine's request still goes out.
   */
  lemma WindowIsReachable(timeout: int, op: Op)
    ensures var steps := [Check(0, Commit), Check(1, op), Call(0, Accepted(0)), Set(0)];
            Run(Start(timeout), steps).Some?
            && Run(Start(timeout), steps).value.committed && RequestsOf(Run(Start(timeout), steps).value.sent, 1) == 0
            && Run(Start(timeout), steps + [Call(1, Refused)]).Some?
            && RequestsOf(Run(Start(timeout), steps + [Call(1, Refused)]).value.sent, 1) == 1
  {
    var steps := [Check(0, Commit), Check(1, op), Call(0, Accepted(0)), Set(0)];
    var s0 := Start(timeout);
    var s1 := Next(s0, steps[0]);
    var s2 := Next(s1, steps[1]);
    var s3 := Next(s2, steps[2]);
    var s4 := Next(s3, steps[3]);
    assert steps[1..][1..][1..][1..] == [] && steps[1..][0] == steps[1] && steps[1..][1..][0] == steps[2] && steps[1..][1..][1..][0] == steps[3];
    assert Run(s3, steps[1..][1..][1..]) == Run(s4, []);
    assert Run(s2, steps[1..][1..]) == Some(s4);
    assert Run(s1, steps[1..]) == Some(s4);
    RunOneMore(s0, steps, Call(1, Refused));
  }

  // -------------------------------------------------------------- applied timeout

  predicate InExtension(s: State, t: nat) { !StageOf(s, t).Idle? && StageOf(s, t).op == Extend }

  /** No extension is in flight. */
  ghost predicate NoExtension(s: State) { forall t :: !InExtension(s, t) }

  /**
   * How the handle is used: whether extensions may overlap, whether the answer to one may get lost, and
   * which timeouts the server may grant.
   */
  datatype Use = Use(overlap: bool, loss: bool, grants: iset<int>)

  predicate StartsExtension(s: State, step: Step) { step.Check? && step.op == Extend && !Terminal(s) }

  predicate GrantsExtension(s: State, step: Step) {
    step.Call? && step.outcome != Refused && InExtension(s, step.thread)
  }

  ghost predicate Within(s: State, step: Step, use: Use) {
    && (StartsExtension(s, step) && !use.overlap ==> NoExtension(s))
    && (GrantsExtension(s, step) ==> step.outcome.granted in use.grants && (step.outcome.Lost? ==> use.loss))
  }

  ghost predicate RunsWithin(s: State, steps: seq<Step>, use: Use)
    decreases |steps|
  {
    steps == [] || !Possible(s, steps[0]) || (Within(s, steps[0], use) && RunsWithin(Next(s, steps[0]), steps[1..], use))
  }

  /** Whenever no extension is in flight, the handle shows what the server granted last. */
  ghost predicate UpToDate(s: State) { NoExtension(s) ==> s.applied == s.lastGrant }

  ghost predicate AlwaysUpToDate(timeout: int, use: Use) {
    forall steps :: Run(Start(timeout), steps).Some? && RunsWithin(Start(timeout), steps, use) ==>
      UpToDate(Run(Start(timeout), steps).value)
  }

  ghost predicate AllEqual(grants: iset<int>) { forall d, e :: d in grants && e in grants ==> d == e }

  ghost predicate Only(grants: iset<int>, timeout: int) { forall d :: d in grants ==> d == timeout }

  /** Lost answers are harmless only if they change nothing, overlaps only if all grants are the same. */
  ghost predicate Harmless(timeout: int, use: Use) {
    (use.loss ==> Only(use.grants, timeout)) && (use.overlap ==> AllEqual(use.grants))
  }

  ghost predicate Tracking(s: State, timeout: int, use: Use) {
    && (forall t :: HasAnswer(s, t, Extend) ==> StageOf(s, t).granted in use.grants)
    && (!use.overlap ==> forall t, u :: InExtension(s, t) && InExtension(s, u) ==> t == u)
    && if use.loss then s.applied == s.lastGrant == timeout
       else
         && (forall t :: HasAnswer(s, t, Extend) ==> StageOf(s, t).granted == s.lastGrant)
         && (s.applied == s.lastGrant || exists t :: HasAnswer(s, t, Extend))
  }

  lemma StepKeepsTracking(s: State, step: Step, timeout: int, use: Use)
    requires Harmless(timeout, use) && Tracking(s, timeout, use) && Possible(s, step) && Within(s, step, use)
    ensures Tracking(Next(s, step), timeout, use)
  {
    var s', me := Next(s, step), step.thread;
    forall t ensures t != me ==> StageOf(s', t) == StageOf(s, t) {
    }
    assert forall t :: t != me ==> (HasAnswer(s', t, Extend) <==> HasAnswer(s, t, Extend)) && (InExtension(s', t) <==> InExtension(s, t));
    assert GrantsExtension(s, step) && step.outcome.Accepted? ==> HasAnswer(s', me, Extend);
    if step.Set? && InExtension(s, me) {
      assert HasAnswer(s, me, Extend);
    }
    if !use.overlap && StartsExtension(s, step) {
      assert forall t :: !InExtension(s, t);
    }
    assert forall t :: HasAnswer(s, t, Extend) ==> InExtension(s, t);
  }

  lemma {:induction false} RunKeepsTracking(s: State, steps: seq<Step>, timeout: int, use: Use)
    requires Harmless(timeout, use) && Tracking(s, timeout, use)
    requires Run(s, steps).Some? && RunsWithin(s, steps, use)
    ensures Tracking(Run(s, steps).value, timeout, use)
    decreases |steps|
  {
    if steps != [] {
      StepKeepsTracking(s, steps[0], timeout, use);
      RunKeepsTracking(Next(s, steps[0]), steps[1..], timeout, use);
    }
  }

  /**
   * AppliedTimeout is documented as what the server granted most recently. Over all runs of a handle that
   * is so exactly when no answer to an extension is lost and no two extensions overlap, or those that may
   * be lost or overlap make no difference.
   */
  lemma UpToDateIff(timeout: int, use: Use)
    ensures AlwaysUpToDate(timeout, use) <==> Harmless(timeout, use)
  {
    if Harmless(timeout, use) {
      forall steps | Run(Start(timeout), steps).Some? && RunsWithin(Start(timeout), steps, use)
        ensures UpToDate(Run(Start(timeout), steps).value)
      {
        RunKeepsTracking(Start(timeout), steps, timeout, use);
        var end := Run(Start(timeout), steps).value;
        assert forall t :: HasAnswer(end, t, Extend) ==> InExtension(end, t);
      }
    } else if use.loss && !Only(use.grants, timeout) {
      var d :| d in use.grants && d != timeout;
      var steps := LostAnswerIsStale(timeout, d, use);
    } else {
      var d, e :| d in use.grants && e in use.grants && d != e;
      var steps := OverlapIsStale(timeout, d, e, use);
    }
  }

  /** One extension, nothing overlapping it, whose answer is lost. */
  lemma LostAnswerIsStale(timeout: int, d: int, use: Use) returns (steps: seq<Step>)
    requires use.loss && d in use.grants
    ensures Run(Start(timeout), steps).Some? && RunsWithin(Start(timeout), steps, use)
    ensures var end := Run(Start(timeout), steps).value; NoExtension(end) && end.applied == timeout && end.lastGrant == d
  {
    steps := [Check(0, Extend), Call(0, Lost(d))];
    var s0 := Start(timeout);
    var s1 := Next(s0, steps[0]);
    var s2 := Next(s1, steps[1]);
    assert steps[1..][0] == steps[1] && steps[1..][1..] == [];
    assert Run(s1, steps[1..]) == Run(s2, []);
    assert RunsWithin(s2, [], use) && RunsWithin(s1, steps[1..], use);
  }

  /** Two overlapping extensions, both answered, recorded in the other order than they were granted. */
  lemma OverlapIsStale(timeout: int, first: int, second: int, use: Use) returns (steps: seq<Step>)
    requires use.overlap && first in use.grants && second in use.grants
    ensures Run(Start(timeout), steps).Some? && RunsWithin(Start(timeout), steps, use)
    ensures var end := Run(Start(timeout), steps).value; NoExtension(end) && end.applied == first && end.lastGrant == second
  {
    steps := [Check(0, Extend), Check(1, Extend), Call(0, Accepted(first)), Call(1, Accepted(second)), Set(1), Set(0)];
    StaleTimeoutIsReachable(timeout, first, second);
    var end := Run(Start(timeout), steps).value;
    assert NoExtension(end) by { assert forall t :: StageOf(end, t) == Idle; }
    AcceptedIsWithin(Start(timeout), steps, use);
  }

  lemma {:induction false} AcceptedIsWithin(s: State, steps: seq<Step>, use: Use)
    requires use.overlap
    requires forall i :: 0 <= i < |steps| && steps[i].Call? ==> steps[i].outcome.Accepted? && steps[i].outcome.granted in use.grants
    ensures RunsWithin(s, steps, use)
    decreases |steps|
  {
    if steps != [] && Possible(s, steps[0]) {
      AcceptedIsWithin(Next(s, steps[0]), steps[1..], use);
    }
  }

  predicate Extending(s: State, t: nat) { HasAnswer(s, t, Extend) }

  ghost predicate Distinct(order: seq<nat>) {
    forall i, j :: 0 <= i < j < |order| ==> order[i] != order[j]
  }

  ghost predicate AllExtending(s: State, order: seq<nat>) {
    forall i :: 0 <= i < |order| ==> Extending(s, order[i])
  }

  /** order lists the goroutines whose extension was accepted but not yet recorded, in some order. */
  ghost predicate Drains(s: State, order: seq<nat>) {
    Distinct(order) && AllExtending(s, order) && forall t :: Extending(s, t) ==> t in order
  }

  function Sets(order: seq<nat>): seq<Step> { seq(|order|, i requires 0 <= i < |order| => Set(order[i])) }

  lemma {:induction false} LastSetWins(s: State, order: seq<nat>)
    requires Distinct(order) && AllExtending(s, order)
    ensures Run(s, Sets(order)).Some?
    ensures Run(s, Sets(order)).value.applied == if order == [] then s.applied else StageOf(s, order[|order| - 1]).granted
    ensures Run(s, Sets(order)).value.lastGrant == s.lastGrant
    decreases |order|
  {
    if order != [] {
      assert Extending(s, order[0]);
      var s' := Next(s, Set(order[0]));
      assert Sets(order)[1..] == Sets(order[1..]);
      forall i | 0 <= i < |order| - 1
        ensures Extending(s', order[1..][i]) && StageOf(s', order[1..][i]) == StageOf(s, order[i + 1])
      {
        assert Extending(s, order[i + 1]) && order[0] != order[i + 1];
      }
      LastSetWins(s', order[1..]);
    }
  }

  /** Some order finishes with t. */
  lemma FinishWith(s: State, pending: seq<nat>, t: nat) returns (order: seq<nat>)
    requires Drains(s, pending) && t in pending
    ensures Drains(s, order) && order != [] && order[|order| - 1] == t
  {
    var i :| 0 <= i < |pending| && pending[i] == t;
    order := pending[..i] + pending[i + 1..] + [t];
    assert forall k :: 0 <= k < i ==> order[k] == pending[k];
    assert forall k :: i <= k < |pending| - 1 ==> order[k] == pending[k + 1];
    assert order[|order| - 1] == t;
    forall u | Extending(s, u) ensures u in order {
      var k :| 0 <= k < |pending| && pending[k] == u;
      assert order[if k < i then k else if k > i then k - 1 else |order| - 1] == u;
    }
  }

  /** After every order of finishing, the handle shows the latest grant. */
  ghost predicate EndsUpToDate(s: State) {
    forall order :: Drains(s, order) ==>
      Run(s, Sets(order)).Some? && Run(s, Sets(order)).value.applied == Run(s, Sets(order)).value.lastGrant
  }

  /**
   * With extensions already in flight, the handle ends up with the latest grant, in whatever order they
   * finish, exactly when all of them carry it.
   */
  lemma LatestGrantSurvivesIff(s: State, pending: seq<nat>)
    requires Drains(s, pending)
    ensures EndsUpToDate(s)
       <==> if pending == [] then s.applied == s.lastGrant
            else forall i :: 0 <= i < |pending| ==> StageOf(s, pending[i]).granted == s.lastGrant
  {
    if EndsUpToDate(s) {
      if pending == [] {
        LastSetWins(s, []);
      }
      forall i | 0 <= i < |pending| ensures StageOf(s, pending[i]).granted == s.lastGrant {
        var order := FinishWith(s, pending, pending[i]);
        LastSetWins(s, order);
      }
    }
    if if pending == [] then s.applied == s.lastGrant
       else forall i :: 0 <= i < |pending| ==> StageOf(s, pending[i]).granted == s.lastGrant
    {
      forall order | Drains(s, order)
        ensures Run(s, Sets(order)).Some? && Run(s, Sets(order)).value.applied == Run(s, Sets(order)).value.lastGrant
      {
        LastSetWins(s, order);
        if pending != [] { assert Extending(s, pending[0]); }
        if order != [] { assert Extending(s, order[|order| - 1]) && order[|order| - 1] in pending; }
      }
    }
  }

  /** Two overlapping extensions can leave a quiet handle with the older grant. */
  lemma StaleTimeoutIsReachable(timeout: int, first: int, second: int)
    ensures var steps := [Check(0, Extend), Check(1, Extend), Call(0, Accepted(first)), Call(1, Accepted(second)), Set(1), Set(0)];
            Run(Start(timeout), steps).Some?
            && Run(Start(timeout), steps).value.applied == first && Run(Start(timeout), steps).value.lastGrant == second
            && forall t :: StageOf(Run(Start(timeout), steps).value, t) == Idle
  {
    var steps := [Check(0, Extend), Check(1, Extend), Call(0, Accepted(first)), Call(1, Accepted(second)), Set(1), Set(0)];
    var s4 := Next(Next(Next(Next(Start(timeout), steps[0]), steps[1]), steps[2]), steps[3]);
    var s6 := Next(Next(s4, steps[4]), steps[5]);
    var r1 := steps[1..];
    var r2 := r1[1..];
    var r3 := r2[1..];
    var r4 := r3[1..];
    assert r4 == [Set(1), Set(0)] && r4[1..] == [Set(0)] && r4[1..][1..] == [];
    assert Run(Next(s4, steps[4]), r4[1..]) == Run(s6, []);
    assert Run(s4, r4) == Some(s6);
    assert Run(Next(Next(Next(Start(timeout), steps[0]), steps[1]), steps[2]), r3) == Some(s6);
    assert Run(Next(Next(Start(timeout), steps[0]), steps[1]), r2) == Some(s6);
    assert Run(Next(Start(timeout), steps[0]), r1) == Some(s6);
  }

  // ------------------------------------------------- the handle, used by one goroutine

  datatype CallError = ErrRolledBack | ErrCommitted | ErrServer

  /** The handle, and the server it talks to, with one goroutine at work. */
  class Handle {
    var committed: bool
    var rolledBack: bool
    var appliedTimeout: int
    var server: Server
    var lastGrant: int
    var requests: nat
    ghost var outcomes: seq<Outcome>  // what became of each request

    constructor (timeout: int)
      ensures !committed && !rolledBack && appliedTimeout == timeout && server == Open && lastGrant == timeout
      ensures requests == 0 && outcomes == []
    {
      committed, rolledBack, appliedTimeout, server, lastGrant, requests := false, false, timeout, Open, timeout, 0;
      outcomes := [];
    }

    /** This handle as a state of the interleaving machine, thread 0 outside any call. */
    ghost function Machine(): State
      reads this
    {
      State(committed, rolledBack, appliedTimeout, server, lastGrant, map[0 := Idle], seq(requests, i => 0))
    }

    method CheckTerminal() returns (err: Option<CallError>)
      ensures err == if rolledBack then Some(ErrRolledBack) else if committed then Some(ErrCommitted) else None
    {
      if rolledBack { return Some(ErrRolledBack); }
      if committed { return Some(ErrCommitted); }
      return None;
    }

    /** The request and the server's part in it. */
    method Request(op: Op) returns (outcome: Outcome)
      modifies this`server, this`lastGrant, this`requests, this`outcomes
      ensures requests == old(requests) + 1 && outcomes == old(outcomes) + [outcome]
      ensures outcome == Refused || old(server) == Open || op == Other
      ensures var before := old(Machine());
              var after := if outcome == Refused then before else Accept(before, op, outcome.granted);
              server == after.server && lastGrant == after.lastGrant
    {
      requests := requests + 1;
      outcome := Refused;
      outcomes := outcomes + [Refused];
      if server != Open && op != Other { return; }
      if * { return; }
      if op == Commit { server := Committed; }
      if op == Rollback { server := RolledBack; }
      var granted: int := *;  // the server's choice
      if op == Extend { lastGrant := granted; }
      if * { outcome := Accepted(granted); } else { outcome := Lost(granted); }
      outcomes := old(outcomes) + [outcome];
    }

    /** Commit, Rollback, ExtendTimeout and the rest: check, call, set; each is a run of the machine. */
    method Perform(op: Op) returns (err: Option<CallError>, ghost steps: seq<Step>)
      modifies this
      ensures Run(old(Machine()), steps) == Some(Machine())
      ensures old(rolledBack) ==> err == Some(ErrRolledBack) && requests == old(requests)
      ensures old(committed) && !old(rolledBack) ==> err == Some(ErrCommitted) && requests == old(requests)
      ensures !Terminal(old(Machine())) ==> requests == old(requests) + 1
      // The call succeeds exactly when its request was accepted and the answer arrived.
      ensures !Terminal(old(Machine())) ==>
                exists outcome: Outcome :: outcomes == old(outcomes) + [outcome] && err == if outcome.Accepted? then None else Some(ErrServer)
      ensures err.None? && op == Commit ==> committed && server == Committed
      ensures err.None? && op == Rollback ==> rolledBack && server == RolledBack
      ensures err.None? && op == Extend ==> appliedTimeout == lastGrant
      ensures err.Some? ==> committed == old(committed) && rolledBack == old(rolledBack) && appliedTimeout == old(appliedTimeout)
    {
      ghost var s0 := Machine();
      err := CheckTerminal();
      if err.Some? {
        steps := [];
        return;
      }
      var outcome := Request(op);
      ghost var s2 := Next(Next(s0, Check(0, op)), Call(0, outcome));
      steps := [Check(0, op), Call(0, outcome)];
      assert s2.sent == seq(requests, i => 0);
      assert steps[1..] == [Call(0, outcome)] && steps[1..][1..] == [];
      assert Run(Next(s0, Check(0, op)), steps[1..]) == Run(s2, []);
      if !outcome.Accepted? {
        assert s2 == Machine();
        return Some(ErrServer), steps;
      }
      if op == Commit { committed := true; }
      if op == Rollback { rolledBack := true; }
      if op == Extend { appliedTimeout := outcome.granted; }
      assert Next(s2, Set(0)) == Machine();
      RunOneMore(s0, steps, Set(0));
      steps := steps + [Set(0)];
    }
  }

  lemma {:induction false} RunOneMore(s: State, steps: seq<Step>, step: Step)
    requires Run(s, steps).Some? && Possible(Run(s, steps).value, step)
    ensures Run(s, steps + [step]) == Some(Next(Run(s, steps).value, step))
    decreases |steps|
  {
    if steps == [] {
      assert (steps + [step])[1..] == [];
      assert Run(s, steps + [step]) == Run(Next(s, step), []);
    } else {
      assert (steps + [step])[1..] == steps[1..] + [step];
      RunOneMore(Next(s, steps[0]), steps[1..], step);
    }
  }
}
