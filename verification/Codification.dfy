/** Codification fan-out: one task per qualifying change and codifier, results mapped back by division. */
module Codification {
  import opened Prelude

  datatype Rep = Rep(kind: string, content: string)

  datatype Goal = Goal(goal: string, appliesTo: seq<string>, tier: int, action: string)

  /** details stands for the fields codification only passes through. */
  datatype Change = Change(action: string, goal: string, appliesTo: seq<string>, tier: int, details: string,
                           representations: seq<Rep>)

  datatype Task = Task(target: string, goal: Goal)

  /** What reading one child's result gives. */
  datatype Answer = NoHandle | NoResult | Unreadable | Malformed | Result(rep: Rep)

  predicate NeedsCodification(c: Change) {
    c.action == "create" || c.action == "update" || c.action == "demote"
  }

  function GoalOf(c: Change): Goal { Goal(c.goal, c.appliesTo, c.tier, c.action) }

  /** Indices of the changes to codify, in order. */
  function Qualifying(cs: seq<Change>): (q: seq<nat>)
    ensures forall j :: 0 <= j < |q| ==> q[j] < |cs| && NeedsCodification(cs[q[j]])
    ensures forall i, j :: 0 <= i < j < |q| ==> q[i] < q[j]
    ensures forall c :: 0 <= c < |cs| && NeedsCodification(cs[c]) ==> c in q
  {
    if cs == [] then []
    else
      var n := |cs| - 1;
      var q := Qualifying(cs[..n]);
      assert forall c :: 0 <= c < n ==> cs[..n][c] == cs[c];
      if NeedsCodification(cs[n]) then q + [n] else q
  }

  method PartitionChanges(changes: array<Change>) returns (qualifying: seq<nat>)
    ensures qualifying == Qualifying(changes[..])
    ensures forall c: nat :: c in qualifying <==> c < changes.Length && changes[c].action in {"create", "update", "demote"}
  {
    qualifying := [];
    for i := 0 to changes.Length
      invariant qualifying == Qualifying(changes[..i])
    {
      assert changes[..i + 1][..i] == changes[..i];
      if NeedsCodification(changes[i]) {
        qualifying := qualifying + [i];
      }
    }
    assert changes[..changes.Length] == changes[..];
  }

  lemma DivideStep(base: nat, n: nat, j: nat)
    requires j < n
    ensures (base * n + j) / n == base && (base * n + j) % n == j
  {
    var x := base * n + j;
    assert x == n * (x / n) + x % n;
    Quotient(n, x / n, x % n, base, j);
  }

  lemma Quotient(n: nat, q: int, r: int, base: int, j: int)
    requires 0 <= r < n && 0 <= j < n && n * q + r == base * n + j
    ensures q == base && r == j
  {
    assert n * (q - base) == j - r;
    MultipleBounds(n, q - base);
  }

  /** Task i asks codifier i % n for the goal of qualifying change i / n. */
  ghost predicate TasksFor(cs: seq<Change>, qualifying: seq<nat>, codifiers: seq<string>, tasks: seq<Task>)
    requires codifiers != [] && forall j :: 0 <= j < |qualifying| ==> qualifying[j] < |cs|
  {
    && |tasks| == |qualifying| * |codifiers|
    && forall i :: 0 <= i < |tasks| ==> TaskAt(cs, qualifying, codifiers, tasks, i)
  }

  ghost predicate TaskAt(cs: seq<Change>, qualifying: seq<nat>, codifiers: seq<string>, tasks: seq<Task>, i: nat)
    requires codifiers != [] && i < |tasks| && forall j :: 0 <= j < |qualifying| ==> qualifying[j] < |cs|
  {
    i / |codifiers| < |qualifying|
    && tasks[i] == Task(codifiers[i % |codifiers|], GoalOf(cs[qualifying[i / |codifiers|]]))
  }

  method BuildFanOutTasks(cs: seq<Change>, qualifying: seq<nat>, codifiers: seq<string>) returns (tasks: seq<Task>)
    requires codifiers != [] && forall j :: 0 <= j < |qualifying| ==> qualifying[j] < |cs|
    ensures TasksFor(cs, qualifying, codifiers, tasks)
  {
    tasks := [];
    var n := |codifiers|;
    for k := 0 to |qualifying|
      invariant |tasks| == k * n
      invariant forall i :: 0 <= i < |tasks| ==> TaskAt(cs, qualifying, codifiers, tasks, i)
    {
      var goal := GoalOf(cs[qualifying[k]]);
      for j := 0 to n
        invariant |tasks| == k * n + j
        invariant forall i :: 0 <= i < |tasks| ==> TaskAt(cs, qualifying, codifiers, tasks, i)
      {
        DivideStep(k, n, j);
        ghost var before := tasks;
        tasks := tasks + [Task(codifiers[j], goal)];
        forall i | 0 <= i < |tasks| ensures TaskAt(cs, qualifying, codifiers, tasks, i) {
          if i < |before| { assert TaskAt(cs, qualifying, codifiers, before, i); }
        }
      }
      assert (k + 1) * n == k * n + n;
    }
  }

  // ----------------------------------------------------------------- mapping back

  function AddRep(c: Change, rep: Rep): Change { c.(representations := c.representations + [rep]) }

  /** The changes after the first answers have been mapped back. */
  function Attach(cs: seq<Change>, qualifying: seq<nat>, n: nat, answers: seq<Answer>): (r: seq<Change>)
    requires n > 0 && forall j :: 0 <= j < |qualifying| ==> qualifying[j] < |cs|
    ensures |r| == |cs|
  {
    if answers == [] then cs
    else
      var i := |answers| - 1;
      var before := Attach(cs, qualifying, n, answers[..i]);
      if answers[i].Result? && i / n < |qualifying| then
        before[qualifying[i / n] := AddRep(before[qualifying[i / n]], answers[i].rep)]
      else before
  }

  lemma AttachStep(cs: seq<Change>, qualifying: seq<nat>, n: nat, answers: seq<Answer>, i: nat)
    requires n > 0 && (forall j :: 0 <= j < |qualifying| ==> qualifying[j] < |cs|) && i < |answers|
    ensures var before := Attach(cs, qualifying, n, answers[..i]);
            Attach(cs, qualifying, n, answers[..i + 1])
            == if answers[i].Result? && i / n < |qualifying| then
                 before[qualifying[i / n] := AddRep(before[qualifying[i / n]], answers[i].rep)]
               else before
  {
    assert answers[..i + 1][..i] == answers[..i];
  }

  /** An answer the loop cannot use ends it with an error. */
  predicate Fatal(answers: seq<Answer>, i: nat, n: nat, changes: nat)
    requires n > 0 && i < |answers|
  {
    answers[i].Unreadable? || answers[i].Malformed? || (answers[i].Result? && i / n >= changes)
  }

  /** Steps 7 and 8: append each result to its change in place; the petition is stored only if all went well. */
  method MapBack(changes: array<Change>, qualifying: seq<nat>, n: nat, answers: seq<Answer>) returns (ok: bool)
    requires n > 0 && forall j :: 0 <= j < |qualifying| ==> qualifying[j] < changes.Length
    modifies changes
    ensures ok <==> forall i :: 0 <= i < |answers| ==> !Fatal(answers, i, n, |qualifying|)
    ensures ok ==> changes[..] == Attach(old(changes[..]), qualifying, n, answers)
  {
    for i := 0 to |answers|
      invariant changes[..] == Attach(old(changes[..]), qualifying, n, answers[..i])
      invariant forall k :: 0 <= k < i ==> !Fatal(answers, k, n, |qualifying|)
    {
      AttachStep(old(changes[..]), qualifying, n, answers, i);
      match answers[i] {
        case NoHandle =>
        case NoResult =>
        case Unreadable => assert Fatal(answers, i, n, |qualifying|); return false;
        case Malformed => assert Fatal(answers, i, n, |qualifying|); return false;
        case Result(rep) =>
          var changeIdx := i / n;
          if changeIdx >= |qualifying| { assert Fatal(answers, i, n, |qualifying|); return false; }
          changes[qualifying[changeIdx]] := AddRep(changes[qualifying[changeIdx]], rep);
      }
    }
    assert answers[..|answers|] == answers;
    return true;
  }

  /** How a call to another service ends; one whose answer is lost took effect but looks failed. */
  datatype Reply = Answered | Lost | Failed

  /** Reading the petition, creating the children, waiting for them, storing the petition, routing. */
  datatype Services = Services(read: Reply, fanOut: Reply, await: Reply, store: Reply, route: Reply)

  /**
   * The node: stored is the petition its store left behind, if it got there; tasks are the children asked
   * for; ok says that it ends without an error. answers are the children's, in listing order.
   */
  method HandleCodification(changes: array<Change>, codifiers: seq<string>, answers: seq<Answer>, services: Services)
    returns (stored: Option<seq<Change>>, tasks: seq<Task>, routed: bool, ok: bool)
    modifies changes
    ensures var before := old(changes[..]);
            var q := Qualifying(before);
            if services.read != Answered then tasks == [] && stored == None
            else if q == [] || codifiers == [] then
              tasks == [] && stored == if services.store != Failed then Some(before) else None
            else
              && TasksFor(before, q, codifiers, tasks)
              && (stored.Some? <==> services.fanOut == Answered && services.await == Answered && services.store != Failed
                                    && forall i :: 0 <= i < |answers| ==> !Fatal(answers, i, |codifiers|, |q|))
              && (stored.Some? ==> stored.value == Attach(before, q, |codifiers|, answers))
    ensures routed <==> stored.Some? && services.store == Answered && services.route != Failed
    ensures ok <==> routed && services.route == Answered
  {
    if services.read != Answered { return None, [], false, false; }
    var qualifying := PartitionChanges(changes);
    if |qualifying| == 0 || |codifiers| == 0 {
      stored, routed, ok := StoreAndRoute(changes, services);
      return stored, [], routed, ok;
    }
    tasks := BuildFanOutTasks(changes[..], qualifying, codifiers);
    if services.fanOut != Answered || services.await != Answered { return None, tasks, false, false; }
    ok := MapBack(changes, qualifying, |codifiers|, answers);
    if !ok { return None, tasks, false, false; }
    stored, routed, ok := StoreAndRoute(changes, services);
  }

  method StoreAndRoute(changes: array<Change>, services: Services) returns (stored: Option<seq<Change>>, routed: bool, ok: bool)
    ensures stored == if services.store != Failed then Some(changes[..]) else None
    ensures routed <==> services.store == Answered && services.route != Failed
    ensures ok <==> routed && services.route == Answered
  {
    stored := if services.store != Failed then Some(changes[..]) else None;
    if services.store != Answered { return stored, false, false; }
    return stored, services.route != Failed, services.route == Answered;
  }
}

module CodificationTheorems {
  import opened Codification

  /** The results among the answers, in order. */
  function Results(answers: seq<Answer>): seq<Rep> {
    if answers == [] then []
    else
      var last := answers[|answers| - 1];
      Results(answers[..|answers| - 1]) + if last.Result? then [last.rep] else []
  }

  /** The results whose position maps to change c. */
  function RepsFor(qualifying: seq<nat>, n: nat, answers: seq<Answer>, c: nat): seq<Rep>
    requires n > 0
  {
    if answers == [] then []
    else
      var i := |answers| - 1;
      RepsFor(qualifying, n, answers[..i], c)
      + if answers[i].Result? && i / n < |qualifying| && qualifying[i / n] == c then [answers[i].rep] else []
  }

  /** Mapping back appends to each change exactly the results that map to it, and touches nothing else of it. */
  lemma {:induction false} AttachPerChange(cs: seq<Change>, qualifying: seq<nat>, n: nat, answers: seq<Answer>, c: nat)
    requires n > 0 && c < |cs| && forall j :: 0 <= j < |qualifying| ==> qualifying[j] < |cs|
    ensures Attach(cs, qualifying, n, answers)[c]
         == cs[c].(representations := cs[c].representations + RepsFor(qualifying, n, answers, c))
  {
    if answers == [] {
      assert cs[c].representations + [] == cs[c].representations;
    } else {
      var i := |answers| - 1;
      AttachPerChange(cs, qualifying, n, answers[..i], c);
      var before := RepsFor(qualifying, n, answers[..i], c);
      if answers[i].Result? && i / n < |qualifying| && qualifying[i / n] == c {
        assert cs[c].representations + (before + [answers[i].rep]) == (cs[c].representations + before) + [answers[i].rep];
      } else {
        assert before + [] == before;
      }
    }
  }

  function Min(a: int, b: int): int { if a < b then a else b }

  /** The results among answers lo to hi, as far as there are that many. */
  function Picked(answers: seq<Answer>, lo: nat, hi: nat): seq<Rep>
    requires lo <= hi
  {
    Results(answers[Min(lo, |answers|)..Min(hi, |answers|)])
  }

  lemma PickedStep(answers: seq<Answer>, lo: nat, hi: nat)
    requires lo <= hi && answers != []
    ensures var i := |answers| - 1;
            Picked(answers, lo, hi)
            == Picked(answers[..i], lo, hi) + if lo <= i < hi && answers[i].Result? then [answers[i].rep] else []
  {
    var i := |answers| - 1;
    var init := answers[..i];
    if lo <= i < hi {
      var slice := answers[lo..i + 1];
      assert slice[..|slice| - 1] == init[lo..i];
    } else {
      var from, to := Min(lo, i), Min(hi, i);
      assert from == to || (from == Min(lo, i + 1) && to == Min(hi, i + 1));
      assert answers[Min(lo, i + 1)..Min(hi, i + 1)] == init[from..to];
      assert Picked(init, lo, hi) + [] == Picked(init, lo, hi);
    }
  }

  predicate InBlock(i: nat, n: nat, k: nat)
    requires n > 0
  {
    i / n == k
  }

  lemma RepsForStep(qualifying: seq<nat>, n: nat, answers: seq<Answer>, k: nat)
    requires n > 0 && k < |qualifying| && answers != []
    requires forall i, j :: 0 <= i < j < |qualifying| ==> qualifying[i] < qualifying[j]
    ensures var i := |answers| - 1;
            RepsFor(qualifying, n, answers, qualifying[k])
            == RepsFor(qualifying, n, answers[..i], qualifying[k])
               + if InBlock(i, n, k) && answers[i].Result? then [answers[i].rep] else []
  {
    var j := (|answers| - 1) / n;
    assert j < |qualifying| && qualifying[j] == qualifying[k] ==> j == k;
  }

  /** The results mapping to qualifying change k are those of its own block of n answers, in order. */
  lemma {:induction false} RepsAreTheBlock(qualifying: seq<nat>, n: nat, answers: seq<Answer>, k: nat, lo: nat)
    requires n > 0 && k < |qualifying|
    requires forall i :: 0 <= i < |answers| ==> (InBlock(i, n, k) <==> lo <= i < lo + n)
    requires forall i, j :: 0 <= i < j < |qualifying| ==> qualifying[i] < qualifying[j]
    ensures RepsFor(qualifying, n, answers, qualifying[k]) == Picked(answers, lo, lo + n)
  {
    if answers != [] {
      var i := |answers| - 1;
      RepsAreTheBlock(qualifying, n, answers[..i], k, lo);
      PickedStep(answers, lo, lo + n);
      RepsForStep(qualifying, n, answers, k);
    }
  }

  lemma BlockOf(i: nat, n: nat, k: nat)
    requires n > 0
    ensures InBlock(i, n, k) <==> k * n <= i < k * n + n
  {
    var j := i - k * n;
    if 0 <= j < n {
      DivideStep(k, n, j);
    }
    if i / n == k {
      assert i == n * (i / n) + i % n;
    }
  }

  lemma {:induction false} UntouchedChange(qualifying: seq<nat>, n: nat, answers: seq<Answer>, c: nat)
    requires n > 0 && c !in qualifying
    ensures RepsFor(qualifying, n, answers, c) == []
  {
    if answers != [] {
      UntouchedChange(qualifying, n, answers[..|answers| - 1], c);
    }
  }

  /** Tasks lo to lo + n carry the goal of change c, one per codifier. */
  ghost predicate TasksOf(tasks: seq<Task>, codifiers: seq<string>, lo: nat, c: Change) {
    && lo + |codifiers| <= |tasks|
    && forall j :: 0 <= j < |codifiers| ==> tasks[lo + j] == Task(codifiers[j], Goal(c.goal, c.appliesTo, c.tier, c.action))
  }

  /** The tasks of block k, starting at k * n, are the ones that ask for the goal of qualifying change k. */
  lemma TasksOfBlock(cs: seq<Change>, q: seq<nat>, codifiers: seq<string>, tasks: seq<Task>, k: nat, lo: nat)
    requires codifiers != [] && lo == k * |codifiers| && (forall j :: 0 <= j < |q| ==> q[j] < |cs|) && k < |q|
    requires TasksFor(cs, q, codifiers, tasks)
    ensures TasksOf(tasks, codifiers, lo, cs[q[k]])
  {
    BlockFits(k, |q|, |codifiers|);
    forall j | 0 <= j < |codifiers| ensures tasks[lo + j] == Task(codifiers[j], GoalOf(cs[q[k]])) {
      assert TaskAt(cs, q, codifiers, tasks, lo + j);
      DivideStep(k, |codifiers|, j);
    }
  }

  /**
   * Qualifying change k gains exactly the results at the positions of its own block of tasks, in order:
   * with the answers in task order, the results of the tasks that carried its goal.
   */
  lemma ResultsReachTheirChange(cs: seq<Change>, n: nat, answers: seq<Answer>, k: nat, lo: nat)
    requires n > 0 && k < |Qualifying(cs)| && lo == k * n && lo + n <= |answers|
    ensures var c := Qualifying(cs)[k];
            Attach(cs, Qualifying(cs), n, answers)[c]
            == cs[c].(representations := cs[c].representations + Results(answers[lo..lo + n]))
  {
    BlockReps(Qualifying(cs), n, answers, k, lo);
    AttachPerChange(cs, Qualifying(cs), n, answers, Qualifying(cs)[k]);
  }

  lemma BlockReps(q: seq<nat>, n: nat, answers: seq<Answer>, k: nat, lo: nat)
    requires n > 0 && k < |q| && lo == k * n && lo + n <= |answers|
    requires forall i, j :: 0 <= i < j < |q| ==> q[i] < q[j]
    ensures RepsFor(q, n, answers, q[k]) == Results(answers[lo..lo + n])
  {
    forall i | 0 <= i < |answers| ensures InBlock(i, n, k) <==> lo <= i < lo + n {
      BlockOf(i, n, k);
    }
    RepsAreTheBlock(q, n, answers, k, lo);
  }

  /** A change that needs no codification is left exactly as it was, whatever the answers. */
  lemma OtherChangesUntouched(cs: seq<Change>, n: nat, answers: seq<Answer>, c: nat)
    requires n > 0 && c < |cs| && cs[c].action !in {"create", "update", "demote"}
    ensures Attach(cs, Qualifying(cs), n, answers)[c] == cs[c]
  {
    AttachPerChange(cs, Qualifying(cs), n, answers, c);
    UntouchedChange(Qualifying(cs), n, answers, c);
    assert cs[c].representations + [] == cs[c].representations;
  }

  /** No answer of this fan-out maps out of range. */
  lemma IndexInRange(cs: seq<Change>, codifiers: seq<string>, tasks: seq<Task>, answers: seq<Answer>, i: nat)
    requires codifiers != [] && TasksFor(cs, Qualifying(cs), codifiers, tasks) && i < |answers| <= |tasks|
    ensures i / |codifiers| < |Qualifying(cs)|
    ensures Fatal(answers, i, |codifiers|, |Qualifying(cs)|) <==> answers[i].Unreadable? || answers[i].Malformed?
  {
    assert TaskAt(cs, Qualifying(cs), codifiers, tasks, i);
  }

  lemma BlockFits(k: nat, changes: nat, n: nat)
    requires k < changes
    ensures k * n + n <= changes * n
  {
    assert (k + 1) * n <= changes * n;
  }

  ghost function TotalReps(cs: seq<Change>): nat {
    if cs == [] then 0 else TotalReps(cs[..|cs| - 1]) + |cs[|cs| - 1].representations|
  }

  lemma {:induction false} TotalAfterUpdate(cs: seq<Change>, c: nat, rep: Rep)
    requires c < |cs|
    ensures TotalReps(cs[c := AddRep(cs[c], rep)]) == TotalReps(cs) + 1
  {
    var n := |cs| - 1;
    if c < n {
      TotalAfterUpdate(cs[..n], c, rep);
      assert cs[c := AddRep(cs[c], rep)][..n] == cs[..n][c := AddRep(cs[c], rep)];
    } else {
      assert cs[c := AddRep(cs[c], rep)][..n] == cs[..n];
    }
  }

  /** Conservation: a run without fatal answers adds exactly as many representations as it read results. */
  lemma {:induction false} RepsAddedAreResultsRead(cs: seq<Change>, qualifying: seq<nat>, n: nat, answers: seq<Answer>)
    requires n > 0 && forall j :: 0 <= j < |qualifying| ==> qualifying[j] < |cs|
    requires forall i :: 0 <= i < |answers| ==> !Fatal(answers, i, n, |qualifying|)
    ensures TotalReps(Attach(cs, qualifying, n, answers)) == TotalReps(cs) + |Results(answers)|
  {
    if answers != [] {
      var i := |answers| - 1;
      forall k | 0 <= k < i ensures !Fatal(answers[..i], k, n, |qualifying|) {
        assert !Fatal(answers, k, n, |qualifying|);
      }
      RepsAddedAreResultsRead(cs, qualifying, n, answers[..i]);
      assert !Fatal(answers, i, n, |qualifying|);
      if answers[i].Result? {
        TotalAfterUpdate(Attach(cs, qualifying, n, answers[..i]), qualifying[i / n], answers[i].rep);
      }
    }
  }

  /** The qualifying change position i maps to. */
  function BlockIndex(i: nat, n: nat): nat
    requires n > 0
  {
    i / n
  }

  /** The result at position i lands on a change whose goal is the one the child listed there worked on. */
  ghost predicate RightlyPlaced(cs: seq<Change>, q: seq<nat>, n: nat, ran: Task, i: nat)
    requires n > 0 && forall j :: 0 <= j < |q| ==> q[j] < |cs|
  {
    BlockIndex(i, n) < |q| && GoalOf(cs[q[BlockIndex(i, n)]]) == ran.goal
  }

  lemma PositionInRangeIff(i: nat, n: nat, m: nat)
    requires n > 0
    ensures BlockIndex(i, n) < m <==> i < m * n
  {
    var k := BlockIndex(i, n);
    BlockOf(i, n, k);
    if k < m { BlockFits(k, m, n); } else if m < k { BlockFits(m, k, n); }
  }

  /**
   * The Operator lists children in no promised order, those of earlier fan-outs among them. Whatever task
   * the child listed at position i ran, of whichever fan-out, its result lands on a change with that task's
   * goal exactly when i is a position of this fan-out and its task there has the same goal.
   */
  lemma AttributionIsRightIff(cs: seq<Change>, q: seq<nat>, codifiers: seq<string>, tasks: seq<Task>, ran: Task, i: nat)
    requires codifiers != [] && (forall j :: 0 <= j < |q| ==> q[j] < |cs|) && TasksFor(cs, q, codifiers, tasks)
    ensures RightlyPlaced(cs, q, |codifiers|, ran, i) <==> i < |tasks| && ran.goal == tasks[i].goal
  {
    PositionInRangeIff(i, |codifiers|, |q|);
    if i < |tasks| { assert TaskAt(cs, q, codifiers, tasks, i); }
  }

  /** The positions of the listing whose results are attached to change c, in the order attached. */
  ghost function Origins(q: seq<nat>, n: nat, answers: seq<Answer>, c: nat): seq<nat>
    requires n > 0
  {
    if answers == [] then []
    else
      var i := |answers| - 1;
      Origins(q, n, answers[..i], c) + if answers[i].Result? && i / n < |q| && q[i / n] == c then [i] else []
  }

  /** They are what mapping back appends to the change. */
  lemma {:induction false} OriginsAreAttached(q: seq<nat>, n: nat, answers: seq<Answer>, c: nat)
    requires n > 0
    ensures |Origins(q, n, answers, c)| == |RepsFor(q, n, answers, c)|
    ensures forall k :: 0 <= k < |Origins(q, n, answers, c)| ==>
              var i := Origins(q, n, answers, c)[k];
              i < |answers| && answers[i] == Result(RepsFor(q, n, answers, c)[k])
  {
    if answers != [] {
      OriginsAreAttached(q, n, answers[..|answers| - 1], c);
    }
  }

  lemma {:induction false} OriginsMeaning(q: seq<nat>, n: nat, answers: seq<Answer>, c: nat, i: nat)
    requires n > 0
    ensures i in Origins(q, n, answers, c) <==> i < |answers| && answers[i].Result? && i / n < |q| && q[i / n] == c
  {
    if answers != [] {
      OriginsMeaning(q, n, answers[..|answers| - 1], c, i);
    }
  }

  /** Every representation attached to a change came from a child that worked on the change's goal. */
  ghost predicate AttachedAreAnswers(cs: seq<Change>, q: seq<nat>, n: nat, answers: seq<Answer>, ran: seq<Task>)
    requires n > 0 && |ran| == |answers|
  {
    forall c, i :: 0 <= c < |cs| && i in Origins(q, n, answers, c) && i < |ran| ==>
      ran[i].goal == Goal(cs[c].goal, cs[c].appliesTo, cs[c].tier, cs[c].action)
  }

  /**
   * At the node: when the answers let it store the petition, each representation it attached answers the
   * goal of its change exactly when every listed child with a result ran a task with the goal of this
   * fan-out's task at its position. A child with a result listed past the tasks stops the node instead.
   */
  lemma StoredAnswersIff(cs: seq<Change>, codifiers: seq<string>, tasks: seq<Task>, answers: seq<Answer>, ran: seq<Task>)
    requires codifiers != [] && TasksFor(cs, Qualifying(cs), codifiers, tasks) && |ran| == |answers|
    requires forall i :: 0 <= i < |answers| ==> !Fatal(answers, i, |codifiers|, |Qualifying(cs)|)
    ensures forall i :: 0 <= i < |answers| && answers[i].Result? ==> i < |tasks|
    ensures AttachedAreAnswers(cs, Qualifying(cs), |codifiers|, answers, ran)
       <==> forall i :: 0 <= i < |answers| && answers[i].Result? ==> ran[i].goal == tasks[i].goal
  {
    var q, n := Qualifying(cs), |codifiers|;
    forall i | 0 <= i < |answers| && answers[i].Result?
      ensures i < |tasks| && BlockIndex(i, n) < |q| && i in Origins(q, n, answers, q[BlockIndex(i, n)])
      ensures tasks[i].goal == GoalOf(cs[q[BlockIndex(i, n)]])
    {
      assert !Fatal(answers, i, n, |q|);
      PositionInRangeIff(i, n, |q|);
      assert TaskAt(cs, q, codifiers, tasks, i);
      OriginsMeaning(q, n, answers, q[BlockIndex(i, n)], i);
    }
    forall c, i | 0 <= c < |cs| && i in Origins(q, n, answers, c)
      ensures i < |answers| && answers[i].Result? && BlockIndex(i, n) < |q| && q[BlockIndex(i, n)] == c
    {
      OriginsMeaning(q, n, answers, c, i);
    }
  }

  /** An answer stops the node exactly when it cannot be read, or is a result listed past this fan-out's tasks. */
  lemma FatalIff(cs: seq<Change>, codifiers: seq<string>, tasks: seq<Task>, answers: seq<Answer>, i: nat)
    requires codifiers != [] && TasksFor(cs, Qualifying(cs), codifiers, tasks) && i < |answers|
    ensures Fatal(answers, i, |codifiers|, |Qualifying(cs)|)
       <==> answers[i].Unreadable? || answers[i].Malformed? || (answers[i].Result? && i >= |tasks|)
  {
    PositionInRangeIff(i, |codifiers|, |Qualifying(cs)|);
  }

  /**
   * Nothing need stop it: with one change and one codifier, the result of an earlier child listed first is
   * attached to the change, whatever goal it answered, while the child that was asked has none yet.
   */
  lemma EarlierChildAnswersSilently(c: Change, codifier: string, rep: Rep, asked: seq<Task>, earlier: Task)
    requires NeedsCodification(c) && TasksFor([c], Qualifying([c]), [codifier], asked) && earlier.goal != GoalOf(c)
    ensures var answers := [Result(rep), NoResult];
            && (forall i :: 0 <= i < |answers| ==> !Fatal(answers, i, 1, |Qualifying([c])|))
            && Attach([c], Qualifying([c]), 1, answers) == [AddRep(c, rep)]
            && !AttachedAreAnswers([c], Qualifying([c]), 1, answers, [earlier, asked[0]])
  {
    var cs, answers := [c], [Result(rep), NoResult];
    assert cs[..0] == [] && Qualifying([]) == [];
    assert Qualifying(cs) == [0];
    assert answers[..1] == [Result(rep)] && answers[..1][..0] == [];
    assert Attach(cs, [0], 1, answers[..1]) == cs[0 := AddRep(c, rep)];
    OriginsMeaning([0], 1, answers, 0, 0);
    assert [earlier, asked[0]][0] == earlier;
  }
}
