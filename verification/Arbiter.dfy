/** The human arbiter resolving deadlocks (nodes/hitl-arbiter/main.go). */
module Arbiter {
  import opened Prelude
  import opened Feedback
  import opened Sort
  import opened Workitem

  const ARTEFACT_HAIKU := "haiku"
  const ARTEFACT_PETITION := "petition"
  const STAMP_ARBITRATED := "arbitrated"
  const SOURCE_LAW := "hitl-arbiter"

  datatype Choice = Accept | Reject | CancelWork

  function OutputOf(c: Choice): string { if c.Accept? then "accept" else "reject" }

  function RulingState(c: Choice): State { if c.Accept? then WontFix else Rejected }

  function Ruling(c: Choice): Move { LinkRuling(SOURCE_LAW, RulingState(c)) }

  /** Without deadlocks the arbiter accepts on its own; otherwise the human's choice decides. */
  function Decision(choice: Choice, stuck: bool): Action {
    if !stuck then Route("accept")
    else match choice
      case Accept => Route("accept")
      case Reject => Route("reject")
      case CancelWork => Cancel
  }

  predicate Stuck(items: map<string, Item>, id: string) {
    id in items && items[id].kind == ARTEFACT_HAIKU && items[id].state == Deadlocked
  }

  /** Exactly the listed items have moved, by m. */
  ghost predicate Ruled(before: map<string, Item>, after: map<string, Item>, ids: seq<string>, m: Move) {
    && after.Keys == before.Keys
    && forall id :: id in before ==> after[id] == if id in ids then Apply(before[id], m) else before[id]
  }

  /** Only deadlocked haiku items move, and only by m. */
  ghost predicate Touched(before: map<string, Item>, after: map<string, Item>, m: Move) {
    && after.Keys == before.Keys
    && forall id :: id in before ==> after[id] == before[id] || (Stuck(before, id) && after[id] == Apply(before[id], m))
  }

  /** Every deadlocked haiku item carries the arbiter's ruling and the given state; nothing else moved. */
  ghost predicate AllRuled(before: map<string, Item>, after: map<string, Item>, state: State) {
    && after.Keys == before.Keys
    && forall id :: id in before ==>
         if before[id].kind == "haiku" && before[id].state == Deadlocked
         then after[id] == before[id].(state := state, ruling := "hitl-arbiter", depth := before[id].depth + 1)
         else after[id] == before[id]
  }

  ghost predicate Unruled(items: map<string, Item>, ids: seq<string>) {
    forall i :: 0 <= i < |ids| && ids[i] in items ==> items[ids[i]].ruling == ""
  }

  /** The loop over the deadlocked items; stops at the first failure. */
  method LinkRulings(w: Workitem, deadlocked: seq<string>, choice: Choice) returns (ok: bool)
    requires !choice.CancelWork?
    requires forall i :: 0 <= i < |deadlocked| ==> Stuck(w.items, deadlocked[i])
    requires forall i, j :: 0 <= i < j < |deadlocked| ==> deadlocked[i] != deadlocked[j]
    modifies w`faults, w`items
    ensures w.faults >= old(w.faults)
    ensures Touched(old(w.items), w.items, Ruling(choice))
    ensures ok ==> w.faults == old(w.faults) && Ruled(old(w.items), w.items, deadlocked, Ruling(choice))
                   && Unruled(old(w.items), deadlocked)
    ensures !ok && w.faults == old(w.faults) ==> !Unruled(old(w.items), deadlocked)
  {
    for i := 0 to |deadlocked|
      invariant w.faults == old(w.faults)
      invariant Ruled(old(w.items), w.items, deadlocked[..i], Ruling(choice))
      invariant Unruled(old(w.items), deadlocked[..i])
    {
      var id := deadlocked[i];
      assert id !in deadlocked[..i] && Stuck(old(w.items), id);
      assert deadlocked[..i + 1] == deadlocked[..i] + [id];
      ok := w.Transition(id, Ruling(choice));
      if !ok { return; }
    }
    assert deadlocked[..|deadlocked|] == deadlocked;
    return true;
  }

  /** Links the ruling to every deadlocked item, stamps and routes. */
  method LinkRulingsAndRoute(w: Workitem, deadlocked: seq<string>, choice: Choice) returns (ok: bool)
    requires !choice.CancelWork? && ARTEFACT_HAIKU in w.head
    requires forall i :: 0 <= i < |deadlocked| ==> Stuck(w.items, deadlocked[i])
    requires forall i, j :: 0 <= i < j < |deadlocked| ==> deadlocked[i] != deadlocked[j]
    modifies w`faults, w`items, w`stamps, w`submitted
    ensures w.faults >= old(w.faults)
    ensures Touched(old(w.items), w.items, Ruling(choice))
    ensures ok ==>
              && Ruled(old(w.items), w.items, deadlocked, Ruling(choice)) && Unruled(old(w.items), deadlocked)
              && w.stamps == old(w.stamps) + {Row(ARTEFACT_HAIKU, w.head[ARTEFACT_HAIKU], STAMP_ARBITRATED)}
              && w.submitted == old(w.submitted) + [Decision(choice, true)]
    ensures !ok ==> w.submitted == old(w.submitted) || w.submitted == old(w.submitted) + [Decision(choice, true)]
    ensures !ok && w.faults == old(w.faults) ==> !Unruled(old(w.items), deadlocked)
  {
    ok := LinkRulings(w, deadlocked, choice);
    if !ok { return; }
    ok := w.Stamp(ARTEFACT_HAIKU, STAMP_ARBITRATED);
    if !ok { return; }
    ok := w.Submit(Route(OutputOf(choice)));
  }

  /** The filter loop: the deadlocked items among the haiku's. */
  method DeadlockedAmong(w: Workitem, ids: seq<string>) returns (deadlocked: seq<string>)
    requires forall id :: id in ids ==> id in w.items
    requires forall i, j :: 0 <= i < j < |ids| ==> ids[i] != ids[j]
    ensures forall id :: id in deadlocked <==> id in ids && w.items[id].state == Deadlocked
    ensures forall i, j :: 0 <= i < j < |deadlocked| ==> deadlocked[i] != deadlocked[j]
  {
    deadlocked := [];
    for i := 0 to |ids|
      invariant forall id :: id in deadlocked <==> id in ids[..i] && w.items[id].state == Deadlocked
      invariant forall a, b :: 0 <= a < b < |deadlocked| ==> deadlocked[a] != deadlocked[b]
    {
      assert ids[i] !in ids[..i];
      if w.items[ids[i]].state == Deadlocked {
        deadlocked := deadlocked + [ids[i]];
      }
    }
    assert ids[..|ids|] == ids;
  }

  /** What follows the reads: degrade, cancel, or rule. */
  method Dispatch(w: Workitem, deadlocked: seq<string>, choice: Choice) returns (ok: bool)
    requires ARTEFACT_HAIKU in w.head && forall id :: id in deadlocked <==> Stuck(w.items, id)
    requires forall i, j :: 0 <= i < j < |deadlocked| ==> deadlocked[i] != deadlocked[j]
    modifies w`faults, w`items, w`stamps, w`submitted
    ensures w.faults >= old(w.faults)
    ensures w.submitted == old(w.submitted) + [Decision(choice, deadlocked != [])] || (!ok && w.submitted == old(w.submitted))
    ensures Touched(old(w.items), w.items, Ruling(choice))
    ensures choice.CancelWork? ==> w.items == old(w.items)
    ensures ok && !choice.CancelWork? ==>
              Ruled(old(w.items), w.items, deadlocked, Ruling(choice)) && Unruled(old(w.items), deadlocked)
    ensures ok ==> w.stamps == old(w.stamps) + if choice.CancelWork? && deadlocked != [] then {}
                                               else {Row(ARTEFACT_HAIKU, w.head[ARTEFACT_HAIKU], STAMP_ARBITRATED)}
    ensures !ok && w.faults == old(w.faults) ==> !choice.CancelWork? && !Unruled(old(w.items), deadlocked)
  {
    if |deadlocked| == 0 {
      ok := w.Stamp(ARTEFACT_HAIKU, STAMP_ARBITRATED);
      if !ok { return false; }
      ok := w.Submit(Route("accept"));
      return;
    }
    if choice.CancelWork? {
      ok := w.Submit(Cancel);
    } else {
      assert forall i :: 0 <= i < |deadlocked| ==> deadlocked[i] in deadlocked;
      ok := LinkRulingsAndRoute(w, deadlocked, choice);
    }
  }

  /** Both artefacts and the haiku's feedback. */
  method ReadDeadlocked(w: Workitem) returns (r: Result<seq<string>>)
    modifies w`faults
    ensures r.Err? ==> w.faults >= old(w.faults) && (w.faults > old(w.faults) || ARTEFACT_HAIKU !in w.head || ARTEFACT_PETITION !in w.head)
    ensures r.Ok? ==> w.faults == old(w.faults) && ARTEFACT_HAIKU in w.head && ARTEFACT_PETITION in w.head
    ensures r.Ok? ==> forall id :: id in r.value <==> Stuck(w.items, id)
    ensures r.Ok? ==> forall i, j :: 0 <= i < j < |r.value| ==> r.value[i] != r.value[j]
  {
    var alive := w.Heartbeat();
    if !alive { return Err("heartbeat"); }
    var haiku := w.GetArtefact(ARTEFACT_HAIKU);
    if haiku.Err? { return Err("get haiku"); }
    var petition := w.GetArtefact(ARTEFACT_PETITION);
    if petition.Err? { return Err("get petition"); }
    var list := w.GetFeedback(ARTEFACT_HAIKU);
    if list.Err? { return Err("get feedback"); }
    var deadlocked := DeadlockedAmong(w, list.value);
    return Ok(deadlocked);
  }

  lemma SomeStuck(items: map<string, Item>, ids: seq<string>)
    requires forall id :: id in ids <==> Stuck(items, id)
    ensures (exists id :: Stuck(items, id)) <==> ids != []
  {
    if ids != [] { assert Stuck(items, ids[0]); }
  }

  lemma RuledIsAllRuled(before: map<string, Item>, after: map<string, Item>, ids: seq<string>, choice: Choice)
    requires !choice.CancelWork? && Ruled(before, after, ids, Ruling(choice)) && forall id :: id in ids <==> Stuck(before, id)
    ensures AllRuled(before, after, if choice.Accept? then WontFix else Rejected)
    ensures ids == [] ==> after == before
  {
  }

  /** choice is what the human decides while the workitem is parked; nothing else touches it meanwhile. */
  method HandleArbiter(w: Workitem, choice: Choice) returns (ok: bool)
    modifies w`faults, w`items, w`stamps, w`submitted
    ensures w.faults >= old(w.faults)
    // One submission on success, at most one on failure: a failed one may have arrived.
    ensures w.submitted == old(w.submitted) + [Decision(choice, exists id :: Stuck(old(w.items), id))]
            || (!ok && w.submitted == old(w.submitted))
    ensures ok ==> "haiku" in w.head && "petition" in w.head
    ensures Touched(old(w.items), w.items, Ruling(choice))
    ensures choice.CancelWork? ==> w.items == old(w.items)
    // Success rules on every deadlocked item, and the route tells how.
    ensures ok && (forall id :: !Stuck(old(w.items), id)) ==>
              w.items == old(w.items) && w.submitted == old(w.submitted) + [Route("accept")]
    ensures ok && (exists id :: Stuck(old(w.items), id)) ==>
              && (choice == Accept ==> w.submitted == old(w.submitted) + [Route("accept")]
                                       && AllRuled(old(w.items), w.items, WontFix))
              && (choice == Reject ==> w.submitted == old(w.submitted) + [Route("reject")]
                                       && AllRuled(old(w.items), w.items, Rejected))
              && (choice == CancelWork ==> w.submitted == old(w.submitted) + [Cancel])
    ensures ok ==> w.stamps == old(w.stamps) + if choice == CancelWork && exists id :: Stuck(old(w.items), id) then {}
                                               else {Row("haiku", w.head["haiku"], "arbitrated")}
    // With every RPC working, the ruling fails exactly when an artefact is missing or a deadlocked item has been ruled on before.
    ensures w.faults == old(w.faults) && !choice.CancelWork? ==>
              (ok <==> ARTEFACT_HAIKU in w.head && ARTEFACT_PETITION in w.head
                       && forall id :: Stuck(old(w.items), id) ==> old(w.items)[id].ruling == "")
  {
    var read := ReadDeadlocked(w);
    if read.Err? { return false; }
    var deadlocked := read.value;
    SomeStuck(w.items, deadlocked);
    ok := Dispatch(w, deadlocked, choice);
    if ok && !choice.CancelWork? {
      RuledIsAllRuled(old(w.items), w.items, deadlocked, choice);
    }
  }

  /**
   * What a ruling is for: the gate stops escalating the haiku's deadlocked items, whatever their depth.
   * An accepting ruling leaves a refusal to adjudicate, a rejecting one sends the item back to refinement.
   */
  lemma RulingUnblocks(g: Gate, before: Snapshot, after: Snapshot, choice: Choice)
    requires !choice.CancelWork? && after.items.Keys == before.items.Keys
    requires forall id :: Stuck(before.items, id) ==>
               before.items[id].ruling == "" && after.items[id] == Apply(before.items[id], Ruling(choice))
    requires Touched(before.items, after.items, Ruling(choice))
    ensures forall id :: !Stuck(after.items, id)
    ensures forall id :: Stuck(before.items, id) ==>
              && Enabled(before.items[id], Ruling(choice))
              && !Escalates(after.items[id], Threshold(g.deadlockThreshold))
              && (choice.Accept? ==> Addressed(after, ARTEFACT_HAIKU))
              && (choice.Reject? ==> Unaddressed(after, ARTEFACT_HAIKU, before.items[id].source))
  {
    forall id | Stuck(before.items, id)
      ensures choice.Accept? ==> Addressed(after, ARTEFACT_HAIKU)
      ensures choice.Reject? ==> Unaddressed(after, ARTEFACT_HAIKU, before.items[id].source)
    {
      assert About(after, ARTEFACT_HAIKU, id);
    }
  }
}
