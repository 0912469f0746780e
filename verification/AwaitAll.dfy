/** Waiting for child workitems: lossy events, polls and a counted terminal set (sdk/go/workitem_child.go). */
module AwaitAll {
  import opened Prelude

  datatype Status = Status(id: string, phase: string)

  const PHASE_COMPLETED := "Completed"
  const PHASE_FAILED := "Failed"

  predicate IsTerminalPhase(phase: string) { phase == PHASE_COMPLETED || phase == PHASE_FAILED }

  /** False for an empty list. */
  predicate AllTerminal(children: seq<Status>) {
    |children| > 0 && forall i :: 0 <= i < |children| ==> IsTerminalPhase(children[i].phase)
  }

  function TerminalIds(children: seq<Status>): set<string> {
    set i | 0 <= i < |children| && IsTerminalPhase(children[i].phase) :: children[i].id
  }

  /** What the select picks next, with the answer of the GetChildren call it may lead to. */
  datatype Tick =
    | PollTick(fetch: Result<seq<Status>>)
    | Event(id: string, phase: string, fetch: Result<seq<Status>>)
    | StreamClosed(fetch: Result<seq<Status>>)

  datatype Via = BySnapshot | ByPoll | ByCount | ByClose

  datatype Exit = Waiting | Failed | Done(children: seq<Status>, via: Via)

  function Fetched(fetch: Result<seq<Status>>, via: Via): Exit {
    if fetch.Ok? then Done(fetch.value, via) else Failed
  }

  function After(t: Tick): set<string> {
    if t.Event? && IsTerminalPhase(t.phase) then {t.id}
    else if t.PollTick? && t.fetch.Ok? then TerminalIds(t.fetch.value)
    else {}
  }

  /** The exit the tick causes, if any, given the ids counted so far. */
  function ExitAt(t: Tick, terminal: set<string>, total: nat): Option<Exit> {
    match t
    case PollTick(fetch) =>
      if fetch.Err? then Some(Failed) else if AllTerminal(fetch.value) then Some(Done(fetch.value, ByPoll)) else None
    case Event(_, _, fetch) => if |terminal + After(t)| >= total then Some(Fetched(fetch, ByCount)) else None
    case StreamClosed(fetch) => Some(Fetched(fetch, ByClose))
  }

  function Stream(terminal: set<string>, total: nat, ticks: seq<Tick>): Exit
    decreases |ticks|
  {
    if ticks == [] then Waiting
    else match ExitAt(ticks[0], terminal, total)
      case Some(exit) => exit
      case None => Stream(terminal + After(ticks[0]), total, ticks[1..])
  }

  function Streaming(snapshot: Result<seq<Status>>, ticks: seq<Tick>): Exit {
    if snapshot.Err? then Failed
    else if AllTerminal(snapshot.value) then Done(snapshot.value, BySnapshot)
    else Stream(TerminalIds(snapshot.value), |snapshot.value|, ticks)
  }

  function Polling(fetches: seq<Result<seq<Status>>>): Exit
    decreases |fetches|
  {
    if fetches == [] then Waiting
    else if fetches[0].Err? then Failed
    else if AllTerminal(fetches[0].value) then Done(fetches[0].value, ByPoll)
    else Polling(fetches[1..])
  }

  method AwaitStreaming(snapshot: Result<seq<Status>>, ticks: seq<Tick>) returns (exit: Exit)
    ensures exit == Streaming(snapshot, ticks)
    ensures snapshot.Err? ==> exit == Failed
    ensures snapshot.Ok? && Ended(snapshot.value) ==> exit == Done(snapshot.value, BySnapshot)
    ensures snapshot.Ok? && !Ended(snapshot.value) ==>
              && (exit.Waiting? <==> forall k :: 0 <= k < |ticks| ==> !EndsWait(snapshot.value, ticks, k))
              && forall k :: FirstEnd(snapshot.value, ticks, k) ==> exit == EndOf(ticks[k])
  {
    if snapshot.Ok? && !Ended(snapshot.value) { StreamingEndsIff(snapshot.value, ticks); }
    if snapshot.Err? { return Failed; }
    if AllTerminal(snapshot.value) { return Done(snapshot.value, BySnapshot); }
    var terminal := CollectTerminal({}, snapshot.value);
    var total := |snapshot.value|;
    assert ticks[0..] == ticks;
    for i := 0 to |ticks|
      invariant Stream(terminal, total, ticks[i..]) == Stream(TerminalIds(snapshot.value), total, ticks)
      invariant terminal == Counted(TerminalIds(snapshot.value), ticks[..i])
    {
      CountedOneMore(TerminalIds(snapshot.value), ticks, i);
      assert ticks[i..][0] == ticks[i] && ticks[i..][1..] == ticks[i + 1..];
      var out;
      out, terminal := HandleTick(ticks[i], terminal, total);
      if out.Some? { return out.value; }
    }
    return Waiting;
  }

  /** One turn of the select loop. */
  method HandleTick(t: Tick, before: set<string>, total: nat) returns (exit: Option<Exit>, terminal: set<string>)
    ensures exit == ExitAt(t, before, total)
    ensures exit.None? ==> terminal == before + After(t)
  {
    terminal := before;
    match t {
      case PollTick(fetch) =>
        if fetch.Err? { return Some(Failed), terminal; }
        if AllTerminal(fetch.value) { return Some(Done(fetch.value, ByPoll)), terminal; }
        terminal := CollectTerminal(terminal, fetch.value);
      case Event(id, phase, fetch) =>
        if IsTerminalPhase(phase) { terminal := terminal + {id}; }
        assert terminal == before + After(t);
        if |terminal| >= total {
          if fetch.Err? { return Some(Failed), terminal; }
          return Some(Done(fetch.value, ByCount)), terminal;
        }
      case StreamClosed(fetch) =>
        if fetch.Err? { return Some(Failed), terminal; }
        return Some(Done(fetch.value, ByClose)), terminal;
    }
    exit := None;
  }

  method CollectTerminal(before: set<string>, children: seq<Status>) returns (terminal: set<string>)
    ensures terminal == before + TerminalIds(children)
  {
    terminal := before;
    for i := 0 to |children|
      invariant terminal == before + TerminalIds(children[..i])
    {
      assert children[..i + 1] == children[..i] + [children[i]];
      assert TerminalIds(children[..i + 1])
          == TerminalIds(children[..i]) + if IsTerminalPhase(children[i].phase) then {children[i].id} else {} by {
        assert children[..i + 1][i] == children[i];
        assert forall k :: 0 <= k < i ==> children[..i + 1][k] == children[..i][k];
      }
      if IsTerminalPhase(children[i].phase) {
        terminal := terminal + {children[i].id};
      }
    }
    assert children[..|children|] == children;
  }

  method AwaitPolling(fetches: seq<Result<seq<Status>>>) returns (exit: Exit)
    ensures exit == Polling(fetches)
  {
    for i := 0 to |fetches|
      invariant Polling(fetches[i..]) == Polling(fetches)
    {
      assert fetches[i..][0] == fetches[i] && fetches[i..][1..] == fetches[i + 1..];
      if fetches[i].Err? { return Failed; }
      if AllTerminal(fetches[i].value) { return Done(fetches[i].value, ByPoll); }
    }
    return Waiting;
  }

  // ------------------------------------------------------- when the streaming wait ends

  /** There are children, and each has completed or failed. */
  ghost predicate Ended(children: seq<Status>) {
    children != [] && forall child :: child in children ==> child.phase in {"Completed", "Failed"}
  }

  ghost function EndedIds(children: seq<Status>): set<string> {
    set child | child in children && child.phase in {"Completed", "Failed"} :: child.id
  }

  /** The ids that the snapshot, an event or a poll has reported completed or failed so far. */
  ghost function Reported(snapshot: seq<Status>, ticks: seq<Tick>): set<string> {
    if ticks == [] then EndedIds(snapshot)
    else
      var t := ticks[|ticks| - 1];
      Reported(snapshot, ticks[..|ticks| - 1])
      + (if t.Event? && t.phase in {"Completed", "Failed"} then {t.id}
         else if t.PollTick? && t.fetch.Ok? then EndedIds(t.fetch.value)
         else {})
  }

  /**
   * Tick k is reason to stop: a poll failed or found all children ended, an event came when as many ids have
   * been reported ended as there are children, or the stream closed.
   */
  ghost predicate EndsWait(snapshot: seq<Status>, ticks: seq<Tick>, k: int) {
    && 0 <= k < |ticks|
    && match ticks[k]
       case PollTick(fetch) => fetch.Err? || Ended(fetch.value)
       case Event(_, _, _) => |Reported(snapshot, ticks[..k + 1])| >= |snapshot|
       case StreamClosed(_) => true
  }

  ghost predicate FirstEnd(snapshot: seq<Status>, ticks: seq<Tick>, k: int) {
    EndsWait(snapshot, ticks, k) && forall j :: 0 <= j < k ==> !EndsWait(snapshot, ticks, j)
  }

  /** What stopping at the tick returns: the children just fetched, or the fetch's error. */
  function EndOf(t: Tick): Exit {
    if t.fetch.Err? then Failed
    else Done(t.fetch.value, if t.PollTick? then ByPoll else if t.Event? then ByCount else ByClose)
  }

  lemma EndedIsTerminal(children: seq<Status>)
    ensures Ended(children) <==> AllTerminal(children)
    ensures EndedIds(children) == TerminalIds(children)
  {
    assert forall i :: 0 <= i < |children| ==> children[i] in children;
    forall id ensures id in EndedIds(children) <==> id in TerminalIds(children) {
      if child :| child in children && child.phase in {"Completed", "Failed"} && child.id == id {
        var i :| 0 <= i < |children| && children[i] == child;
        assert IsTerminalPhase(children[i].phase);
      }
    }
  }

  lemma {:induction false} ReportedIsCounted(snapshot: seq<Status>, ticks: seq<Tick>, k: nat)
    requires k <= |ticks|
    ensures Reported(snapshot, ticks[..k]) == Counted(TerminalIds(snapshot), ticks[..k])
    decreases k
  {
    EndedIsTerminal(snapshot);
    if k > 0 {
      ReportedIsCounted(snapshot, ticks, k - 1);
      CountedOneMore(TerminalIds(snapshot), ticks, k - 1);
      assert ticks[..k][..k - 1] == ticks[..k - 1];
      var t := ticks[k - 1];
      if t.PollTick? && t.fetch.Ok? { EndedIsTerminal(t.fetch.value); }
    }
  }

  lemma EndsWaitIsExit(snapshot: seq<Status>, ticks: seq<Tick>, k: nat)
    requires k < |ticks|
    ensures EndsWait(snapshot, ticks, k) <==> ExitAt(ticks[k], Counted(TerminalIds(snapshot), ticks[..k]), |snapshot|).Some?
    ensures EndsWait(snapshot, ticks, k) ==>
              ExitAt(ticks[k], Counted(TerminalIds(snapshot), ticks[..k]), |snapshot|) == Some(EndOf(ticks[k]))
  {
    ReportedIsCounted(snapshot, ticks, k + 1);
    CountedOneMore(TerminalIds(snapshot), ticks, k);
    if ticks[k].PollTick? && ticks[k].fetch.Ok? { EndedIsTerminal(ticks[k].fetch.value); }
  }

  lemma {:induction false} StreamStopsAt(terminal: set<string>, total: nat, ticks: seq<Tick>, k: nat)
    requires k <= |ticks|
    requires forall j :: 0 <= j < k ==> ExitAt(ticks[j], Counted(terminal, ticks[..j]), total).None?
    ensures Stream(terminal, total, ticks) == Stream(Counted(terminal, ticks[..k]), total, ticks[k..])
    decreases k
  {
    if k == 0 {
      assert ticks[0..] == ticks;
    } else {
      StreamStopsAt(terminal, total, ticks, k - 1);
      CountedOneMore(terminal, ticks, k - 1);
      assert ticks[k - 1..][1..] == ticks[k..] && ticks[k - 1..][0] == ticks[k - 1];
    }
  }

  /** The wait ends exactly at the first tick that is reason to stop, with what that tick's fetch gives. */
  lemma StreamingEndsIff(snapshot: seq<Status>, ticks: seq<Tick>)
    requires !Ended(snapshot)
    ensures Streaming(Ok(snapshot), ticks).Waiting? <==> forall k :: 0 <= k < |ticks| ==> !EndsWait(snapshot, ticks, k)
    ensures forall k :: FirstEnd(snapshot, ticks, k) ==> Streaming(Ok(snapshot), ticks) == EndOf(ticks[k])
  {
    EndedIsTerminal(snapshot);
    var terminal, total := TerminalIds(snapshot), |snapshot|;
    forall k | 0 <= k < |ticks|
      ensures EndsWait(snapshot, ticks, k) <==> ExitAt(ticks[k], Counted(terminal, ticks[..k]), total).Some?
    {
      EndsWaitIsExit(snapshot, ticks, k);
    }
    forall k | FirstEnd(snapshot, ticks, k) ensures Streaming(Ok(snapshot), ticks) == EndOf(ticks[k]) {
      StreamStopsAt(terminal, total, ticks, k);
      EndsWaitIsExit(snapshot, ticks, k);
      assert ticks[k..][0] == ticks[k];
    }
    if forall k :: 0 <= k < |ticks| ==> !EndsWait(snapshot, ticks, k) {
      StreamStopsAt(terminal, total, ticks, |ticks|);
    } else {
      var k := FirstEndExists(snapshot, ticks, |ticks|);
      assert !EndOf(ticks[k]).Waiting?;
    }
  }

  lemma {:induction false} FirstEndExists(snapshot: seq<Status>, ticks: seq<Tick>, n: nat) returns (k: int)
    requires exists j :: 0 <= j < n && EndsWait(snapshot, ticks, j)
    ensures FirstEnd(snapshot, ticks, k)
  {
    if exists j :: 0 <= j < n - 1 && EndsWait(snapshot, ticks, j) {
      k := FirstEndExists(snapshot, ticks, n - 1);
    } else {
      k := n - 1;
    }
  }

  /**
   * Progress by events: when, with the event at k, as many distinct ids have been reported completed or
   * failed as there are children, the wait is over by then, whatever comes later.
   */
  lemma EventsEndStream(snapshot: seq<Status>, ticks: seq<Tick>, k: nat)
    requires k < |ticks| && ticks[k].Event? && |Reported(snapshot, ticks[..k + 1])| >= |snapshot|
    ensures !Streaming(Ok(snapshot), ticks[..k + 1]).Waiting?
    ensures Streaming(Ok(snapshot), ticks) == Streaming(Ok(snapshot), ticks[..k + 1])
  {
    EndedIsTerminal(snapshot);
    if !Ended(snapshot) {
      var early := ticks[..k + 1];
      forall j | 0 <= j <= k ensures EndsWait(snapshot, early, j) <==> EndsWait(snapshot, ticks, j) {
        assert early[..j + 1] == ticks[..j + 1];
      }
      assert EndsWait(snapshot, early, k);
      var first := FirstEndExists(snapshot, early, k + 1);
      assert FirstEnd(snapshot, ticks, first);
      StreamingEndsIff(snapshot, early);
      StreamingEndsIff(snapshot, ticks);
    }
  }

  // ---------------------------------------------------------------- a truthful world

  /** The phases of the children at one moment. */
  type Phases = map<string, string>

  /** A fixed set of children whose terminal phases never change. */
  ghost predicate Stable(earlier: Phases, later: Phases) {
    earlier.Keys == later.Keys && forall id :: id in earlier && IsTerminalPhase(earlier[id]) ==> later[id] == earlier[id]
  }

  /** The list names every child with its phase, in any order. */
  ghost predicate Lists(children: seq<Status>, now: Phases) {
    && (forall i :: 0 <= i < |children| ==> children[i].id in now && children[i].phase == now[children[i].id])
    && (forall id :: id in now ==> exists i :: 0 <= i < |children| && children[i].id == id)
  }

  ghost predicate TruthfulFetch(fetch: Result<seq<Status>>, now: Phases) {
    fetch.Ok? ==> Lists(fetch.value, now)
  }

  /** Events may be lost, repeated or late, but one reporting a terminal phase is about a child that reached one. */
  ghost predicate TruthfulTick(t: Tick, now: Phases) {
    && TruthfulFetch(t.fetch, now)
    && (t.Event? && IsTerminalPhase(t.phase) ==> t.id in now && IsTerminalPhase(now[t.id]))
  }

  /** history[i] is the world at tick i; start is the world of the initial snapshot. */
  ghost predicate TruthfulTicks(start: Phases, ticks: seq<Tick>, history: seq<Phases>)
    decreases |ticks|
  {
    |history| == |ticks| &&
    (ticks == [] || (Stable(start, history[0]) && TruthfulTick(ticks[0], history[0]) && TruthfulTicks(history[0], ticks[1..], history[1..])))
  }

  ghost predicate TruthfulPolls(start: Phases, fetches: seq<Result<seq<Status>>>, history: seq<Phases>)
    decreases |fetches|
  {
    |history| == |fetches| &&
    (fetches == [] || (Stable(start, history[0]) && TruthfulFetch(fetches[0], history[0]) && TruthfulPolls(history[0], fetches[1..], history[1..])))
  }

  ghost predicate EveryChildDone(children: seq<Status>, start: Phases) {
    && (forall i :: 0 <= i < |children| ==> children[i].phase in {"Completed", "Failed"})
    && (forall id :: id in start ==> exists i :: 0 <= i < |children| && children[i].id == id)
  }

  ghost predicate TrulyTerminal(terminal: set<string>, now: Phases) {
    forall id :: id in terminal ==> id in now && IsTerminalPhase(now[id])
  }

  lemma SubsetOfSameSize<T>(a: set<T>, b: set<T>)
    requires a <= b && |a| >= |b|
    ensures a == b
  {
    assert b == a + (b - a);
  }

  lemma {:induction false} IdsFit(ids: set<string>, children: seq<Status>)
    requires forall id :: id in ids ==> exists i :: 0 <= i < |children| && children[i].id == id
    ensures |ids| <= |children|
  {
    if ids != {} {
      var n := |children| - 1;
      var last := children[n].id;
      forall id | id in ids - {last} ensures exists i :: 0 <= i < n && children[..n][i].id == id {
        var i :| 0 <= i < |children| && children[i].id == id;
        assert children[..n][i] == children[i];
      }
      IdsFit(ids - {last}, children[..n]);
    }
  }

  /** The ids counted after the given ticks. */
  function Counted(terminal: set<string>, ticks: seq<Tick>): set<string>
    decreases |ticks|
  {
    if ticks == [] then terminal else Counted(terminal + After(ticks[0]), ticks[1..])
  }

  lemma {:induction false} CountedOneMore(terminal: set<string>, ticks: seq<Tick>, i: nat)
    requires i < |ticks|
    ensures Counted(terminal, ticks[..i + 1]) == Counted(terminal, ticks[..i]) + After(ticks[i])
    decreases i
  {
    if i > 0 {
      assert ticks[..i + 1][1..] == ticks[1..][..i] && ticks[..i][1..] == ticks[1..][..i - 1];
      CountedOneMore(terminal + After(ticks[0]), ticks[1..], i - 1);
    } else {
      assert ticks[..1][1..] == [];
    }
  }

  /** However events are lost, repeated or late, every counted id belongs to a child that really ended. */
  lemma {:induction false} CountedAreTerminal(terminal: set<string>, ticks: seq<Tick>, start: Phases, history: seq<Phases>)
    requires TrulyTerminal(terminal, start) && TruthfulTicks(start, ticks, history)
    ensures TrulyTerminal(Counted(terminal, ticks), if ticks == [] then start else history[|history| - 1])
    decreases |ticks|
  {
    if ticks != [] {
      assert TrulyTerminal(terminal + After(ticks[0]), history[0]);
      CountedAreTerminal(terminal + After(ticks[0]), ticks[1..], history[0], history[1..]);
    }
  }

  /** A poll or counted exit happens only when every child has ended. */
  lemma ExitIsSafe(t: Tick, terminal: set<string>, total: nat, now: Phases)
    requires TruthfulTick(t, now) && TrulyTerminal(terminal + After(t), now) && |now| <= total
    requires !t.StreamClosed? && ExitAt(t, terminal, total).Some? && ExitAt(t, terminal, total).value.Done?
    ensures Lists(ExitAt(t, terminal, total).value.children, now) && AllDoneIn(now)
  {
    if t.Event? {
      assert terminal + After(t) <= now.Keys;
      SubsetOfSameSize(terminal + After(t), now.Keys);
    } else {
      var children := t.fetch.value;
      forall id | id in now ensures now[id] in {"Completed", "Failed"} {
        var i :| 0 <= i < |children| && children[i].id == id;
        assert IsTerminalPhase(children[i].phase);
      }
    }
  }

  lemma ReportStaysTrue(t: Tick, terminal: set<string>, start: Phases, now: Phases)
    requires TrulyTerminal(terminal, start) && Stable(start, now) && TruthfulTick(t, now)
    ensures TrulyTerminal(terminal + After(t), now)
  {
  }

  /** Safety of the streaming wait: every exit but the closed-stream one lists every child in a terminal phase. */
  lemma {:induction false} StreamIsSafe(terminal: set<string>, total: nat, ticks: seq<Tick>, start: Phases, history: seq<Phases>)
    requires TrulyTerminal(terminal, start) && |start| <= total
    requires TruthfulTicks(start, ticks, history)
    ensures Stream(terminal, total, ticks).Done? && Stream(terminal, total, ticks).via != ByClose ==>
              EveryChildDone(Stream(terminal, total, ticks).children, start)
    decreases |ticks|
  {
    if ticks != [] {
      var t, now := ticks[0], history[0];
      ReportStaysTrue(t, terminal, start, now);
      assert now.Keys == start.Keys;
      var exit := ExitAt(t, terminal, total);
      if exit.None? {
        StreamIsSafe(terminal + After(t), total, ticks[1..], now, history[1..]);
        SameChildren(Stream(terminal, total, ticks), now, start);
      } else if exit.value.Done? && exit.value.via != ByClose {
        ExitIsSafe(t, terminal, total, now);
        ListTellsAll(exit.value.children, now, start);
      }
    }
  }

  lemma SameChildren(exit: Exit, now: Phases, start: Phases)
    requires now.Keys == start.Keys
    ensures exit.Done? ==> (EveryChildDone(exit.children, now) <==> EveryChildDone(exit.children, start))
  {
  }

  ghost predicate AllDoneIn(now: Phases) {
    forall id :: id in now ==> now[id] in {"Completed", "Failed"}
  }

  ghost predicate FirstClosing(ticks: seq<Tick>, k: nat) {
    k < |ticks| && ticks[k].StreamClosed? && forall j :: 0 <= j < k ==> !ticks[j].StreamClosed?
  }

  /** The stream closes at tick k, and the list it leads to is all terminal exactly when the world is by then. */
  ghost predicate ClosesAt(ticks: seq<Tick>, history: seq<Phases>, k: nat, children: seq<Status>, start: Phases) {
    && FirstClosing(ticks, k) && k < |history|
    && (EveryChildDone(children, start) <==> AllDoneIn(history[k]))
  }

  lemma {:induction false} ClosedStreamList(terminal: set<string>, total: nat, ticks: seq<Tick>, start: Phases, history: seq<Phases>)
    returns (k: nat)
    requires TruthfulTicks(start, ticks, history)
    requires Stream(terminal, total, ticks).Done? && Stream(terminal, total, ticks).via == ByClose
    ensures FirstClosing(ticks, k) && k < |history|
    ensures Lists(Stream(terminal, total, ticks).children, history[k]) && history[k].Keys == start.Keys
    decreases |ticks|
  {
    k := 0;
    if !ticks[0].StreamClosed? {
      var later := ClosedStreamList(terminal + After(ticks[0]), total, ticks[1..], history[0], history[1..]);
      k := later + 1;
      assert forall j :: 0 < j < k ==> ticks[j] == ticks[1..][j - 1];
    }
  }

  /** The closed-stream exit is as good as the moment of closing: safe exactly when every child had ended by then. */
  lemma ClosedStreamSafeIff(terminal: set<string>, total: nat, ticks: seq<Tick>, start: Phases, history: seq<Phases>)
    returns (k: nat)
    requires TruthfulTicks(start, ticks, history)
    requires Stream(terminal, total, ticks).Done? && Stream(terminal, total, ticks).via == ByClose
    ensures ClosesAt(ticks, history, k, Stream(terminal, total, ticks).children, start)
  {
    k := ClosedStreamList(terminal, total, ticks, start, history);
    ListTellsAll(Stream(terminal, total, ticks).children, history[k], start);
  }

  lemma ListTellsAll(children: seq<Status>, now: Phases, start: Phases)
    requires Lists(children, now) && now.Keys == start.Keys
    ensures EveryChildDone(children, start) <==> AllDoneIn(now)
  {
    if EveryChildDone(children, start) {
      forall id | id in now ensures now[id] in {"Completed", "Failed"} {
        var i :| 0 <= i < |children| && children[i].id == id;
      }
    }
  }

  /** The wait is safe on every exit but the closed stream's, and on that one exactly when every child had ended. */
  lemma StreamingIsSafe(snapshot: Result<seq<Status>>, ticks: seq<Tick>, start: Phases, history: seq<Phases>)
    requires TruthfulFetch(snapshot, start) && TruthfulTicks(start, ticks, history)
    ensures var exit := Streaming(snapshot, ticks);
            exit.Done? ==> if exit.via != ByClose then EveryChildDone(exit.children, start)
                           else exists k :: ClosesAt(ticks, history, k, exit.children, start)
  {
    if snapshot.Ok? {
      var terminal, total := TerminalIds(snapshot.value), |snapshot.value|;
      IdsFit(start.Keys, snapshot.value);
      StreamIsSafe(terminal, total, ticks, start, history);
      if !AllTerminal(snapshot.value) && Stream(terminal, total, ticks).Done? && Stream(terminal, total, ticks).via == ByClose {
        var k := ClosedStreamSafeIff(terminal, total, ticks, start, history);
      }
    }
  }

  /** So while the stream stays open, whatever else it loses, a returned list is all the children, all terminal. */
  lemma OpenStreamIsSafe(snapshot: Result<seq<Status>>, ticks: seq<Tick>, start: Phases, history: seq<Phases>)
    requires TruthfulFetch(snapshot, start) && TruthfulTicks(start, ticks, history)
    requires forall k :: 0 <= k < |ticks| ==> !ticks[k].StreamClosed?
    ensures Streaming(snapshot, ticks).Done? ==> EveryChildDone(Streaming(snapshot, ticks).children, start)
  {
    StreamingIsSafe(snapshot, ticks, start, history);
  }

  /**
   * Progress without events: once a poll finds all children completed or failed, or fails, the wait is
   * over, even if no event is ever delivered.
   */
  lemma {:induction false} PollEndsStream(terminal: set<string>, total: nat, ticks: seq<Tick>, k: nat)
    requires k < |ticks| && ticks[k].PollTick?
    requires ticks[k].fetch.Ok? ==>
               ticks[k].fetch.value != [] && forall child :: child in ticks[k].fetch.value ==> child.phase in {"Completed", "Failed"}
    ensures !Stream(terminal, total, ticks).Waiting?
    decreases |ticks|
  {
    if ExitAt(ticks[0], terminal, total).None? {
      if k == 0 { assert forall i :: 0 <= i < |ticks[0].fetch.value| ==> ticks[0].fetch.value[i] in ticks[0].fetch.value; }
      PollEndsStream(terminal + After(ticks[0]), total, ticks[1..], k - 1);
    }
  }

  lemma {:induction false} PollingIsSafe(fetches: seq<Result<seq<Status>>>, start: Phases, history: seq<Phases>)
    requires TruthfulPolls(start, fetches, history)
    ensures Polling(fetches).Done? ==> EveryChildDone(Polling(fetches).children, start) && Polling(fetches).via == ByPoll
    decreases |fetches|
  {
    if fetches != [] && fetches[0].Ok? && !AllTerminal(fetches[0].value) {
      PollingIsSafe(fetches[1..], history[0], history[1..]);
    }
  }

  /** The exception: a stream that closes early hands back a list with a running child in it. */
  lemma ClosedStreamMayReturnRunning(id: string)
    ensures var running := [Status(id, "Running")];
            Streaming(Ok(running), [StreamClosed(Ok(running))]) == Done(running, ByClose)
            && TruthfulTicks(map[id := "Running"], [StreamClosed(Ok(running))], [map[id := "Running"]])
            && !EveryChildDone(running, map[id := "Running"])
  {
    var running, now := [Status(id, "Running")], map[id := "Running"];
    assert running[0].id == id && !IsTerminalPhase(running[0].phase);
    assert [StreamClosed(Ok(running))][1..] == [] && [now][1..] == [];
    assert TruthfulTicks(now, [], []);
  }

  ghost predicate StopsAt(fetches: seq<Result<seq<Status>>>, children: seq<Status>, k: int) {
    && 0 <= k < |fetches| && fetches[k] == Ok(children) && AllTerminal(children)
    && forall j :: 0 <= j < k ==> fetches[j].Ok? && !AllTerminal(fetches[j].value)
  }

  /** Polling stops at the first list that is wholly terminal, provided no fetch failed before it. */
  lemma {:induction false} PollingStopsAtFirst(fetches: seq<Result<seq<Status>>>, children: seq<Status>)
    ensures Polling(fetches) == Done(children, ByPoll)
      <==> exists k :: StopsAt(fetches, children, k)
    decreases |fetches|
  {
    if fetches != [] && fetches[0].Ok? && !AllTerminal(fetches[0].value) {
      var rest := fetches[1..];
      PollingStopsAtFirst(rest, children);
      if k :| StopsAt(fetches, children, k) {
        assert rest[k - 1] == fetches[k] && forall j :: 0 <= j < k - 1 ==> rest[j] == fetches[j + 1];
        assert StopsAt(rest, children, k - 1);
      }
      if k :| StopsAt(rest, children, k) {
        assert rest[k] == fetches[k + 1];
        forall j | 0 <= j < k + 1 ensures fetches[j].Ok? && !AllTerminal(fetches[j].value) {
          if j > 0 { assert rest[j - 1] == fetches[j]; }
        }
        assert StopsAt(fetches, children, k + 1);
      }
    } else if fetches != [] {
      if Polling(fetches) == Done(children, ByPoll) { assert StopsAt(fetches, children, 0); }
    }
  }

  /** It ends with an error exactly when a fetch fails before any list is wholly terminal. */
  lemma {:induction false} PollingFailsIff(fetches: seq<Result<seq<Status>>>)
    ensures Polling(fetches) == Failed
       <==> exists k :: 0 <= k < |fetches| && fetches[k].Err? && forall j :: 0 <= j < k ==> fetches[j].Ok? && !Ended(fetches[j].value)
    decreases |fetches|
  {
    if fetches != [] {
      if fetches[0].Ok? { EndedIsTerminal(fetches[0].value); }
      var rest := fetches[1..];
      PollingFailsIff(rest);
      if k :| 0 <= k < |rest| && rest[k].Err? && forall j :: 0 <= j < k ==> rest[j].Ok? && !Ended(rest[j].value) {
        assert fetches[k + 1] == rest[k] && forall j :: 0 < j < k + 1 ==> fetches[j] == rest[j - 1];
      }
      if k :| 0 <= k < |fetches| && fetches[k].Err? && forall j :: 0 <= j < k ==> fetches[j].Ok? && !Ended(fetches[j].value) {
        assert k > 0 ==> rest[k - 1] == fetches[k] && forall j :: 0 <= j < k - 1 ==> rest[j] == fetches[j + 1];
      }
    }
  }

  lemma EmptyList(children: seq<Status>, now: Phases)
    requires Lists(children, now)
    ensures children != [] ==> now != map[]
  {
    if children != [] { assert children[0].id in now; }
  }

  /** With no children the polling wait never returns: the empty list does not count as all terminal. */
  lemma {:induction false} NoChildrenPollsForever(fetches: seq<Result<seq<Status>>>, history: seq<Phases>)
    requires TruthfulPolls(map[], fetches, history)
    ensures !Polling(fetches).Done?
    decreases |fetches|
  {
    if fetches != [] && fetches[0].Ok? {
      EmptyList(fetches[0].value, history[0]);
      NoChildrenPollsForever(fetches[1..], history[1..]);
    }
  }

  // -------------------------------------------------------------------- AwaitAll

  /** What the world does during one call. */
  datatype Script = Script(pauseOk: bool, hasBus: bool, watchOk: bool,
                           snapshot: Result<seq<Status>>, ticks: seq<Tick>, polls: seq<Result<seq<Status>>>)

  ghost predicate Truthful(script: Script, start: Phases, streamed: seq<Phases>, middle: Phases, polled: seq<Phases>) {
    && TruthfulFetch(script.snapshot, start)
    && TruthfulTicks(start, script.ticks, streamed)
    && Stable(start, middle) && TruthfulPolls(middle, script.polls, polled)
  }

  class Waiter {
    var pauses: nat
    var resumes: nat
    var watching: bool

    constructor ()
      ensures pauses == 0 && resumes == 0 && !watching
    {
      pauses, resumes, watching := 0, 0, false;
    }

    /** The closure around the resumed flag: the first call resumes the timer, later ones do nothing. */
    method ResumeOnce(before: bool) returns (resumed: bool)
      modifies this`resumes
      ensures resumed && resumes == old(resumes) + if before then 0 else 1
    {
      resumed := before;
      if !resumed {
        resumed := true;
        resumes := resumes + 1;
      }
    }

    /** From the pause to the return statement; resumes explicitly when it has a list. */
    method Wait(script: Script) returns (exit: Exit, resumed: bool)
      modifies this`resumes, this`watching
      ensures exit == Awaited(script)
      ensures resumed <==> exit.Done?
      ensures resumes == old(resumes) + if resumed then 1 else 0
    {
      resumed := false;
      if script.hasBus && script.watchOk {
        watching := true;
        exit := AwaitStreaming(script.snapshot, script.ticks);
        if exit.Done? { resumed := ResumeOnce(resumed); }
        if !exit.Failed? { return; }
        // The stream failed: fall through to polling.
      }
      exit := AwaitPolling(script.polls);
      if exit.Done? { resumed := ResumeOnce(resumed); }
    }

    /** Waiting means the script ended before the call did. */
    method AwaitAll(script: Script) returns (exit: Exit)
      requires !watching
      modifies this
      ensures !script.pauseOk ==> exit == Failed && pauses == old(pauses) && resumes == old(resumes)
      ensures script.pauseOk ==> pauses == old(pauses) + 1 && exit == Awaited(script)
      // The stream decides if it can be watched and does not fail; otherwise polling does.
      ensures script.pauseOk && script.hasBus && script.watchOk && Streaming(script.snapshot, script.ticks) != Failed ==>
                exit == Streaming(script.snapshot, script.ticks)
      ensures script.pauseOk && !(script.hasBus && script.watchOk && Streaming(script.snapshot, script.ticks) != Failed) ==>
                exit == Polling(script.polls)
      // The timer is resumed exactly once per pause, on every way out, and the watcher is stopped.
      ensures script.pauseOk && !exit.Waiting? ==> resumes == old(resumes) + 1 && !watching
      ensures exit.Waiting? ==> script.pauseOk && resumes == old(resumes)
      // A returned list is all the children, all terminal, on every exit but the closed stream's;
      // on that one exactly when every child had ended when the stream closed.
      ensures forall start, streamed, middle, polled :: Truthful(script, start, streamed, middle, polled) && exit.Done? ==>
                if exit.via != ByClose then EveryChildDone(exit.children, start)
                else exists k :: ClosesAt(script.ticks, streamed, k, exit.children, start)
    {
      forall start, streamed, middle, polled | Truthful(script, start, streamed, middle, polled) && Awaited(script).Done?
        ensures if Awaited(script).via != ByClose then EveryChildDone(Awaited(script).children, start)
                else exists k :: ClosesAt(script.ticks, streamed, k, Awaited(script).children, start)
      {
        StreamingIsSafe(script.snapshot, script.ticks, start, streamed);
        PollingIsSafe(script.polls, middle, polled);
      }
      if !script.pauseOk { return Failed; }
      pauses := pauses + 1;
      var resumed;
      exit, resumed := Wait(script);
      if exit.Waiting? { return; }
      // The deferred calls, in reverse order: stop the watcher, resume the timer.
      watching := false;
      resumed := ResumeOnce(resumed);
    }
  }

  /** The stream's exit, or polling's when there is no stream or it fails. */
  function Awaited(script: Script): Exit {
    if script.hasBus && script.watchOk && !Streaming(script.snapshot, script.ticks).Failed?
    then Streaming(script.snapshot, script.ticks) else Polling(script.polls)
  }
}
