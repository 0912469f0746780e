/** The Sort gate (nodes/sort/main.go): one visit decides where the workitem goes next. */
module Sort {
  import opened Prelude
  import opened Capability
  import opened Feedback
  import opened Workitem

  datatype Output = Output(name: string, target: string)

  datatype Node = Node(name: string, capabilities: seq<string>, outputs: seq<Output>)

  /** exitContract maps each artefact kind to the stamps it must carry. */
  datatype Topology = Topology(self: Node, nodes: map<string, Node>, exitContract: map<string, seq<string>>)

  /** kind -> stamp -> providing node. */
  type Providers = map<string, map<string, string>>

  const DEFAULT_THRESHOLD := 3
  const OUTPUT_ARBITER := "hitl-arbiter"
  const OUTPUT_REFINE := "refine"
  const OUTPUT_APPRAISAL := "appraisal"

  function Threshold(configured: int): (t: int)
    ensures t >= 1 && t == if configured >= 1 then configured else 3
  {
    if configured < 1 then DEFAULT_THRESHOLD else configured
  }

  // ------------------------------------------------------------ stamp providers

  predicate LawStamp(stamp: string) { "law-" <= stamp || "lawgrp-" <= stamp }

  /** The capability makes its node a provider of (kind, stamp). */
  predicate Grants(cap: string, kind: string, stamp: string) {
    ParseStampCapability(cap) == Some(StampCapability(kind, stamp)) && !LawStamp(stamp)
  }

  predicate Declares(node: Node, kind: string, stamp: string) {
    exists cap :: cap in node.capabilities && Grants(cap, kind, stamp)
  }

  ghost predicate Provides(nodes: map<string, Node>, kind: string, stamp: string, provider: string) {
    exists key :: key in nodes && nodes[key].name == provider && Declares(nodes[key], kind, stamp)
  }

  function Entry(providers: Providers, kind: string, stamp: string): Option<string> {
    if kind in providers && stamp in providers[kind] then Some(providers[kind][stamp]) else None
  }

  ghost predicate RowsNonEmpty(providers: Providers) {
    forall kind :: kind in providers ==> providers[kind] != map[]
  }

  /** One of the maps a visit may build: when several nodes declare a stamp, map order picks the provider. */
  ghost predicate IsResolution(nodes: map<string, Node>, providers: Providers) {
    && RowsNonEmpty(providers)
    && (forall kind, stamp :: Entry(providers, kind, stamp).Some? ==>
          Provides(nodes, kind, stamp, Entry(providers, kind, stamp).value))
    && (forall key, kind, stamp :: key in nodes && Declares(nodes[key], kind, stamp) ==>
          Entry(providers, kind, stamp).Some?)
  }

  ghost predicate GrantedBy(caps: seq<string>, kind: string, stamp: string) {
    exists cap :: cap in caps && Grants(cap, kind, stamp)
  }

  method BuildStampProviders(nodes: map<string, Node>) returns (providers: Providers)
    ensures IsResolution(nodes, providers)
  {
    providers := map[];
    var rest := nodes.Keys;
    while rest != {}
      invariant rest <= nodes.Keys && RowsNonEmpty(providers)
      invariant forall kind, stamp :: Entry(providers, kind, stamp).Some? ==>
                  Provides(nodes, kind, stamp, Entry(providers, kind, stamp).value)
      invariant forall key, kind, stamp :: key in nodes && key !in rest && Declares(nodes[key], kind, stamp) ==>
                  Entry(providers, kind, stamp).Some?
    {
      var key :| key in rest;
      var more := AddNode(nodes[key], providers);
      forall kind, stamp | Entry(more, kind, stamp).Some?
        ensures Provides(nodes, kind, stamp, Entry(more, kind, stamp).value)
      {
        if GrantedBy(nodes[key].capabilities, kind, stamp) {
          assert Declares(nodes[key], kind, stamp);
        }
      }
      forall k, kind, stamp | k in nodes && k !in rest - {key} && Declares(nodes[k], kind, stamp)
        ensures Entry(more, kind, stamp).Some?
      {
        if k == key { assert GrantedBy(nodes[key].capabilities, kind, stamp); }
      }
      providers, rest := more, rest - {key};
    }
  }

  /** The inner loop: one node's capabilities overwrite what earlier nodes entered. */
  method AddNode(node: Node, before: Providers) returns (providers: Providers)
    requires RowsNonEmpty(before)
    ensures RowsNonEmpty(providers)
    ensures forall kind, stamp :: Entry(providers, kind, stamp)
              == if GrantedBy(node.capabilities, kind, stamp) then Some(node.name) else Entry(before, kind, stamp)
  {
    providers := before;
    var caps := node.capabilities;
    for i := 0 to |caps|
      invariant RowsNonEmpty(providers)
      invariant forall kind, stamp :: Entry(providers, kind, stamp)
                  == if GrantedBy(caps[..i], kind, stamp) then Some(node.name) else Entry(before, kind, stamp)
    {
      GrantedByStep(caps, i);
      var parsed := ParseStampCapability(caps[i]);
      if parsed.None? { continue; }
      var kind, stamp := parsed.value.kind, parsed.value.stamp;
      if LawStamp(stamp) { continue; }
      providers := WithEntry(providers, kind, stamp, node.name);
    }
    assert caps[..|caps|] == caps;
  }

  function WithEntry(providers: Providers, kind: string, stamp: string, name: string): (more: Providers)
    ensures RowsNonEmpty(providers) ==> RowsNonEmpty(more)
    ensures forall k, t :: Entry(more, k, t) == if k == kind && t == stamp then Some(name) else Entry(providers, k, t)
  {
    var row := if kind in providers then providers[kind] else map[];
    var row' := row[stamp := name];
    assert stamp in row';
    providers[kind := row']
  }

  lemma GrantedByStep(caps: seq<string>, i: nat)
    requires i < |caps|
    ensures forall kind, stamp :: GrantedBy(caps[..i + 1], kind, stamp)
              <==> GrantedBy(caps[..i], kind, stamp) || Grants(caps[i], kind, stamp)
  {
    forall kind, stamp
      ensures GrantedBy(caps[..i + 1], kind, stamp) <==> GrantedBy(caps[..i], kind, stamp) || Grants(caps[i], kind, stamp)
    {
      assert caps[..i + 1] == caps[..i] + [caps[i]];
      if Grants(caps[i], kind, stamp) { assert caps[i] in caps[..i + 1]; }
    }
  }

  /** The row for a kind: its own, or the wildcard row when it has none. */
  function ProviderRow(kind: string, providers: Providers): map<string, string> {
    if kind in providers then providers[kind] else if "*" in providers then providers["*"] else map[]
  }

  ghost function Provided(node: string, kind: string, providers: Providers): set<string> {
    set stamp | stamp in ProviderRow(kind, providers) && ProviderRow(kind, providers)[stamp] == node
  }

  /** In map order, which is arbitrary. */
  method StampsProvidedBy(node: string, kind: string, providers: Providers) returns (stamps: seq<string>)
    ensures forall stamp :: stamp in stamps <==> stamp in Provided(node, kind, providers)
  {
    var row := ProviderRow(kind, providers);
    stamps := [];
    var rest := row.Keys;
    while rest != {}
      invariant rest <= row.Keys
      invariant forall stamp :: stamp in stamps <==> stamp in row.Keys - rest && row[stamp] == node
    {
      var stamp :| stamp in rest;
      if row[stamp] == node { stamps := stamps + [stamp]; }
      rest := rest - {stamp};
    }
  }

  // ------------------------------------------------------------- output routing

  /** target node -> output name; a later output overwrites an earlier one to the same target. */
  function RoutesOf(outputs: seq<Output>): map<string, string> {
    if outputs == [] then map[]
    else
      var last := outputs[|outputs| - 1];
      RoutesOf(outputs[..|outputs| - 1])[last.target := last.name]
  }

  /** A route exists exactly to the targets of outputs, and is the last output's with that target. */
  lemma {:induction false} RoutesMeaning(outputs: seq<Output>, target: string, output: string)
    ensures target in RoutesOf(outputs) && RoutesOf(outputs)[target] == output
       <==> exists i :: 0 <= i < |outputs| && outputs[i] == Output(output, target)
              && forall j :: i < j < |outputs| ==> outputs[j].target != target
  {
    if outputs != [] {
      var n := |outputs| - 1;
      var init := outputs[..n];
      RoutesMeaning(init, target, output);
      assert forall i :: 0 <= i < n ==> init[i] == outputs[i];
      if outputs[n].target != target {
        if i :| 0 <= i < n && init[i] == Output(output, target) && forall j :: i < j < n ==> init[j].target != target {
          assert outputs[i] == Output(output, target);
        }
      } else {
        assert outputs[n] == Output(outputs[n].name, target);
      }
    }
  }

  method BuildOutputRoutes(self: Node) returns (routes: map<string, string>)
    ensures routes == RoutesOf(self.outputs)
  {
    routes := map[];
    for i := 0 to |self.outputs|
      invariant routes == RoutesOf(self.outputs[..i])
    {
      assert self.outputs[..i + 1][..i] == self.outputs[..i];
      routes := routes[self.outputs[i].target := self.outputs[i].name];
    }
    assert self.outputs[..|self.outputs|] == self.outputs;
  }

  // --------------------------------------------------- attestation providers

  function NeededAttestCapability(stamp: string): string {
    if "lawgrp-" <= stamp then "law-group" else if "law-" <= stamp then "law-id" else ""
  }

  function RequiredCapability(kind: string, sub: string): string {
    ATTEST_PREFIX + kind + "/" + sub
  }

  predicate HasAttestCapability(caps: seq<string>, kind: string, sub: string) {
    exists i :: 0 <= i < |caps| && MatchCapability(caps[i], RequiredCapability(kind, sub))
  }

  /** 2 exact, 1 wildcard, 0 none: decided by the first capability that matches either way. */
  function AttestSpecificity(caps: seq<string>, kind: string, needed: string): (spec: nat)
    ensures spec <= 2
  {
    var required := RequiredCapability(kind, needed);
    if caps == [] then 0
    else if caps[0] == required then 2
    else if '*' in caps[0] && MatchCapability(caps[0], required) then 1
    else AttestSpecificity(caps[1..], kind, needed)
  }

  ghost predicate HoldsAttest(nodes: map<string, Node>, name: string, kind: string, needed: string) {
    name in nodes && HasAttestCapability(nodes[name].capabilities, kind, needed)
  }

  ghost predicate FirstHolder(nodeOrder: seq<string>, nodes: map<string, Node>, kind: string, needed: string, i: nat) {
    i < |nodeOrder| && HoldsAttest(nodes, nodeOrder[i], kind, needed)
    && forall j :: 0 <= j < i ==> !HoldsAttest(nodes, nodeOrder[j], kind, needed)
  }

  ghost function SpecificityOf(nodes: map<string, Node>, name: string, kind: string, needed: string): nat {
    if name in nodes then AttestSpecificity(nodes[name].capabilities, kind, needed) else 0
  }

  /** The most specific node, the least name among equals. */
  ghost predicate BestFallback(nodes: map<string, Node>, kind: string, needed: string, name: string) {
    && name in nodes && SpecificityOf(nodes, name, kind, needed) > 0
    && forall other :: other in nodes ==>
         && SpecificityOf(nodes, other, kind, needed) <= SpecificityOf(nodes, name, kind, needed)
         && (SpecificityOf(nodes, other, kind, needed) == SpecificityOf(nodes, name, kind, needed) ==> Leq(name, other))
  }

  /** The first holder in nodeOrder; failing that the best fallback; failing that nobody. */
  ghost predicate AttestationProvider(stamp: string, kind: string, nodeOrder: seq<string>, nodes: map<string, Node>,
                                      provider: Option<string>)
  {
    var needed := NeededAttestCapability(stamp);
    if needed == "" then provider == None
    else if exists i: nat :: FirstHolder(nodeOrder, nodes, kind, needed, i) then
      exists i: nat :: FirstHolder(nodeOrder, nodes, kind, needed, i) && provider == Some(nodeOrder[i])
    else if exists name :: BestFallback(nodes, kind, needed, name) then
      provider.Some? && BestFallback(nodes, kind, needed, provider.value)
    else
      provider == None && forall name :: name in nodes ==> SpecificityOf(nodes, name, kind, needed) == 0
  }

  method FindAttestationProvider(stamp: string, kind: string, nodeOrder: seq<string>, nodes: map<string, Node>)
    returns (provider: Option<string>)
    ensures AttestationProvider(stamp, kind, nodeOrder, nodes, provider)
  {
    var needed := NeededAttestCapability(stamp);
    if needed == "" { return None; }
    for i := 0 to |nodeOrder|
      invariant forall j :: 0 <= j < i ==> !HoldsAttest(nodes, nodeOrder[j], kind, needed)
    {
      if nodeOrder[i] in nodes && HasAttestCapability(nodes[nodeOrder[i]].capabilities, kind, needed) {
        assert FirstHolder(nodeOrder, nodes, kind, needed, i);
        return Some(nodeOrder[i]);
      }
    }
    provider := None;
    var bestSpec := 0;
    var names := SortedKeys(nodes);
    SortedMembers(nodes.Keys);
    SortedIsOrdered(nodes.Keys);
    for i := 0 to |names|
      invariant bestSpec == 0 ==> provider == None
      invariant bestSpec > 0 ==> provider.Some? && provider.value in names[..i]
                                 && SpecificityOf(nodes, provider.value, kind, needed) == bestSpec
      invariant forall j :: 0 <= j < i ==> SpecificityOf(nodes, names[j], kind, needed) <= bestSpec
      invariant forall j :: 0 <= j < i && bestSpec > 0 && SpecificityOf(nodes, names[j], kind, needed) == bestSpec ==>
                  Leq(provider.value, names[j])
    {
      LeqTotal(names[i], names[i]);
      var spec := AttestSpecificity(nodes[names[i]].capabilities, kind, needed);
      assert spec == SpecificityOf(nodes, names[i], kind, needed);
      if spec > bestSpec {
        bestSpec, provider := spec, Some(names[i]);
      }
    }
    assert forall name :: name in nodes ==> name in names;
    if bestSpec > 0 {
      assert BestFallback(nodes, kind, needed, provider.value);
    }
  }

  // --------------------------------------------------------------- the gate rules

  /** Everything a visit reads that no step of the flow changes. disputes maps a feedback id to an active petition. */
  datatype Gate = Gate(topo: Topology, nodeOrder: seq<string>, deadlockThreshold: int, statutes: Statutes,
                       disputes: map<string, string>)

  predicate About(s: Snapshot, kind: string, id: string) { id in s.items && s.items[id].kind == kind }

  ghost predicate Quiet(g: Gate, s: Snapshot, kind: string) {
    forall id :: About(s, kind, id) ==> !Escalates(s.items[id], Threshold(g.deadlockThreshold))
  }

  ghost predicate Unaddressed(s: Snapshot, kind: string, source: string) {
    exists id :: About(s, kind, id) && s.items[id].source == source && s.items[id].state in {New, Rejected}
  }

  ghost predicate Addressed(s: Snapshot, kind: string) {
    exists id :: About(s, kind, id) && s.items[id].state in {Actioned, WontFix}
  }

  ghost predicate StampSatisfied(s: Snapshot, kind: string, node: string, stamp: string) {
    Stamped(s, kind, stamp) && !Unaddressed(s, kind, node)
  }

  ghost predicate NodeSatisfied(s: Snapshot, kind: string, node: string, providers: Providers) {
    forall stamp :: stamp in Provided(node, kind, providers) ==> StampSatisfied(s, kind, node, stamp)
  }

  ghost predicate OrderSatisfied(g: Gate, s: Snapshot, kind: string, providers: Providers, n: nat)
    requires n <= |g.nodeOrder|
  {
    forall i :: 0 <= i < n ==> NodeSatisfied(s, kind, g.nodeOrder[i], providers)
  }

  ghost predicate Ready(g: Gate, providers: Providers, s: Snapshot, kind: string) {
    && Quiet(g, s, kind)
    && OrderSatisfied(g, s, kind, providers, |g.nodeOrder|)
    && MissingAttestations(s, kind, g.statutes) == []
    && !Addressed(s, kind)
    && (Provided(g.topo.self.name, kind, providers) != {} ==> kind in s.head)
  }

  /** The stamps Sort itself puts on a kind. */
  ghost function OwnStamps(g: Gate, providers: Providers, kind: string): set<string>
    requires kind in g.topo.exitContract
  {
    set stamp | stamp in Provided(g.topo.self.name, kind, providers) && stamp in g.topo.exitContract[kind]
  }

  ghost function OwnRows(g: Gate, providers: Providers, s: Snapshot, kinds: set<string>): set<Row>
    requires kinds <= g.topo.exitContract.Keys
  {
    set kind, stamp | kind in kinds && kind in s.head && stamp in OwnStamps(g, providers, kind)
      :: Row(kind, s.head[kind], stamp)
  }

  /** Why a visit ended as it did. */
  datatype Verdict =
    | Escalate(kind: string, id: string)
    | Refine(kind: string, position: nat, stamp: string)
    | FetchStamp(kind: string, position: nat, stamp: string, output: string)
    | Attest(kind: string, stamp: string, provider: string, output: string)
    | Adjudicate(kind: string)
    | Finished

  function ActionFor(g: Gate, v: Verdict): Action {
    match v
    case Escalate(_, id) =>
      if id in g.disputes then Suspend("dispute_retired(\"" + g.disputes[id] + "\")") else Route(OUTPUT_ARBITER)
    case Refine(_, _, _) => Route(OUTPUT_REFINE)
    case FetchStamp(_, _, _, output) => Route(output)
    case Attest(_, _, _, output) => Route(output)
    case Adjudicate(_) => Route(OUTPUT_APPRAISAL)
    case Finished => Complete
  }

  ghost predicate RouteTo(g: Gate, target: string, output: string) {
    target in RoutesOf(g.topo.self.outputs) && RoutesOf(g.topo.self.outputs)[target] == output
  }

  /** The verdict is the first check, in the gate's order, that the kind fails. */
  ghost predicate Justified(g: Gate, providers: Providers, s: Snapshot, v: Verdict) {
    && (v.Finished? || v.kind in g.topo.exitContract)
    && match v
    case Escalate(kind, id) =>
      About(s, kind, id) && Escalates(s.items[id], Threshold(g.deadlockThreshold))
    case Refine(kind, i, stamp) =>
      && Quiet(g, s, kind)
      && i < |g.nodeOrder| && OrderSatisfied(g, s, kind, providers, i)
      && stamp in Provided(g.nodeOrder[i], kind, providers) && Stamped(s, kind, stamp)
      && Unaddressed(s, kind, g.nodeOrder[i])
    case FetchStamp(kind, i, stamp, output) =>
      && Quiet(g, s, kind)
      && i < |g.nodeOrder| && OrderSatisfied(g, s, kind, providers, i)
      && stamp in Provided(g.nodeOrder[i], kind, providers) && kind in s.head && !Stamped(s, kind, stamp)
      && RouteTo(g, g.nodeOrder[i], output)
    case Attest(kind, stamp, provider, output) =>
      && Quiet(g, s, kind) && OrderSatisfied(g, s, kind, providers, |g.nodeOrder|)
      && MissingAttestations(s, kind, g.statutes) != [] && stamp == MissingAttestations(s, kind, g.statutes)[0]
      && AttestationProvider(stamp, kind, g.nodeOrder, g.topo.nodes, Some(provider))
      && RouteTo(g, provider, output)
    case Adjudicate(kind) =>
      && Quiet(g, s, kind) && OrderSatisfied(g, s, kind, providers, |g.nodeOrder|)
      && MissingAttestations(s, kind, g.statutes) == [] && Addressed(s, kind)
    case Finished => AllReady(g, providers, s)
  }

  ghost predicate AllReady(g: Gate, providers: Providers, s: Snapshot) {
    forall kind :: kind in g.topo.exitContract ==> Ready(g, providers, s, kind)
  }

  function Escalated(items: map<string, Item>, id: string): map<string, Item>
    requires id in items
  {
    if items[id].state == Deadlocked then items else items[id := Apply(items[id], Deadlock)]
  }

  /** What a verdict does to the feedback: an escalated item is DEADLOCKED, nothing else moves. */
  function ItemsAfter(s: Snapshot, v: Verdict): map<string, Item> {
    if v.Escalate? && v.id in s.items then Escalated(s.items, v.id) else s.items
  }

  /** At most one item, an escalated one, becomes DEADLOCKED. */
  ghost predicate ItemsEffect(g: Gate, providers: Providers, s: Snapshot, items: map<string, Item>) {
    items == s.items || exists v: Verdict :: v.Escalate? && Justified(g, providers, s, v) && items == ItemsAfter(s, v)
  }

  /** What any visit, failed ones included, may change. */
  ghost predicate VisitEffect(g: Gate, providers: Providers, s: Snapshot, t: Snapshot) {
    && t.head == s.head
    && s.stamps <= t.stamps
    && (forall row :: row in t.stamps - s.stamps ==>
          && row.kind in g.topo.exitContract && Ready(g, providers, s, row.kind)
          && row in OwnRows(g, providers, s, {row.kind}))
    && ItemsEffect(g, providers, s, t.items)
  }
  ghost predicate StampedApart(s: Snapshot, t: Snapshot, kind: string) {
    t.head == s.head && t.items == s.items && forall row: Row :: row.kind == kind ==> (row in t.stamps <==> row in s.stamps)
  }

  lemma OrderApart(g: Gate, providers: Providers, s: Snapshot, t: Snapshot, kind: string, n: nat)
    requires StampedApart(s, t, kind) && n <= |g.nodeOrder|
    ensures OrderSatisfied(g, s, kind, providers, n) <==> OrderSatisfied(g, t, kind, providers, n)
  {
    forall node ensures NodeSatisfied(s, kind, node, providers) <==> NodeSatisfied(t, kind, node, providers) {
      forall stamp ensures StampSatisfied(s, kind, node, stamp) <==> StampSatisfied(t, kind, node, stamp) {
        SameStamp(s, t, kind, stamp);
      }
    }
  }

  lemma SameStamp(s: Snapshot, t: Snapshot, kind: string, name: string)
    requires StampedApart(s, t, kind)
    ensures Stamped(s, kind, name) <==> Stamped(t, kind, name)
  {
    if kind in s.head { assert Row(kind, s.head[kind], name).kind == kind; }
  }

  /** A kind's checks do not look at other kinds' stamps. */
  lemma ReadyIgnoresOtherKinds(g: Gate, providers: Providers, s: Snapshot, t: Snapshot, kind: string)
    requires StampedApart(s, t, kind)
    ensures Ready(g, providers, s, kind) <==> Ready(g, providers, t, kind)
  {
    OrderApart(g, providers, s, t, kind, |g.nodeOrder|);
    AbsentApart(s, t, kind, Required(g.statutes, kind));
  }

  lemma VerdictIgnoresOtherKinds(g: Gate, providers: Providers, s: Snapshot, t: Snapshot, v: Verdict)
    requires !v.Finished? && StampedApart(s, t, v.kind)
    ensures Justified(g, providers, s, v) <==> Justified(g, providers, t, v)
    ensures ItemsAfter(s, v) == ItemsAfter(t, v)
  {
    if (v.Refine? || v.FetchStamp?) && v.position < |g.nodeOrder| {
      OrderApart(g, providers, s, t, v.kind, v.position);
      SameStamp(s, t, v.kind, v.stamp);
    }
    OrderApart(g, providers, s, t, v.kind, |g.nodeOrder|);
    AbsentApart(s, t, v.kind, Required(g.statutes, v.kind));
  }

  lemma {:induction false} AbsentApart(s: Snapshot, t: Snapshot, kind: string, names: seq<string>)
    requires StampedApart(s, t, kind)
    ensures Absent(s, kind, names) == Absent(t, kind, names)
  {
    if names != [] {
      AbsentApart(s, t, kind, names[..|names| - 1]);
    }
  }

  // -------------------------------------------------------- why a visit ends in an error

  /** The first nodeOrder stamp the kind lacks cannot be fetched: there is no artefact, or no route to its provider. */
  ghost predicate StampUnreachable(g: Gate, providers: Providers, s: Snapshot, kind: string, i: nat, stamp: string) {
    && i < |g.nodeOrder| && OrderSatisfied(g, s, kind, providers, i)
    && stamp in Provided(g.nodeOrder[i], kind, providers) && !Stamped(s, kind, stamp)
    && (kind !in s.head || g.nodeOrder[i] !in RoutesOf(g.topo.self.outputs))
  }

  /** The first missing law stamp has no provider, or Sort no route to the provider. */
  ghost predicate AttestationUnreachable(g: Gate, kind: string, missing: seq<string>) {
    missing != [] && exists provider ::
      && AttestationProvider(missing[0], kind, g.nodeOrder, g.topo.nodes, provider)
      && (provider.None? || provider.value !in RoutesOf(g.topo.self.outputs))
  }

  /** A kind no other check holds back, on which the next step cannot be taken: the only errors of working services. */
  ghost predicate Blocked(g: Gate, providers: Providers, s: Snapshot, kind: string) {
    var missing := MissingAttestations(s, kind, g.statutes);
    && Quiet(g, s, kind)
    && if !OrderSatisfied(g, s, kind, providers, |g.nodeOrder|) then
         exists i: nat, stamp :: StampUnreachable(g, providers, s, kind, i, stamp)
       else if missing != [] then kind !in s.head || AttestationUnreachable(g, kind, missing)
       else !Addressed(s, kind) && Provided(g.topo.self.name, kind, providers) != {} && kind !in s.head
  }

  lemma BlockedApart(g: Gate, providers: Providers, s: Snapshot, t: Snapshot, kind: string)
    requires StampedApart(s, t, kind) && Blocked(g, providers, s, kind)
    ensures Blocked(g, providers, t, kind)
  {
    OrderApart(g, providers, s, t, kind, |g.nodeOrder|);
    AbsentApart(s, t, kind, Required(g.statutes, kind));
    if i: nat, stamp :| StampUnreachable(g, providers, s, kind, i, stamp) {
      OrderApart(g, providers, s, t, kind, i);
      SameStamp(s, t, kind, stamp);
      assert StampUnreachable(g, providers, t, kind, i, stamp);
    }
  }

  // ------------------------------------------------------------------- the visit

  /** Nothing was submitted, or one result, justified by a check the kind fails; a failed submission may have arrived. */
  ghost predicate SentFor(g: Gate, providers: Providers, s: Snapshot, kind: string, before: seq<Action>, after: seq<Action>) {
    after == before
    || exists v: Verdict :: !v.Finished? && v.kind == kind && Justified(g, providers, s, v) && after == before + [ActionFor(g, v)]
  }

  ghost predicate Sent(g: Gate, providers: Providers, s: Snapshot, before: seq<Action>, after: seq<Action>) {
    after == before || exists v: Verdict :: Justified(g, providers, s, v) && after == before + [ActionFor(g, v)]
  }

  method CheckDeadlock(w: Workitem, g: Gate, kind: string) returns (r: Result<Option<string>>)
    requires kind in g.topo.exitContract
    modifies w`faults, w`items
    ensures r.Err? ==> w.faults > old(w.faults) && TurnItems(g, map[], old(w.Snap()), kind, w.items)
    ensures r.Ok? ==> w.faults == old(w.faults)
    ensures r.Ok? && r.value.None? ==> w.items == old(w.items) && Quiet(g, old(w.Snap()), kind)
    ensures r.Ok? && r.value.Some? ==>
              && Justified(g, map[], old(w.Snap()), Escalate(kind, r.value.value))
              && w.items == ItemsAfter(old(w.Snap()), Escalate(kind, r.value.value))
  {
    var threshold := Threshold(g.deadlockThreshold);
    var list := w.GetFeedback(kind);
    if list.Err? { return Err("get feedback"); }
    var ids := list.value;
    for i := 0 to |ids|
      invariant w.faults == old(w.faults) && w.items == old(w.items)
      invariant forall id :: id in ids ==> id in w.items
      invariant forall j :: 0 <= j < i ==> !Escalates(w.items[ids[j]], threshold)
    {
      var item := w.items[ids[i]];
      if item.state == Resolved || item.state == WontFix || item.state == Rejected {
        continue;
      }
      if item.state == Deadlocked {
        return Ok(Some(ids[i]));
      }
      var depth := w.GetDepth(ids[i]);
      if depth.Err? { return Err("get feedback depth"); }
      if depth.value >= threshold {
        var ok := w.Transition(ids[i], Deadlock);
        assert Justified(g, map[], old(w.Snap()), Escalate(kind, ids[i]));
        if !ok { return Err("deadlock feedback"); }
        return Ok(Some(ids[i]));
      }
    }
    return Ok(None);
  }

  method HandleDeadlockedItem(w: Workitem, g: Gate, kind: string, id: string) returns (ok: bool)
    modifies w`faults, w`submitted
    ensures w.faults == old(w.faults) + if ok then 0 else 1
    ensures w.submitted == old(w.submitted) + [ActionFor(g, Escalate(kind, id))] || (!ok && w.submitted == old(w.submitted))
  {
    if id in g.disputes {
      ok := w.Submit(Suspend("dispute_retired(\"" + g.disputes[id] + "\")"));
    } else {
      ok := w.Submit(Route(OUTPUT_ARBITER));
    }
  }

  method HasUnaddressedFeedbackFrom(w: Workitem, kind: string, source: string) returns (r: Result<bool>)
    modifies w`faults
    ensures r.Ok? ==> w.faults == old(w.faults) && r.value == Unaddressed(w.Snap(), kind, source)
    ensures r.Err? ==> w.faults > old(w.faults)
  {
    var list := w.GetFeedback(kind);
    if list.Err? { return Err("get feedback"); }
    for i := 0 to |list.value|
      invariant w.faults == old(w.faults)
      invariant forall j :: 0 <= j < i ==>
                  !(w.items[list.value[j]].source == source && w.items[list.value[j]].state in {New, Rejected})
    {
      var item := w.items[list.value[i]];
      if item.source != source { continue; }
      if item.state == New || item.state == Rejected {
        assert About(w.Snap(), kind, list.value[i]);
        return Ok(true);
      }
    }
    return Ok(false);
  }

  method HasAddressedFeedback(w: Workitem, kind: string) returns (r: Result<bool>)
    modifies w`faults
    ensures r.Ok? ==> w.faults == old(w.faults) && r.value == Addressed(w.Snap(), kind)
    ensures r.Err? ==> w.faults > old(w.faults)
  {
    var list := w.GetFeedback(kind);
    if list.Err? { return Err("get feedback"); }
    for i := 0 to |list.value|
      invariant w.faults == old(w.faults)
      invariant forall j :: 0 <= j < i ==> w.items[list.value[j]].state !in {Actioned, WontFix}
    {
      var item := w.items[list.value[i]];
      if item.state == Actioned || item.state == WontFix {
        assert About(w.Snap(), kind, list.value[i]);
        return Ok(true);
      }
    }
    return Ok(false);
  }

  /** Step 2: each provider in nodeOrder, each of its stamps; None when all are there and answered. */
  method CheckStamps(w: Workitem, g: Gate, providers: Providers, routes: map<string, string>, kind: string)
    returns (r: Result<Option<Verdict>>)
    requires kind in g.topo.exitContract && Quiet(g, w.Snap(), kind) && routes == RoutesOf(g.topo.self.outputs)
    modifies w`faults, w`submitted
    ensures r.Err? ==> w.faults >= old(w.faults) && SentFor(g, providers, w.Snap(), kind, old(w.submitted), w.submitted)
    ensures r.Err? && w.faults == old(w.faults) ==> Blocked(g, providers, w.Snap(), kind)
    ensures r.Ok? ==> w.faults == old(w.faults)
    ensures r.Ok? && r.value.None? ==>
              w.submitted == old(w.submitted) && OrderSatisfied(g, w.Snap(), kind, providers, |g.nodeOrder|)
    ensures r.Ok? && r.value.Some? ==>
              var v := r.value.value;
              (v.Refine? || v.FetchStamp?) && v.kind == kind && Justified(g, providers, w.Snap(), v)
              && w.submitted == old(w.submitted) + [ActionFor(g, v)]
  {
    for i := 0 to |g.nodeOrder|
      invariant w.faults == old(w.faults) && w.submitted == old(w.submitted)
      invariant OrderSatisfied(g, w.Snap(), kind, providers, i)
    {
      var node := g.nodeOrder[i];
      var stamps := StampsProvidedBy(node, kind, providers);
      for j := 0 to |stamps|
        invariant w.faults == old(w.faults) && w.submitted == old(w.submitted)
        invariant forall k :: 0 <= k < j ==> StampSatisfied(w.Snap(), kind, node, stamps[k])
      {
        assert stamps[j] in Provided(node, kind, providers);
        var art := w.GetArtefact(kind);
        if art.Err? {
          assert kind !in w.head ==> StampUnreachable(g, providers, w.Snap(), kind, i, stamps[j])
                                     && !StampSatisfied(w.Snap(), kind, node, stamps[j]);
          return Err("get artefact");
        }
        var hasStamp := w.HasStamp(kind, stamps[j]);
        if hasStamp.Err? { return Err("check stamp"); }
        if hasStamp.value {
          var unaddressed := HasUnaddressedFeedbackFrom(w, kind, node);
          if unaddressed.Err? { return Err("get feedback"); }
          if unaddressed.value {
            assert Justified(g, providers, w.Snap(), Refine(kind, i, stamps[j]));
            var ok := w.Submit(Route(OUTPUT_REFINE));
            if !ok { return Err("route to refine"); }
            return Ok(Some(Refine(kind, i, stamps[j])));
          }
        } else {
          if node !in routes {
            assert StampUnreachable(g, providers, w.Snap(), kind, i, stamps[j]) && !StampSatisfied(w.Snap(), kind, node, stamps[j]);
            return Err("no output route to provider");
          }
          assert Justified(g, providers, w.Snap(), FetchStamp(kind, i, stamps[j], routes[node]));
          var ok := w.Submit(Route(routes[node]));
          if !ok { return Err("route to provider"); }
          return Ok(Some(FetchStamp(kind, i, stamps[j], routes[node])));
        }
      }
    }
    return Ok(None);
  }

  /** Every stamp the attestation check can report is one the router recognises. */
  lemma MissingIsRecognised(s: Snapshot, kind: string, statutes: Statutes, stamp: string)
    requires stamp in MissingAttestations(s, kind, statutes)
    ensures NeededAttestCapability(stamp) != ""
  {
    AbsentIsUnstamped(s, kind, Required(statutes, kind));
    RequiredMeaning(statutes, kind, stamp);
  }

  /** Nothing was submitted, or the route to a provider of the first missing law stamp. */
  ghost predicate AttestSent(g: Gate, kind: string, missing: seq<string>, before: seq<Action>, after: seq<Action>) {
    after == before || exists provider, output :: missing != [] && AttestsFirst(g, kind, missing[0], provider, output)
                         && after == before + [Route(output)]
  }

  ghost predicate AttestsFirst(g: Gate, kind: string, stamp: string, provider: string, output: string) {
    AttestationProvider(stamp, kind, g.nodeOrder, g.topo.nodes, Some(provider)) && RouteTo(g, provider, output)
  }

  /** Step 2b: route to a holder of the attestation the first missing law stamp needs. */
  method RouteAttestation(w: Workitem, g: Gate, routes: map<string, string>, kind: string)
    returns (r: Result<Option<Verdict>>)
    requires routes == RoutesOf(g.topo.self.outputs)
    modifies w`faults, w`submitted
    ensures r.Err? ==> w.faults >= old(w.faults)
                       && AttestSent(g, kind, MissingAttestations(w.Snap(), kind, g.statutes), old(w.submitted), w.submitted)
    ensures r.Err? && w.faults == old(w.faults) ==>
              var missing := MissingAttestations(w.Snap(), kind, g.statutes);
              missing != [] && (kind !in w.head || AttestationUnreachable(g, kind, missing))
    ensures r.Ok? ==> w.faults == old(w.faults)
    ensures r.Ok? ==> (r.value.None? <==> MissingAttestations(w.Snap(), kind, g.statutes) == [])
    ensures r.Ok? && r.value.None? ==> w.submitted == old(w.submitted)
    ensures r.Ok? && r.value.Some? ==>
              var v := r.value.value;
              && v.Attest? && v.kind == kind && v.stamp == MissingAttestations(w.Snap(), kind, g.statutes)[0]
              && AttestationProvider(v.stamp, kind, g.nodeOrder, g.topo.nodes, Some(v.provider))
              && RouteTo(g, v.provider, v.output)
              && w.submitted == old(w.submitted) + [ActionFor(g, v)]
  {
    ghost var lacking := MissingAttestations(w.Snap(), kind, g.statutes);
    var missing := w.VerifyLawAttestations(kind, g.statutes);
    if missing.Err? { return Err("verify law attestations"); }
    assert missing.value == lacking;
    forall stamp | stamp in lacking ensures NeededAttestCapability(stamp) != "" {
      MissingIsRecognised(w.Snap(), kind, g.statutes, stamp);
    }
    r := RouteFirst(w, g, routes, kind, missing.value);
  }

  /** The first missing stamp that is a law stamp decides; a provider or a route that is lacking is an error. */
  method RouteFirst(w: Workitem, g: Gate, routes: map<string, string>, kind: string, missing: seq<string>)
    returns (r: Result<Option<Verdict>>)
    requires routes == RoutesOf(g.topo.self.outputs)
    requires forall stamp :: stamp in missing ==> NeededAttestCapability(stamp) != ""
    modifies w`faults, w`submitted
    ensures r.Err? ==> w.faults >= old(w.faults) && missing != [] && AttestSent(g, kind, missing, old(w.submitted), w.submitted)
    ensures r.Err? && w.faults == old(w.faults) ==> AttestationUnreachable(g, kind, missing)
    ensures r.Ok? ==> w.faults == old(w.faults) && (r.value.None? <==> missing == [])
    ensures r.Ok? && r.value.None? ==> w.submitted == old(w.submitted)
    ensures r.Ok? && r.value.Some? ==>
              var v := r.value.value;
              && v.Attest? && v.kind == kind && v.stamp == missing[0]
              && AttestationProvider(v.stamp, kind, g.nodeOrder, g.topo.nodes, Some(v.provider))
              && RouteTo(g, v.provider, v.output)
              && w.submitted == old(w.submitted) + [ActionFor(g, v)]
  {
    for i := 0 to |missing|
      invariant i == 0 && w.faults == old(w.faults) && w.submitted == old(w.submitted)
    {
      assert missing[i] in missing;
      if NeededAttestCapability(missing[i]) == "" { continue; }
      var provider := FindAttestationProvider(missing[i], kind, g.nodeOrder, g.topo.nodes);
      if provider.None? { return Err("NO_ATTESTATION_PROVIDER"); }
      if provider.value !in routes { return Err("no output route to attestation provider"); }
      assert AttestsFirst(g, kind, missing[0], provider.value, routes[provider.value]);
      var ok := w.Submit(Route(routes[provider.value]));
      if !ok { return Err("route to attestation provider"); }
      return Ok(Some(Attest(kind, missing[i], provider.value, routes[provider.value])));
    }
    return Ok(None);
  }

  /** Step 3, second half: the stamps Sort provides itself. */
  method ApplyOwnStamps(w: Workitem, g: Gate, providers: Providers, kind: string) returns (ok: bool)
    requires kind in g.topo.exitContract
    modifies w`faults, w`stamps
    ensures w.faults >= old(w.faults) && (ok ==> w.faults == old(w.faults))
    ensures !ok && w.faults == old(w.faults) ==> Provided(g.topo.self.name, kind, providers) != {} && kind !in w.head
    ensures old(w.stamps) <= w.stamps <= old(w.stamps) + OwnRows(g, providers, w.Snap(), {kind})
    ensures ok ==> w.stamps == old(w.stamps) + OwnRows(g, providers, w.Snap(), {kind})
    ensures ok ==> Provided(g.topo.self.name, kind, providers) == {} || kind in w.head
  {
    var mine := StampsProvidedBy(g.topo.self.name, kind, providers);
    if |mine| == 0 { return true; }
    assert mine[0] in Provided(g.topo.self.name, kind, providers);
    var art := w.GetArtefact(kind);
    if art.Err? { return false; }
    ghost var all := OwnRows(g, providers, w.Snap(), {kind});
    for i := 0 to |mine|
      invariant w.faults == old(w.faults) && old(w.stamps) <= w.stamps <= old(w.stamps) + all
      invariant forall j :: 0 <= j < i && mine[j] in g.topo.exitContract[kind] ==>
                  Row(kind, w.head[kind], mine[j]) in w.stamps
    {
      if mine[i] in g.topo.exitContract[kind] {
        assert mine[i] in OwnStamps(g, providers, kind);
        ok := w.Stamp(kind, mine[i]);
        if !ok { return false; }
      }
    }
    forall row | row in all ensures row in w.stamps {
      assert row.name in mine;
    }
    return true;
  }

  /** One turn of the loop over the exit contract; None when the kind is ready and Sort has stamped it. */
  method VisitKind(w: Workitem, g: Gate, providers: Providers, routes: map<string, string>, kind: string)
    returns (r: Result<Option<Verdict>>)
    requires kind in g.topo.exitContract && routes == RoutesOf(g.topo.self.outputs)
    modifies w`faults, w`stamps, w`items, w`submitted
    ensures w.faults >= old(w.faults) && (r.Ok? ==> w.faults == old(w.faults))
    ensures old(w.stamps) <= w.stamps <= old(w.stamps) + OwnRows(g, providers, old(w.Snap()), {kind})
    ensures w.stamps != old(w.stamps) ==> Ready(g, providers, old(w.Snap()), kind)
    ensures TurnItems(g, providers, old(w.Snap()), kind, w.items)
    ensures r.Err? ==> SentFor(g, providers, old(w.Snap()), kind, old(w.submitted), w.submitted)
    ensures r.Err? && w.faults == old(w.faults) ==> Blocked(g, providers, old(w.Snap()), kind)
    ensures r.Ok? && r.value.None? ==>
              && Ready(g, providers, old(w.Snap()), kind)
              && w.submitted == old(w.submitted) && w.items == old(w.items)
              && w.stamps == old(w.stamps) + OwnRows(g, providers, old(w.Snap()), {kind})
    ensures r.Ok? && r.value.Some? ==>
              var v := r.value.value;
              && !v.Finished? && v.kind == kind && Justified(g, providers, old(w.Snap()), v)
              && !Ready(g, providers, old(w.Snap()), kind)
              && w.submitted == old(w.submitted) + [ActionFor(g, v)]
              && w.stamps == old(w.stamps) && w.items == ItemsAfter(old(w.Snap()), v)
  {
    var deadlocked := CheckDeadlock(w, g, kind);
    if deadlocked.Err? { return Err(deadlocked.error); }
    if deadlocked.value.Some? {
      var id := deadlocked.value.value;
      var ok := HandleDeadlockedItem(w, g, kind, id);
      assert Justified(g, providers, old(w.Snap()), Escalate(kind, id));
      if !ok { return Err("dispatch deadlocked item"); }
      return Ok(Some(Escalate(kind, id)));
    }
    var stamps := CheckStamps(w, g, providers, routes, kind);
    if stamps.Err? || stamps.value.Some? { return stamps; }
    r := FinishKind(w, g, providers, routes, kind);
  }

  /** Steps 2b and 3 of a turn, for a kind without deadlocks and with its nodeOrder stamps in order. */
  method FinishKind(w: Workitem, g: Gate, providers: Providers, routes: map<string, string>, kind: string)
    returns (r: Result<Option<Verdict>>)
    requires kind in g.topo.exitContract && routes == RoutesOf(g.topo.self.outputs)
    requires Quiet(g, w.Snap(), kind) && OrderSatisfied(g, w.Snap(), kind, providers, |g.nodeOrder|)
    modifies w`faults, w`stamps, w`submitted
    ensures w.faults >= old(w.faults) && (r.Ok? ==> w.faults == old(w.faults))
    ensures old(w.stamps) <= w.stamps <= old(w.stamps) + OwnRows(g, providers, old(w.Snap()), {kind})
    ensures w.stamps != old(w.stamps) ==> Ready(g, providers, old(w.Snap()), kind)
    ensures r.Err? ==> SentFor(g, providers, old(w.Snap()), kind, old(w.submitted), w.submitted)
    ensures r.Err? && w.faults == old(w.faults) ==> Blocked(g, providers, old(w.Snap()), kind)
    ensures r.Ok? && r.value.None? ==>
              && Ready(g, providers, old(w.Snap()), kind) && w.submitted == old(w.submitted)
              && w.stamps == old(w.stamps) + OwnRows(g, providers, old(w.Snap()), {kind})
    ensures r.Ok? && r.value.Some? ==>
              var v := r.value.value;
              && (v.Attest? || v.Adjudicate?) && v.kind == kind && Justified(g, providers, old(w.Snap()), v)
              && !Ready(g, providers, old(w.Snap()), kind)
              && w.submitted == old(w.submitted) + [ActionFor(g, v)] && w.stamps == old(w.stamps)
  {
    var attest := RouteAttestation(w, g, routes, kind);
    if attest.Err? {
      AttestIsSentFor(g, providers, old(w.Snap()), kind, old(w.submitted), w.submitted);
      return attest;
    }
    if attest.value.Some? { return attest; }
    var addressed := HasAddressedFeedback(w, kind);
    if addressed.Err? { return Err("get feedback"); }
    if addressed.value {
      assert Justified(g, providers, w.Snap(), Adjudicate(kind));
      var ok := w.Submit(Route(OUTPUT_APPRAISAL));
      if !ok { return Err("route to appraisal"); }
      return Ok(Some(Adjudicate(kind)));
    }
    var ok := ApplyOwnStamps(w, g, providers, kind);
    assert old(w.Snap()).head == w.head;
    assert Provided(g.topo.self.name, kind, providers) == {} || kind in w.head ==> Ready(g, providers, old(w.Snap()), kind);
    assert kind !in w.head ==> OwnRows(g, providers, old(w.Snap()), {kind}) == {};
    if !ok { return Err("stamp"); }
    return Ok(None);
  }

  lemma AttestIsSentFor(g: Gate, providers: Providers, s: Snapshot, kind: string, before: seq<Action>, after: seq<Action>)
    requires kind in g.topo.exitContract
    requires Quiet(g, s, kind) && OrderSatisfied(g, s, kind, providers, |g.nodeOrder|)
    requires AttestSent(g, kind, MissingAttestations(s, kind, g.statutes), before, after)
    ensures SentFor(g, providers, s, kind, before, after)
  {
    if after != before {
      var missing := MissingAttestations(s, kind, g.statutes);
      var provider, output :| missing != [] && AttestsFirst(g, kind, missing[0], provider, output) && after == before + [Route(output)];
      var v := Attest(kind, missing[0], provider, output);
      assert Justified(g, providers, s, v) && after == before + [ActionFor(g, v)];
    }
  }

  lemma OwnRowsUnion(g: Gate, providers: Providers, s: Snapshot, done: set<string>, kind: string)
    requires done + {kind} <= g.topo.exitContract.Keys
    ensures OwnRows(g, providers, s, done + {kind}) == OwnRows(g, providers, s, done) + OwnRows(g, providers, s, {kind})
  {
  }

  /** The snapshot s with Sort's stamps on the kinds already done. */
  ghost function Progress(g: Gate, providers: Providers, s: Snapshot, done: set<string>): Snapshot
    requires done <= g.topo.exitContract.Keys
  {
    s.(stamps := s.stamps + OwnRows(g, providers, s, done))
  }

  lemma ProgressIsEffect(g: Gate, providers: Providers, s: Snapshot, done: set<string>)
    requires done <= g.topo.exitContract.Keys && forall k :: k in done ==> Ready(g, providers, s, k)
    ensures VisitEffect(g, providers, s, Progress(g, providers, s, done))
  {
  }

  /** VisitKind, told against the snapshot s the whole visit started from. */
  method NextKind(w: Workitem, g: Gate, providers: Providers, routes: map<string, string>, kind: string,
                  ghost s: Snapshot, ghost done: set<string>)
    returns (r: Result<Option<Verdict>>)
    requires kind in g.topo.exitContract && kind !in done && done <= g.topo.exitContract.Keys
    requires routes == RoutesOf(g.topo.self.outputs)
    requires w.Snap() == Progress(g, providers, s, done)
    requires forall k :: k in done ==> Ready(g, providers, s, k)
    modifies w`faults, w`stamps, w`items, w`submitted
    ensures w.faults >= old(w.faults) && (r.Ok? ==> w.faults == old(w.faults))
    ensures VisitEffect(g, providers, s, w.Snap())
    ensures r.Err? ==> SentFor(g, providers, s, kind, old(w.submitted), w.submitted)
    ensures r.Err? && w.faults == old(w.faults) ==> Blocked(g, providers, s, kind)
    ensures r.Ok? && r.value.None? ==>
              && Ready(g, providers, s, kind) && w.submitted == old(w.submitted)
              && w.Snap() == Progress(g, providers, s, done + {kind})
    ensures r.Ok? && r.value.Some? ==>
              var v := r.value.value;
              && !v.Finished? && v.kind == kind && Justified(g, providers, s, v) && !Ready(g, providers, s, kind)
              && w.submitted == old(w.submitted) + [ActionFor(g, v)] && w.items == ItemsAfter(s, v)
  {
    ghost var t, sent := w.Snap(), w.submitted;
    ProgressApart(g, providers, s, done, kind);
    r := VisitKind(w, g, providers, routes, kind);
    TurnEffect(g, providers, s, w.Snap(), done, kind);
    ReadyIgnoresOtherKinds(g, providers, s, t, kind);
    if r.Err? {
      SentApart(g, providers, t, s, kind, sent, w.submitted);
      if w.faults == old(w.faults) { BlockedApart(g, providers, t, s, kind); }
    } else if r.value.Some? {
      VerdictIgnoresOtherKinds(g, providers, s, t, r.value.value);
    }
  }

  lemma SentApart(g: Gate, providers: Providers, s: Snapshot, t: Snapshot, kind: string, before: seq<Action>, after: seq<Action>)
    requires StampedApart(s, t, kind) && SentFor(g, providers, s, kind, before, after)
    ensures SentFor(g, providers, t, kind, before, after)
  {
    if after != before {
      var v: Verdict :| !v.Finished? && v.kind == kind && Justified(g, providers, s, v) && after == before + [ActionFor(g, v)];
      VerdictIgnoresOtherKinds(g, providers, s, t, v);
    }
  }

  lemma ProgressApart(g: Gate, providers: Providers, s: Snapshot, done: set<string>, kind: string)
    requires kind in g.topo.exitContract && kind !in done && done <= g.topo.exitContract.Keys
    ensures var t := Progress(g, providers, s, done);
            && StampedApart(s, t, kind) && StampedApart(t, s, kind)
            && OwnRows(g, providers, t, {kind}) == OwnRows(g, providers, s, {kind})
            && t.stamps + OwnRows(g, providers, s, {kind}) == Progress(g, providers, s, done + {kind}).stamps
  {
    OwnRowsUnion(g, providers, s, done, kind);
  }

  /** The kind's checks, made on the progress so far, say what they would have said at the start. */
  lemma TurnFromStart(g: Gate, providers: Providers, s: Snapshot, done: set<string>, kind: string)
    requires kind in g.topo.exitContract && kind !in done && done <= g.topo.exitContract.Keys
    ensures var t := Progress(g, providers, s, done);
            && (Ready(g, providers, s, kind) <==> Ready(g, providers, t, kind))
            && (forall v: Verdict :: !v.Finished? && v.kind == kind ==>
                  (Justified(g, providers, s, v) <==> Justified(g, providers, t, v)) && ItemsAfter(s, v) == ItemsAfter(t, v))
            && OwnRows(g, providers, t, {kind}) == OwnRows(g, providers, s, {kind})
            && t.stamps + OwnRows(g, providers, s, {kind}) == Progress(g, providers, s, done + {kind}).stamps
  {
    var t := Progress(g, providers, s, done);
    ProgressApart(g, providers, s, done, kind);
    ReadyIgnoresOtherKinds(g, providers, s, t, kind);
    forall v: Verdict | !v.Finished? && v.kind == kind
      ensures (Justified(g, providers, s, v) <==> Justified(g, providers, t, v)) && ItemsAfter(s, v) == ItemsAfter(t, v)
    {
      VerdictIgnoresOtherKinds(g, providers, s, t, v);
    }
  }

  ghost predicate TurnItems(g: Gate, providers: Providers, s: Snapshot, kind: string, items: map<string, Item>) {
    items == s.items
    || exists v: Verdict :: v.Escalate? && v.kind == kind && Justified(g, providers, s, v) && items == ItemsAfter(s, v)
  }

  lemma TurnEffect(g: Gate, providers: Providers, s: Snapshot, u: Snapshot, done: set<string>, kind: string)
    requires kind in g.topo.exitContract && kind !in done && done <= g.topo.exitContract.Keys
    requires forall k :: k in done ==> Ready(g, providers, s, k)
    requires var t := Progress(g, providers, s, done);
             && u.head == s.head && t.stamps <= u.stamps <= t.stamps + OwnRows(g, providers, t, {kind})
             && (u.stamps != t.stamps ==> Ready(g, providers, t, kind))
             && TurnItems(g, providers, t, kind, u.items)
    ensures VisitEffect(g, providers, s, u)
  {
    TurnFromStart(g, providers, s, done, kind);
    forall row | row in u.stamps - s.stamps
      ensures row.kind in g.topo.exitContract && Ready(g, providers, s, row.kind)
              && row in OwnRows(g, providers, s, {row.kind})
    {
    }
  }

  /** The loop over the exit contract, and completion after it. */
  method WalkExitContract(w: Workitem, g: Gate, providers: Providers, routes: map<string, string>) returns (r: Result<Verdict>)
    requires routes == RoutesOf(g.topo.self.outputs)
    modifies w`faults, w`stamps, w`items, w`submitted
    ensures w.faults >= old(w.faults)
    ensures VisitEffect(g, providers, old(w.Snap()), w.Snap())
    ensures r.Err? ==> Sent(g, providers, old(w.Snap()), old(w.submitted), w.submitted)
    ensures r.Err? && w.faults == old(w.faults) ==>
              && !AllReady(g, providers, old(w.Snap()))
              && exists kind :: kind in g.topo.exitContract && Blocked(g, providers, old(w.Snap()), kind)
    ensures r.Ok? ==>
              && Justified(g, providers, old(w.Snap()), r.value)
              && (r.value.Finished? <==> AllReady(g, providers, old(w.Snap())))
              && w.submitted == old(w.submitted) + [ActionFor(g, r.value)]
              && w.items == ItemsAfter(old(w.Snap()), r.value)
    ensures r == Ok(Finished) ==> w.Snap() == Progress(g, providers, old(w.Snap()), g.topo.exitContract.Keys)
  {
    ghost var s := w.Snap();
    assert Progress(g, providers, s, {}) == s;
    var rest := g.topo.exitContract.Keys;
    ghost var done: set<string> := {};
    while rest != {}
      invariant rest !! done && rest + done == g.topo.exitContract.Keys
      invariant w.faults == old(w.faults) && w.submitted == old(w.submitted)
      invariant forall kind :: kind in done ==> Ready(g, providers, s, kind)
      invariant w.Snap() == Progress(g, providers, s, done)
    {
      var kind :| kind in rest;
      var turn := NextKind(w, g, providers, routes, kind, s, done);
      if turn.Err? {
        assert w.faults == old(w.faults) ==> Blocked(g, providers, s, kind) && !Ready(g, providers, s, kind);
        return Err(turn.error);
      }
      if turn.value.Some? { return Ok(turn.value.value); }
      rest, done := rest - {kind}, done + {kind};
    }
    ProgressIsEffect(g, providers, s, g.topo.exitContract.Keys);
    assert Justified(g, providers, s, Finished);
    var ok := w.Submit(Complete);
    if !ok { return Err("complete"); }
    return Ok(Finished);
  }

  /**
   * One Sort visit. A nil-error visit submits exactly one result, justified by the first check some kind
   * fails; it completes the workitem exactly when every kind of the exit contract is ready at the start,
   * in whatever order the kinds, stamps and items are walked. Without a failed RPC, an error means that
   * some kind was blocked: its artefact, a route or an attestation provider is missing.
   */
  method HandleSort(w: Workitem, g: Gate) returns (r: Result<Verdict>, ghost providers: Providers)
    modifies w`faults, w`stamps, w`items, w`submitted
    ensures IsResolution(g.topo.nodes, providers)
    ensures w.faults >= old(w.faults)
    ensures VisitEffect(g, providers, old(w.Snap()), w.Snap())
    ensures r.Err? ==> Sent(g, providers, old(w.Snap()), old(w.submitted), w.submitted)
    ensures r.Err? && w.faults == old(w.faults) ==>
              && !AllReady(g, providers, old(w.Snap()))
              && exists kind :: kind in g.topo.exitContract && Blocked(g, providers, old(w.Snap()), kind)
    ensures r.Ok? ==>
              && Justified(g, providers, old(w.Snap()), r.value)
              && (r.value.Finished? <==> AllReady(g, providers, old(w.Snap())))
              && w.submitted == old(w.submitted) + [ActionFor(g, r.value)]
              && w.items == ItemsAfter(old(w.Snap()), r.value)
    // The result itself: one per check.
    ensures r.Ok? ==>
              var v, action := r.value, w.submitted[|w.submitted| - 1];
              && (action == Complete <==> AllReady(g, providers, old(w.Snap())))
              && (v.Refine? ==> action == Route("refine"))
              && (v.FetchStamp? || v.Attest? ==> action == Route(v.output))
              && (v.Adjudicate? ==> action == Route("appraisal"))
              && (v.Escalate? && v.id in g.disputes ==> action == Suspend("dispute_retired(\"" + g.disputes[v.id] + "\")"))
              && (v.Escalate? && v.id !in g.disputes ==> action == Route("hitl-arbiter"))
    ensures r == Ok(Finished) ==> w.Snap() == Progress(g, providers, old(w.Snap()), g.topo.exitContract.Keys)
  {
    var built := BuildStampProviders(g.topo.nodes);
    providers := built;
    assert VisitEffect(g, providers, w.Snap(), w.Snap());
    var alive := w.Heartbeat();
    if !alive { return Err("heartbeat"), providers; }
    var topologyKnown, _ := w.Rpc();
    if !topologyKnown { return Err("get flow topology"), providers; }
    var routes := BuildOutputRoutes(g.topo.self);
    r := WalkExitContract(w, g, built, routes);
  }
}
