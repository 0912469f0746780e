/** What the gate guarantees: attestation routing, completion, and every run around it. */
module SortTheorems {
  import opened Prelude
  import opened Capability
  import opened CapabilityTheorems
  import opened Feedback
  import opened LawGroups
  import opened Workitem
  import opened Sort

  // --------------------------------------------------------- attestation routing

  /** A node declares a static stamp by a capability of one of the two printed forms, law stamps excepted. */
  lemma DeclaresMeaning(node: Node, kind: string, stamp: string)
    ensures Declares(node, kind, stamp) <==>
              && kind != "" && '/' !in kind && stamp != "" && !("law-" <= stamp) && !("lawgrp-" <= stamp)
              && ("STAMP:artefact/" + kind + "/" + stamp in node.capabilities
                  || "ATTEST:artefact/" + kind + "/" + stamp in node.capabilities)
  {
    forall cap ensures Grants(cap, kind, stamp) <==>
      && kind != "" && '/' !in kind && stamp != "" && !("law-" <= stamp) && !("lawgrp-" <= stamp)
      && (cap == "STAMP:artefact/" + kind + "/" + stamp || cap == "ATTEST:artefact/" + kind + "/" + stamp)
    {
      ParseInvertsPrint(cap, kind, stamp);
    }
    if kind != "" && '/' !in kind && stamp != "" && !("law-" <= stamp) && !("lawgrp-" <= stamp) {
      assert Grants("STAMP:artefact/" + kind + "/" + stamp, kind, stamp);
      assert Grants("ATTEST:artefact/" + kind + "/" + stamp, kind, stamp);
    }
  }

  /** A capability without special characters but the star matches itself. */
  lemma SelfMatch(cap: string)
    requires '*' !in cap || Plain(cap)
    ensures MatchCapability(cap, cap)
  {
    var fills := seq(Stars(cap), i => "*");
    FillWithStars(cap, fills);
    assert IsInstance(cap, cap);
    MatchIsInstance(cap, cap);
  }

  lemma {:induction false} FillWithStars(cap: string, fills: seq<string>)
    requires |fills| == Stars(cap) && forall i :: 0 <= i < |fills| ==> fills[i] == "*"
    ensures Fill(cap, fills) == cap
  {
    if cap != "" {
      FillWithStars(cap[1..], if cap[0] == '*' then fills[1..] else fills);
      assert cap == [cap[0]] + cap[1..];
    }
  }

  ghost predicate PlainKind(kind: string) { '*' !in kind || Plain(kind) }

  lemma RequiredCapabilityIsPlain(kind: string, stamp: string)
    requires PlainKind(kind)
    ensures var cap := RequiredCapability(kind, NeededAttestCapability(stamp)); '*' !in cap || Plain(cap)
  {
  }

  /**
   * On every kind, a list has positive specificity exactly when it holds the attestation or spells the
   * required capability out; the two agree unless the required capability does not even match itself.
   */
  lemma {:induction false} SpecificityMeansHolding(caps: seq<string>, kind: string, needed: string)
    ensures var required := RequiredCapability(kind, needed);
            && (AttestSpecificity(caps, kind, needed) > 0 <==> HasAttestCapability(caps, kind, needed) || required in caps)
            && (MatchCapability(required, required) ==>
                  (AttestSpecificity(caps, kind, needed) > 0 <==> HasAttestCapability(caps, kind, needed)))
  {
    var required := RequiredCapability(kind, needed);
    if caps != [] {
      SpecificityMeansHolding(caps[1..], kind, needed);
      assert caps == [caps[0]] + caps[1..];
      assert HasAttestCapability(caps, kind, needed)
        <==> MatchCapability(caps[0], required) || HasAttestCapability(caps[1..], kind, needed) by {
        assert forall i :: 0 <= i < |caps| - 1 ==> caps[1..][i] == caps[i + 1];
        if HasAttestCapability(caps[1..], kind, needed) {
          var i :| 0 <= i < |caps| - 1 && MatchCapability(caps[1..][i], required);
          assert MatchCapability(caps[i + 1], required);
        }
      }
    }
    if MatchCapability(required, required) && required in caps {
      var i :| 0 <= i < |caps| && caps[i] == required;
      assert MatchCapability(caps[i], required);
    }
  }

  /** So the search and its fallback agree on who qualifies, whatever lists the nodes have, iff that capability matches itself. */
  lemma SearchAgreesIff(kind: string, needed: string)
    ensures (forall caps :: AttestSpecificity(caps, kind, needed) > 0 <==> HasAttestCapability(caps, kind, needed))
       <==> MatchCapability(RequiredCapability(kind, needed), RequiredCapability(kind, needed))
  {
    var required := RequiredCapability(kind, needed);
    if MatchCapability(required, required) {
      forall caps ensures AttestSpecificity(caps, kind, needed) > 0 <==> HasAttestCapability(caps, kind, needed) {
        SpecificityMeansHolding(caps, kind, needed);
      }
    } else {
      var caps := [required];
      assert AttestSpecificity(caps, kind, needed) == 2 && !HasAttestCapability(caps, kind, needed);
    }
  }

  /** Plain and star-free kinds give a required capability that matches itself. */
  lemma PlainKindMatchesItself(kind: string, stamp: string)
    requires PlainKind(kind)
    ensures var required := RequiredCapability(kind, NeededAttestCapability(stamp)); MatchCapability(required, required)
  {
    RequiredCapabilityIsPlain(kind, stamp);
    SelfMatch(RequiredCapability(kind, NeededAttestCapability(stamp)));
  }

  /** The capability a provider of the law stamp must hold. */
  lemma RequiredCapabilityText(kind: string, stamp: string)
    ensures "lawgrp-" <= stamp ==> RequiredCapability(kind, NeededAttestCapability(stamp)) == "ATTEST:artefact/" + kind + "/law-group"
    ensures "law-" <= stamp ==> RequiredCapability(kind, NeededAttestCapability(stamp)) == "ATTEST:artefact/" + kind + "/law-id"
  {
    if "law-" <= stamp { assert stamp[3] == '-' && "lawgrp-"[3] == 'g'; }
    assert ATTEST_PREFIX + kind + "/" + "law-group" == ATTEST_PREFIX + kind + "/law-group";
    assert ATTEST_PREFIX + kind + "/" + "law-id" == ATTEST_PREFIX + kind + "/law-id";
  }

  /** The attestation a missing stamp needs follows from why a law demands it: for its group, or for a representation. */
  lemma AttestationKind(s: Snapshot, kind: string, statutes: Statutes, stamp: string)
    requires stamp in MissingAttestations(s, kind, statutes)
    ensures NeededAttestCapability(stamp) == "law-group"
       <==> exists law :: law in LawsFor(statutes, kind) && stamp == "lawgrp-" + GroupOf(law)
    ensures NeededAttestCapability(stamp) == "law-id"
       <==> exists law :: law in LawsFor(statutes, kind) && Config(statutes.groups, GroupOf(law)).mode == MODE_LAW_BY_LAW
              && NamesLaw(law, stamp)
  {
    AbsentIsUnstamped(s, kind, Required(statutes, kind));
    RequiredMeaning(statutes, kind, stamp);
    forall law ensures stamp == "lawgrp-" + GroupOf(law) ==> "lawgrp-" <= stamp {
    }
    forall law ensures NamesLaw(law, stamp) ==> "law-" <= stamp && !("lawgrp-" <= stamp) {
      if NamesLaw(law, stamp) { assert stamp[3] == '-' && "lawgrp-"[3] == 'g'; }
    }
  }

  /** The node may attest, or lists the required capability word for word. */
  ghost predicate Qualifies(nodes: map<string, Node>, name: string, kind: string, needed: string) {
    HoldsAttest(nodes, name, kind, needed) || (name in nodes && RequiredCapability(kind, needed) in nodes[name].capabilities)
  }

  /**
   * On every kind, a chosen provider qualifies and nobody is chosen only when no node of the flow does. On
   * plain kinds qualifying is holding the attestation.
   */
  lemma ProviderHolds(stamp: string, kind: string, nodeOrder: seq<string>, nodes: map<string, Node>, provider: Option<string>)
    requires NeededAttestCapability(stamp) != ""
    requires AttestationProvider(stamp, kind, nodeOrder, nodes, provider)
    ensures provider.Some? ==> Qualifies(nodes, provider.value, kind, NeededAttestCapability(stamp))
    ensures provider.None? <==> forall name :: !Qualifies(nodes, name, kind, NeededAttestCapability(stamp))
    ensures PlainKind(kind) ==> forall name ::
              Qualifies(nodes, name, kind, NeededAttestCapability(stamp)) <==> HoldsAttest(nodes, name, kind, NeededAttestCapability(stamp))
  {
    var needed := NeededAttestCapability(stamp);
    forall name | name in nodes
      ensures SpecificityOf(nodes, name, kind, needed) > 0 <==> Qualifies(nodes, name, kind, needed)
      ensures PlainKind(kind) ==> (Qualifies(nodes, name, kind, needed) <==> HoldsAttest(nodes, name, kind, needed))
    {
      SpecificityMeansHolding(nodes[name].capabilities, kind, needed);
      if PlainKind(kind) { PlainKindMatchesItself(kind, stamp); }
    }
    if i: nat :| FirstHolder(nodeOrder, nodes, kind, needed, i) {
      assert Qualifies(nodes, nodeOrder[i], kind, needed);
    } else if name :| BestFallback(nodes, kind, needed, name) {
      assert Qualifies(nodes, name, kind, needed);
    } else {
      assert forall name :: name in nodes ==> !Qualifies(nodes, name, kind, needed);
    }
  }

  ghost predicate MayAttest(nodes: map<string, Node>, name: string, required: string) {
    name in nodes && exists i :: 0 <= i < |nodes[name].capabilities| && MatchCapability(nodes[name].capabilities[i], required)
  }

  ghost predicate FirstToAttest(nodeOrder: seq<string>, nodes: map<string, Node>, required: string, i: int) {
    && 0 <= i < |nodeOrder| && MayAttest(nodes, nodeOrder[i], required)
    && forall j :: 0 <= j < i ==> !MayAttest(nodes, nodeOrder[j], required)
  }

  /**
   * The choice, spelled out: the first node of nodeOrder that may attest; when none may, the node of greatest
   * specificity, and of several the one with the least name.
   */
  lemma ChoiceSpelledOut(stamp: string, kind: string, nodeOrder: seq<string>, nodes: map<string, Node>, provider: Option<string>)
    requires NeededAttestCapability(stamp) != "" && AttestationProvider(stamp, kind, nodeOrder, nodes, provider)
    ensures var required := RequiredCapability(kind, NeededAttestCapability(stamp));
            && (forall i :: FirstToAttest(nodeOrder, nodes, required, i) ==> provider == Some(nodeOrder[i]))
            && ((forall i :: 0 <= i < |nodeOrder| ==> !MayAttest(nodes, nodeOrder[i], required)) && provider.Some? ==>
                  && provider.value in nodes
                  && forall other :: other in nodes ==>
                       var best := AttestSpecificity(nodes[provider.value].capabilities, kind, NeededAttestCapability(stamp));
                       var its := AttestSpecificity(nodes[other].capabilities, kind, NeededAttestCapability(stamp));
                       its < best || (its == best > 0 && Leq(provider.value, other)))
  {
    var needed := NeededAttestCapability(stamp);
    var required := RequiredCapability(kind, needed);
    assert forall name :: MayAttest(nodes, name, required) <==> HoldsAttest(nodes, name, kind, needed);
    forall i | FirstToAttest(nodeOrder, nodes, required, i) ensures provider == Some(nodeOrder[i])
    {
      assert FirstHolder(nodeOrder, nodes, kind, needed, i);
      var k: nat :| FirstHolder(nodeOrder, nodes, kind, needed, k) && provider == Some(nodeOrder[k]);
      assert k == i;
    }
    if (forall i :: 0 <= i < |nodeOrder| ==> !MayAttest(nodes, nodeOrder[i], required)) && provider.Some? {
      assert forall i: nat :: !FirstHolder(nodeOrder, nodes, kind, needed, i);
      assert BestFallback(nodes, kind, needed, provider.value);
      forall other | other in nodes
        ensures SpecificityOf(nodes, other, kind, needed) == AttestSpecificity(nodes[other].capabilities, kind, needed)
      {
      }
    }
  }

  ghost predicate WildcardMatch(cap: string, required: string) {
    cap != required && '*' in cap && MatchCapability(cap, required)
  }

  /**
   * The specificity is that of the first capability matching either way: exact only when the exact
   * capability is listed before every matching wildcard, not whenever it is listed.
   */
  lemma {:induction false} ExactMustComeFirst(caps: seq<string>, kind: string, needed: string)
    ensures var required := RequiredCapability(kind, needed);
            AttestSpecificity(caps, kind, needed) == 2
            <==> exists i :: 0 <= i < |caps| && caps[i] == required && forall j :: 0 <= j < i ==> !WildcardMatch(caps[j], required)
  {
    var required := RequiredCapability(kind, needed);
    if caps != [] {
      ExactMustComeFirst(caps[1..], kind, needed);
      if caps[0] != required {
        if i :| 0 <= i < |caps| && caps[i] == required && forall j :: 0 <= j < i ==> !WildcardMatch(caps[j], required) {
          assert !WildcardMatch(caps[0], required);
          assert caps[1..][i - 1] == required && forall j :: 0 <= j < i - 1 ==> caps[1..][j] == caps[j + 1];
        }
        if i :| 0 <= i < |caps| - 1 && caps[1..][i] == required && forall j :: 0 <= j < i ==> !WildcardMatch(caps[1..][j], required) {
          if !WildcardMatch(caps[0], required) {
            assert caps[i + 1] == required;
            forall j | 0 <= j < i + 1 ensures !WildcardMatch(caps[j], required) {
              if j > 0 { assert caps[1..][j - 1] == caps[j]; }
            }
          }
        }
      } else {
        assert 0 <= 0 < |caps| && caps[0] == required;
      }
    }
  }

  /** So a holder of the exact capability ranks as a wildcard holder when it lists a wildcard first, on every plain kind. */
  lemma WildcardHidesExact(kind: string, stamp: string)
    requires Plain(kind) && '*' !in kind && NeededAttestCapability(stamp) != ""
    ensures AttestSpecificity([ATTEST_PREFIX + kind + "/" + "*", RequiredCapability(kind, NeededAttestCapability(stamp))],
                              kind, NeededAttestCapability(stamp)) == 1
  {
    var needed := NeededAttestCapability(stamp);
    var literal := ATTEST_PREFIX + kind + "/";
    assert RequiredCapability(kind, needed) == literal + needed;
    StarMatches(literal, needed);
    FirstIsWildcard([literal + "*", RequiredCapability(kind, needed)], kind, needed);
  }

  lemma FirstIsWildcard(caps: seq<string>, kind: string, needed: string)
    requires caps != [] && '*' in caps[0] && '*' !in RequiredCapability(kind, needed)
    requires MatchCapability(caps[0], RequiredCapability(kind, needed))
    ensures AttestSpecificity(caps, kind, needed) == 1
  {
  }

  lemma StarMatches(literal: string, needed: string)
    requires Plain(literal) && '*' !in literal && '/' !in needed
    ensures '*' in literal + "*" && MatchCapability(literal + "*", literal + needed)
  {
    assert Stars("*") == 1 by { assert "*"[1..] == ""; }
    OneStarFill(needed);
    FillPrefix(literal, "*", [needed]);
    assert IsInstance(literal + "*", literal + needed);
    assert (literal + "*")[|literal|] == '*';
    MatchIsInstance(literal + "*", literal + needed);
  }

  lemma OneStarFill(text: string)
    requires Stars("*") == 1
    ensures Fill("*", [text]) == text
  {
    assert "*"[1..] == "" && [text][1..] == [];
    assert Fill("*", [text]) == text + Fill("", []);
  }

  lemma {:induction false} FillPrefix(literal: string, cap: string, fills: seq<string>)
    requires '*' !in literal && |fills| == Stars(cap)
    ensures Stars(literal + cap) == Stars(cap) && Fill(literal + cap, fills) == literal + Fill(cap, fills)
  {
    if literal == "" {
      assert literal + cap == cap;
    } else {
      assert (literal + cap)[1..] == literal[1..] + cap;
      FillPrefix(literal[1..], cap, fills);
    }
  }

  // ------------------------------------------------------------------ completion

  /**
   * Readiness, spelled out. No feedback is deadlocked, waits for a reviewer or has reached the threshold;
   * every stamp a node of nodeOrder provides for the kind is on the current version and the node's own
   * feedback is answered; every stamp a governing law demands is there; and there is a version to stamp.
   */
  lemma ReadySpelledOut(g: Gate, providers: Providers, s: Snapshot, kind: string)
    ensures Ready(g, providers, s, kind) <==>
              && (forall id :: id in s.items && s.items[id].kind == kind ==>
                    s.items[id].state in {New, Rejected, Resolved}
                    && (s.items[id].state == New ==> s.items[id].depth < Threshold(g.deadlockThreshold)))
              && (forall node, stamp :: node in g.nodeOrder && Provider(providers, kind, stamp) == Some(node) ==>
                    && kind in s.head && Row(kind, s.head[kind], stamp) in s.stamps
                    && forall id :: id in s.items && s.items[id].kind == kind && s.items[id].source == node ==>
                         s.items[id].state !in {New, Rejected})
              && (forall stamp :: stamp in Required(g.statutes, kind) ==> kind in s.head && Row(kind, s.head[kind], stamp) in s.stamps)
              && (kind in s.head || forall stamp :: Provider(providers, kind, stamp) != Some(g.topo.self.name))
  {
    FeedbackSpelledOut(g, s, kind);
    OrderSpelledOut(g, providers, s, kind);
    AbsentIsUnstamped(s, kind, Required(g.statutes, kind));
    SomeElement(MissingAttestations(s, kind, g.statutes));
    assert forall stamp :: stamp in Provided(g.topo.self.name, kind, providers) <==> Provider(providers, kind, stamp) == Some(g.topo.self.name);
  }

  /** Who provides the stamp on the kind: its own row decides, the wildcard row only when it has none. */
  function Provider(providers: Providers, kind: string, stamp: string): Option<string> {
    if kind in providers then (if stamp in providers[kind] then Some(providers[kind][stamp]) else None)
    else if "*" in providers && stamp in providers["*"] then Some(providers["*"][stamp])
    else None
  }

  lemma FeedbackSpelledOut(g: Gate, s: Snapshot, kind: string)
    ensures Quiet(g, s, kind) && !Addressed(s, kind) <==>
              forall id :: id in s.items && s.items[id].kind == kind ==>
                s.items[id].state in {New, Rejected, Resolved}
                && (s.items[id].state == New ==> s.items[id].depth < Threshold(g.deadlockThreshold))
  {
    forall id | About(s, kind, id)
      ensures !Escalates(s.items[id], Threshold(g.deadlockThreshold)) && s.items[id].state !in {Actioned, WontFix} <==>
                s.items[id].state in {New, Rejected, Resolved}
                && (s.items[id].state == New ==> s.items[id].depth < Threshold(g.deadlockThreshold))
    {
    }
  }

  lemma OrderSpelledOut(g: Gate, providers: Providers, s: Snapshot, kind: string)
    ensures OrderSatisfied(g, s, kind, providers, |g.nodeOrder|) <==>
              forall node, stamp :: node in g.nodeOrder && Provider(providers, kind, stamp) == Some(node) ==>
                && kind in s.head && Row(kind, s.head[kind], stamp) in s.stamps
                && forall id :: id in s.items && s.items[id].kind == kind && s.items[id].source == node ==>
                     s.items[id].state !in {New, Rejected}
  {
    assert forall node, stamp :: stamp in Provided(node, kind, providers) <==> Provider(providers, kind, stamp) == Some(node);
    forall node ensures Unaddressed(s, kind, node) <==>
      exists id :: id in s.items && s.items[id].kind == kind && s.items[id].source == node && s.items[id].state in {New, Rejected}
    {
      if id :| id in s.items && s.items[id].kind == kind && s.items[id].source == node && s.items[id].state in {New, Rejected} {
        assert About(s, kind, id);
      }
    }
    forall node, stamp ensures StampSatisfied(s, kind, node, stamp) <==>
      && kind in s.head && Row(kind, s.head[kind], stamp) in s.stamps
      && forall id :: id in s.items && s.items[id].kind == kind && s.items[id].source == node ==>
           s.items[id].state !in {New, Rejected}
    {
    }
    if forall node, stamp :: node in g.nodeOrder && Provider(providers, kind, stamp) == Some(node) ==> StampSatisfied(s, kind, node, stamp) {
      forall i | 0 <= i < |g.nodeOrder| ensures NodeSatisfied(s, kind, g.nodeOrder[i], providers) {
        assert g.nodeOrder[i] in g.nodeOrder;
      }
    }
    if OrderSatisfied(g, s, kind, providers, |g.nodeOrder|) {
      forall node, stamp | node in g.nodeOrder && Provider(providers, kind, stamp) == Some(node)
        ensures StampSatisfied(s, kind, node, stamp)
      {
        var i :| 0 <= i < |g.nodeOrder| && g.nodeOrder[i] == node;
        assert NodeSatisfied(s, kind, g.nodeOrder[i], providers);
      }
    }
  }

  /** The gate sees to the stamp: a node of nodeOrder or Sort itself provides it, or a governing law demands it. */
  ghost predicate Assured(g: Gate, providers: Providers, kind: string, stamp: string) {
    || (stamp in ProviderRow(kind, providers)
        && (ProviderRow(kind, providers)[stamp] in g.nodeOrder || ProviderRow(kind, providers)[stamp] == g.topo.self.name))
    || stamp in Required(g.statutes, kind)
  }

  ghost predicate InContract(g: Gate, kind: string, stamp: string) {
    kind in g.topo.exitContract && stamp in g.topo.exitContract[kind]
  }

  /** What a completing visit that found s leaves behind. */
  ghost function Completed(g: Gate, providers: Providers, s: Snapshot): Snapshot {
    Progress(g, providers, s, g.topo.exitContract.Keys)
  }

  /** RESOLVED, or open but not from a node whose stamp the gate waits for. */
  ghost predicate Settled(g: Gate, providers: Providers, kind: string, item: Item) {
    || item.state == Resolved
    || ((item.state == Rejected || (item.state == New && item.depth < Threshold(g.deadlockThreshold)))
        && (item.source !in g.nodeOrder || Provided(item.source, kind, providers) == {}))
  }

  /**
   * Completion means the contract is met: s is the snapshot the completing visit found; what it leaves
   * carries every assured contract stamp and every law stamp, and all feedback on it is settled.
   */
  lemma CompletionMeansContract(g: Gate, providers: Providers, s: Snapshot, kind: string)
    requires Justified(g, providers, s, Finished) && kind in g.topo.exitContract
    ensures var t := Completed(g, providers, s);
            && (forall stamp :: InContract(g, kind, stamp) && Assured(g, providers, kind, stamp) ==> Stamped(t, kind, stamp))
            && MissingAttestations(t, kind, g.statutes) == []
            && (forall id :: About(t, kind, id) ==> Settled(g, providers, kind, t.items[id]))
  {
    var t := Completed(g, providers, s);
    assert Ready(g, providers, s, kind);
    forall stamp | InContract(g, kind, stamp) && Assured(g, providers, kind, stamp) ensures Stamped(t, kind, stamp) {
      AssuredStampIsThere(g, providers, s, kind, stamp);
    }
    MoreStampsMissLess(s, t, kind, Required(g.statutes, kind));
    forall id | About(s, kind, id) ensures Settled(g, providers, kind, s.items[id]) {
      ReadyIsSettled(g, providers, s, kind, id);
    }
  }

  lemma AssuredStampIsThere(g: Gate, providers: Providers, s: Snapshot, kind: string, stamp: string)
    requires InContract(g, kind, stamp) && Assured(g, providers, kind, stamp) && Ready(g, providers, s, kind)
    ensures Stamped(Completed(g, providers, s), kind, stamp)
  {
    if stamp in Required(g.statutes, kind) {
      AbsentIsUnstamped(s, kind, Required(g.statutes, kind));
      assert stamp !in MissingAttestations(s, kind, g.statutes);
    } else {
      var provider := ProviderRow(kind, providers)[stamp];
      assert stamp in Provided(provider, kind, providers);
      if provider in g.nodeOrder {
        var i :| 0 <= i < |g.nodeOrder| && g.nodeOrder[i] == provider;
        assert NodeSatisfied(s, kind, g.nodeOrder[i], providers);
        assert StampSatisfied(s, kind, provider, stamp);
      } else {
        assert Row(kind, s.head[kind], stamp) in OwnRows(g, providers, s, g.topo.exitContract.Keys);
      }
    }
  }

  /** Completion always meets the whole contract. */
  ghost predicate ContractAlwaysMet(g: Gate, providers: Providers) {
    forall s, kind, stamp :: AllReady(g, providers, s) && InContract(g, kind, stamp) ==> Stamped(Completed(g, providers, s), kind, stamp)
  }

  /**
   * The exit contract is more than a wish exactly when each of its stamps is assured: one that no node of
   * nodeOrder and not Sort provides, and no law demands, can be missing from a completed workitem.
   */
  lemma ContractAlwaysMetIff(g: Gate, providers: Providers)
    ensures ContractAlwaysMet(g, providers)
       <==> forall kind, stamp :: InContract(g, kind, stamp) ==> Assured(g, providers, kind, stamp)
  {
    if forall kind, stamp :: InContract(g, kind, stamp) ==> Assured(g, providers, kind, stamp) {
      forall s, kind, stamp | AllReady(g, providers, s) && InContract(g, kind, stamp)
        ensures Stamped(Completed(g, providers, s), kind, stamp)
      {
        AssuredStampIsThere(g, providers, s, kind, stamp);
      }
    } else {
      var kind, stamp :| InContract(g, kind, stamp) && !Assured(g, providers, kind, stamp);
      CompletesWithout(g, providers, kind, stamp);
    }
  }

  ghost function Wanted(g: Gate, providers: Providers, kind: string): set<string> {
    ProviderRow(kind, providers).Keys + set stamp | stamp in Required(g.statutes, kind)
  }

  /** Every kind stored once and stamped with all the gate may look for, but for one stamp on one kind. */
  ghost function AllBut(g: Gate, providers: Providers, kind: string, stamp: string): Snapshot {
    Snapshot(map k | k in g.topo.exitContract :: "v",
             set k, x | k in g.topo.exitContract.Keys && x in Wanted(g, providers, k) && (k != kind || x != stamp) :: Row(k, "v", x),
             map[])
  }

  lemma CompletesWithout(g: Gate, providers: Providers, kind: string, stamp: string)
    requires InContract(g, kind, stamp) && !Assured(g, providers, kind, stamp)
    ensures AllReady(g, providers, AllBut(g, providers, kind, stamp))
    ensures !Stamped(Completed(g, providers, AllBut(g, providers, kind, stamp)), kind, stamp)
  {
    var s := AllBut(g, providers, kind, stamp);
    forall k | k in g.topo.exitContract ensures Ready(g, providers, s, k) {
      forall i | 0 <= i < |g.nodeOrder| ensures NodeSatisfied(s, k, g.nodeOrder[i], providers) {
        forall x | x in Provided(g.nodeOrder[i], k, providers) ensures StampSatisfied(s, k, g.nodeOrder[i], x) {
          assert Row(k, "v", x) in s.stamps;
        }
      }
      forall x | x in Required(g.statutes, k) ensures Stamped(s, k, x) {
        assert Row(k, "v", x) in s.stamps;
      }
      AbsentIsUnstamped(s, k, Required(g.statutes, k));
      SomeElement(MissingAttestations(s, k, g.statutes));
    }
  }

  lemma SomeElement(xs: seq<string>)
    ensures xs != [] ==> exists x :: x in xs
  {
    if xs != [] { assert xs[0] in xs; }
  }

  lemma ReadyIsSettled(g: Gate, providers: Providers, s: Snapshot, kind: string, id: string)
    requires Ready(g, providers, s, kind) && About(s, kind, id)
    ensures Settled(g, providers, kind, s.items[id])
  {
    var item := s.items[id];
    if item.source in g.nodeOrder && Provided(item.source, kind, providers) != {} {
      var i :| 0 <= i < |g.nodeOrder| && g.nodeOrder[i] == item.source;
      var stamp :| stamp in Provided(item.source, kind, providers);
      assert StampSatisfied(s, kind, g.nodeOrder[i], stamp);
    }
  }

  lemma {:induction false} MoreStampsMissLess(s: Snapshot, t: Snapshot, kind: string, names: seq<string>)
    requires t.head == s.head && s.stamps <= t.stamps && Absent(s, kind, names) == []
    ensures Absent(t, kind, names) == []
  {
    if names != [] {
      MoreStampsMissLess(s, t, kind, names[..|names| - 1]);
    }
  }

  /**
   * A completed visit can be repeated: on the workitem it leaves behind every kind is still ready, and
   * a second visit would stamp nothing new.
   */
  lemma CompletionIsStable(g: Gate, providers: Providers, s: Snapshot)
    requires AllReady(g, providers, s)
    ensures var t := Progress(g, providers, s, g.topo.exitContract.Keys);
            AllReady(g, providers, t) && Progress(g, providers, t, g.topo.exitContract.Keys) == t
  {
    var t := Progress(g, providers, s, g.topo.exitContract.Keys);
    forall kind | kind in g.topo.exitContract ensures Ready(g, providers, t, kind) {
      assert Ready(g, providers, s, kind);
      MoreStampsMissLess(s, t, kind, Required(g.statutes, kind));
      forall i | 0 <= i < |g.nodeOrder| ensures NodeSatisfied(t, kind, g.nodeOrder[i], providers) {
        assert NodeSatisfied(s, kind, g.nodeOrder[i], providers);
        assert forall stamp :: StampSatisfied(s, kind, g.nodeOrder[i], stamp) ==> StampSatisfied(t, kind, g.nodeOrder[i], stamp);
      }
    }
    assert OwnRows(g, providers, t, g.topo.exitContract.Keys) == OwnRows(g, providers, s, g.topo.exitContract.Keys);
  }

  // ------------------------------------------------------------ runs of the flow

  /** The Archivist's gate on stamping. */
  predicate CanStamp(node: Node, kind: string, stamp: string) {
    exists cap :: cap in node.capabilities
      && (MatchCapability(cap, STAMP_PREFIX + kind + "/" + stamp) || MatchCapability(cap, ATTEST_PREFIX + kind + "/" + stamp))
  }

  /** One step of a flow around the gate: nodes work on the workitem, or Sort visits it. */
  datatype FlowStep =
    | StoreVersion(storedKind: string, hash: string)
    | StampByNode(key: string, stampedKind: string, stamp: string)
    | Raise(id: string, raisedKind: string, source: string, canWontFix: bool, version: string)
    | MoveItem(moved: string, move: Move)
    | SortVisit(outcome: Option<Verdict>)  // None when the visit ended in an error

  /** What HandleSort's contract says of a visit. */
  ghost predicate Visited(g: Gate, s: Snapshot, outcome: Option<Verdict>, t: Snapshot) {
    exists providers ::
      && IsResolution(g.topo.nodes, providers) && VisitEffect(g, providers, s, t)
      && (outcome.Some? ==> Justified(g, providers, s, outcome.value) && t.items == ItemsAfter(s, outcome.value))
  }

  ghost predicate Stepped(g: Gate, s: Snapshot, e: FlowStep, t: Snapshot) {
    match e
    case StoreVersion(kind, hash) => Stored(s, t, kind, hash)
    case StampByNode(key, kind, stamp) =>
      && key in g.topo.nodes && g.topo.nodes[key].name != g.topo.self.name && CanStamp(g.topo.nodes[key], kind, stamp)
      && kind in s.head && t == s.(stamps := s.stamps + {Row(kind, s.head[kind], stamp)})
    case Raise(id, kind, source, canWontFix, version) =>
      id !in s.items && t == s.(items := s.items[id := Created(kind, source, canWontFix, OnVersion(s, kind, version))])
    case MoveItem(id, m) =>
      id in s.items && Enabled(s.items[id], m) && t == s.(items := s.items[id := Apply(s.items[id], m)])
    case SortVisit(outcome) => Visited(g, s, outcome, t)
  }

  /** A visit of the gate is a step of the flow, failed or not. */
  method Visit(w: Workitem, g: Gate) returns (outcome: Option<Verdict>)
    modifies w`faults, w`stamps, w`items, w`submitted
    ensures Stepped(g, old(w.Snap()), SortVisit(outcome), w.Snap())
  {
    var r, providers := HandleSort(w, g);
    outcome := if r.Ok? then Some(r.value) else None;
  }

  ghost predicate FlowRun(g: Gate, trace: seq<Snapshot>, steps: seq<FlowStep>) {
    && |trace| == |steps| + 1
    && trace[0].stamps == {}
    && forall i :: 0 <= i < |steps| ==> Stepped(g, trace[i], steps[i], trace[i + 1])
  }

  /** Nobody but Sort can put the stamp on the kind. */
  ghost predicate SortOnly(g: Gate, kind: string, stamp: string) {
    forall key :: key in g.topo.nodes && g.topo.nodes[key].name != g.topo.self.name ==> !CanStamp(g.topo.nodes[key], kind, stamp)
  }

  /** The provider row the kind uses, whatever the map order of a visit. */
  ghost function RowKind(g: Gate, kind: string): string {
    if exists key, stamp :: key in g.topo.nodes && Declares(g.topo.nodes[key], kind, stamp) then kind else "*"
  }

  /** A stamp the gate waits for: declared for the kind, and only by nodes of nodeOrder; or demanded by a law. */
  ghost predicate Awaited(g: Gate, kind: string, stamp: string) {
    || (&& (exists key :: key in g.topo.nodes && Declares(g.topo.nodes[key], RowKind(g, kind), stamp))
        && (forall key :: key in g.topo.nodes && Declares(g.topo.nodes[key], RowKind(g, kind), stamp) ==>
              g.topo.nodes[key].name in g.nodeOrder))
    || stamp in Required(g.statutes, kind)
  }

  /** On every version, current or not, a Sort-only stamp comes with every awaited stamp. */
  ghost predicate GateHeld(g: Gate, s: Snapshot) {
    forall kind, version, own, stamp ::
      SortOnly(g, kind, own) && Row(kind, version, own) in s.stamps && Awaited(g, kind, stamp) ==>
        Row(kind, version, stamp) in s.stamps
  }

  lemma AwaitedIsResolved(g: Gate, providers: Providers, kind: string, stamp: string)
    requires IsResolution(g.topo.nodes, providers)
    requires Awaited(g, kind, stamp) && stamp !in Required(g.statutes, kind)
    ensures stamp in ProviderRow(kind, providers) && ProviderRow(kind, providers)[stamp] in g.nodeOrder
  {
    var row := RowKind(g, kind);
    if kind in providers {
      var t :| t in providers[kind];
      assert Entry(providers, kind, t).Some?;
      assert row == kind;
    } else {
      assert forall t :: Entry(providers, kind, t).None?;
      forall key, t | key in g.topo.nodes ensures !Declares(g.topo.nodes[key], kind, t) {
        assert Entry(providers, kind, t).None?;
      }
    }
    var key :| key in g.topo.nodes && Declares(g.topo.nodes[key], row, stamp);
    assert Entry(providers, row, stamp).Some?;
    assert Provides(g.topo.nodes, row, stamp, Entry(providers, row, stamp).value);
  }

  lemma ReadyHasAwaited(g: Gate, providers: Providers, s: Snapshot, kind: string, stamp: string)
    requires IsResolution(g.topo.nodes, providers) && Ready(g, providers, s, kind) && Awaited(g, kind, stamp)
    ensures Stamped(s, kind, stamp)
  {
    if stamp in Required(g.statutes, kind) {
      AbsentIsUnstamped(s, kind, Required(g.statutes, kind));
      assert stamp !in MissingAttestations(s, kind, g.statutes);
    } else {
      AwaitedIsResolved(g, providers, kind, stamp);
      var provider := ProviderRow(kind, providers)[stamp];
      var i :| 0 <= i < |g.nodeOrder| && g.nodeOrder[i] == provider;
      assert NodeSatisfied(s, kind, g.nodeOrder[i], providers);
      assert StampSatisfied(s, kind, provider, stamp);
    }
  }

  lemma StepKeepsGate(g: Gate, s: Snapshot, e: FlowStep, t: Snapshot)
    requires GateHeld(g, s) && Stepped(g, s, e, t)
    ensures GateHeld(g, t)
  {
    forall kind, version, own, stamp |
      SortOnly(g, kind, own) && Row(kind, version, own) in t.stamps && Awaited(g, kind, stamp)
      ensures Row(kind, version, stamp) in t.stamps
    {
      if e.SortVisit? && Row(kind, version, own) !in s.stamps {
        var providers :| IsResolution(g.topo.nodes, providers) && VisitEffect(g, providers, s, t);
        assert Row(kind, version, own) in t.stamps - s.stamps;
        ReadyHasAwaited(g, providers, s, kind, stamp);
        assert version == s.head[kind];
      } else if e.StampByNode? {
        assert Row(kind, version, own) in s.stamps;
      }
    }
  }

  lemma {:induction false} RunKeepsGate(g: Gate, trace: seq<Snapshot>, steps: seq<FlowStep>)
    requires FlowRun(g, trace, steps)
    ensures GateHeld(g, trace[|steps|])
  {
    if steps != [] {
      var n := |steps| - 1;
      assert FlowRun(g, trace[..n + 1], steps[..n]);
      RunKeepsGate(g, trace[..n + 1], steps[..n]);
      StepKeepsGate(g, trace[n], steps[n], trace[n + 1]);
    }
  }

  /**
   * The gate over whole runs: however versions, stamps, feedback and Sort visits interleave, a stamp
   * only Sort can give is on a kind's current version only together with every awaited stamp.
   */
  lemma SortStampImpliesAwaited(g: Gate, trace: seq<Snapshot>, steps: seq<FlowStep>, kind: string, own: string, stamp: string)
    requires FlowRun(g, trace, steps)
    requires SortOnly(g, kind, own) && Stamped(trace[|steps|], kind, own) && Awaited(g, kind, stamp)
    ensures Stamped(trace[|steps|], kind, stamp)
  {
    RunKeepsGate(g, trace, steps);
  }

  /** Sort's provider map leaves law stamps out, so a visit never applies one. */
  lemma VisitStampsNoLaw(g: Gate, providers: Providers, s: Snapshot, t: Snapshot, row: Row)
    requires IsResolution(g.topo.nodes, providers) && VisitEffect(g, providers, s, t)
    requires row in t.stamps - s.stamps
    ensures !("law-" <= row.name) && !("lawgrp-" <= row.name)
    ensures InContract(g, row.kind, row.name) && row.kind in s.head && row.version == s.head[row.kind]
    ensures exists key, k :: key in g.topo.nodes && g.topo.nodes[key].name == g.topo.self.name
              && k in {row.kind, "*"} && Declares(g.topo.nodes[key], k, row.name)
  {
    assert row.name in ProviderRow(row.kind, providers);
    var key := if row.kind in providers then row.kind else "*";
    assert Entry(providers, key, row.name).Some?;
    assert Provides(g.topo.nodes, key, row.name, Entry(providers, key, row.name).value);
  }

  /**
   * In every run, each law stamp on any version was put there by a step of a node other than Sort that
   * may give it; so the law stamps a completed workitem carries are attestations by holders of the capability.
   */
  lemma {:induction false} LawStampsAreAttested(g: Gate, trace: seq<Snapshot>, steps: seq<FlowStep>, row: Row)
    requires FlowRun(g, trace, steps) && row in trace[|steps|].stamps
    requires "law-" <= row.name || "lawgrp-" <= row.name
    ensures exists i, key :: 0 <= i < |steps| && steps[i] == StampByNode(key, row.kind, row.name)
              && key in g.topo.nodes && g.topo.nodes[key].name != g.topo.self.name
              && CanStamp(g.topo.nodes[key], row.kind, row.name)
  {
    var n := |steps| - 1;
    assert Stepped(g, trace[n], steps[n], trace[n + 1]);
    if row in trace[n].stamps {
      assert FlowRun(g, trace[..n + 1], steps[..n]);
      LawStampsAreAttested(g, trace[..n + 1], steps[..n], row);
      var i, key :| 0 <= i < n && steps[..n][i] == StampByNode(key, row.kind, row.name)
        && key in g.topo.nodes && g.topo.nodes[key].name != g.topo.self.name && CanStamp(g.topo.nodes[key], row.kind, row.name);
      assert steps[i] == StampByNode(key, row.kind, row.name);
    } else if steps[n].SortVisit? {
      var providers :| IsResolution(g.topo.nodes, providers) && VisitEffect(g, providers, trace[n], trace[n + 1]);
      VisitStampsNoLaw(g, providers, trace[n], trace[n + 1], row);
    } else {
      assert steps[n] == StampByNode(steps[n].key, row.kind, row.name);
    }
  }

  // --------------------------------------- every run of the flow is a run of each item

  ghost predicate StepsFollow(g: Gate, trace: seq<Snapshot>, steps: seq<FlowStep>) {
    |trace| == |steps| + 1 && forall i :: 0 <= i < |steps| ==> Stepped(g, trace[i], steps[i], trace[i + 1])
  }

  /** The visit looked at the kind and let it pass the deadlock check. */
  predicate Clears(g: Gate, outcome: Option<Verdict>, kind: string) {
    outcome.Some? && !outcome.value.Escalate?
    && if outcome.value.Finished? then kind in g.topo.exitContract else outcome.value.kind == kind
  }

  /** What a step of the flow is to one item. */
  ghost function ItemEvent(g: Gate, s: Snapshot, e: FlowStep, t: Snapshot, id: string): (es: seq<Event>)
    requires id in s.items && id in t.items
    ensures |es| <= 1
  {
    if t.items[id] == s.items[id] then
      if e.SortVisit? && Clears(g, e.outcome, s.items[id].kind) then [Cleared] else []
    else match e
      case StoreVersion(_, hash) => [Superseded(hash)]
      case MoveItem(_, m) => [Do(m)]
      case SortVisit(_) => [Do(Deadlock)]
      case _ => []
  }

  ghost predicate Present(trace: seq<Snapshot>, id: string) {
    forall k :: 0 <= k < |trace| ==> id in trace[k].items
  }

  /** What the steps of a run are to one item, in order. */
  ghost function ItemEvents(g: Gate, trace: seq<Snapshot>, steps: seq<FlowStep>, id: string): seq<Event>
    requires |trace| == |steps| + 1 && Present(trace, id)
    decreases |steps|
  {
    if steps == [] then []
    else
      var n := |steps| - 1;
      ItemEvents(g, trace[..n + 1], steps[..n], id) + ItemEvent(g, trace[n], steps[n], trace[n + 1], id)
  }

  lemma ItemsStay(g: Gate, s: Snapshot, e: FlowStep, t: Snapshot, id: string)
    requires Stepped(g, s, e, t) && id in s.items
    ensures id in t.items
  {
  }

  /** A verdict other than escalation is, for every item of its kind, the cleared visit the debate bound counts on. */
  lemma VerdictClearsItems(g: Gate, providers: Providers, s: Snapshot, v: Verdict, id: string)
    requires Justified(g, providers, s, v) && !v.Escalate? && id in s.items
    requires if v.Finished? then s.items[id].kind in g.topo.exitContract else s.items[id].kind == v.kind
    ensures Step(s.items[id], Cleared, Threshold(g.deadlockThreshold)) == Some(ItemsAfter(s, v)[id])
  {
    assert About(s, s.items[id].kind, id);
    if v.Finished? { assert Ready(g, providers, s, s.items[id].kind); }
  }

  lemma StepIsItemEvent(g: Gate, s: Snapshot, e: FlowStep, t: Snapshot, id: string)
    requires Stepped(g, s, e, t) && id in s.items && id in t.items
    ensures Run(s.items[id], ItemEvent(g, s, e, t, id), Threshold(g.deadlockThreshold)) == Some(t.items[id])
  {
    var es := ItemEvent(g, s, e, t, id);
    if es != [] { assert es[1..] == []; }
    if e.SortVisit? && Clears(g, e.outcome, s.items[id].kind) {
      var providers :| IsResolution(g.topo.nodes, providers) && VisitEffect(g, providers, s, t)
        && Justified(g, providers, s, e.outcome.value) && t.items == ItemsAfter(s, e.outcome.value);
      VerdictClearsItems(g, providers, s, e.outcome.value, id);
    }
  }

  /** Every run of the flow is, for each item, a run of the feedback lifecycle: its events are those of the steps. */
  lemma {:induction false} RunIsItemRun(g: Gate, trace: seq<Snapshot>, steps: seq<FlowStep>, id: string)
    requires StepsFollow(g, trace, steps) && id in trace[0].items
    ensures Present(trace, id)
    ensures Run(trace[0].items[id], ItemEvents(g, trace, steps, id), Threshold(g.deadlockThreshold))
         == Some(trace[|steps|].items[id])
    decreases |steps|
  {
    if steps != [] {
      var n := |steps| - 1;
      var before := trace[..n + 1];
      RunIsItemRun(g, before, steps[..n], id);
      assert before[n] == trace[n];
      ItemsStay(g, trace[n], steps[n], trace[n + 1], id);
      assert Present(trace, id) by { assert forall k :: 0 <= k <= n ==> before[k] == trace[k]; }
      StepIsItemEvent(g, trace[n], steps[n], trace[n + 1], id);
      RunAppend(trace[0].items[id], ItemEvents(g, before, steps[..n], id),
                ItemEvent(g, trace[n], steps[n], trace[n + 1], id), Threshold(g.deadlockThreshold));
    }
  }

  /** In every run of the flow: a resolved item stays resolved, and a second deadlock is the item's last state. */
  lemma FinalStatesOfRuns(g: Gate, trace: seq<Snapshot>, steps: seq<FlowStep>, id: string)
    requires StepsFollow(g, trace, steps) && id in trace[0].items
    ensures id in trace[|steps|].items
    ensures trace[0].items[id].state == Resolved ==> trace[|steps|].items[id].state == Resolved
    ensures trace[0].items[id].state == Deadlocked && trace[0].items[id].ruling != "" ==>
              trace[|steps|].items[id] == trace[0].items[id]
  {
    RunIsItemRun(g, trace, steps, id);
    var es := ItemEvents(g, trace, steps, id);
    var item, threshold := trace[0].items[id], Threshold(g.deadlockThreshold);
    if item.state == Resolved { ResolvedIsFinal(item, es, threshold); }
    if item.state == Deadlocked && item.ruling != "" { SecondDeadlockIsPermanent(item, es, threshold); }
  }

  /** How many steps of the run reject a fix of the item. */
  ghost function FixesRejected(steps: seq<FlowStep>, id: string): nat {
    if steps == [] then 0
    else FixesRejected(steps[..|steps| - 1], id) + if steps[|steps| - 1] == MoveItem(id, RejectFix) then 1 else 0
  }

  lemma {:induction false} FixesRejectedAreEvents(g: Gate, trace: seq<Snapshot>, steps: seq<FlowStep>, id: string)
    requires StepsFollow(g, trace, steps) && Present(trace, id)
    ensures CountOf(ItemEvents(g, trace, steps, id), IsRejectFix) == FixesRejected(steps, id)
    decreases |steps|
  {
    if steps != [] {
      var n := |steps| - 1;
      FixesRejectedAreEvents(g, trace[..n + 1], steps[..n], id);
      var last := ItemEvent(g, trace[n], steps[n], trace[n + 1], id);
      CountAppend(ItemEvents(g, trace[..n + 1], steps[..n], id), last, IsRejectFix);
      if last != [] { assert last[1..] == []; }
      assert Stepped(g, trace[n], steps[n], trace[n + 1]);
    }
  }

  /**
   * The debate bound over whole runs of the flow, from the step that raised an item on: if each review of
   * the item follows a Sort visit that let its kind pass, with nothing happening to the item in between,
   * at most (threshold - 1) / 2 steps reject a fix of it, whatever else the run does.
   */
  lemma DebateBoundOfRuns(g: Gate, trace: seq<Snapshot>, steps: seq<FlowStep>, id: string)
    requires StepsFollow(g, trace, steps) && Present(trace, id)
    requires var i := trace[0].items[id]; i == Created(i.kind, i.source, i.canWontFix, i.version)
    requires ReviewsFollowVisits(ItemEvents(g, trace, steps, id), false)
    ensures FixesRejected(steps, id) <= (Threshold(g.deadlockThreshold) - 1) / 2
  {
    RunIsItemRun(g, trace, steps, id);
    FixesRejectedAreEvents(g, trace, steps, id);
    DebateBound(trace[0].items[id], ItemEvents(g, trace, steps, id), Threshold(g.deadlockThreshold));
  }
}
