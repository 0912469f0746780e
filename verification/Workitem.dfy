/** A workitem as a node sees it: the Archivist's rows for it, the law stamps it needs, and the RPCs on them. */
module Workitem {
  import opened Prelude
  import opened Feedback
  import opened LawGroups

  /** One row of the Archivist's stamps table: stamps belong to a version, not to an artefact. */
  datatype Row = Row(kind: string, version: string, name: string)

  /** head maps an artefact kind to its current version; items maps a feedback id to its item. */
  datatype Snapshot = Snapshot(head: map<string, string>, stamps: set<Row>, items: map<string, Item>)

  predicate Stamped(s: Snapshot, kind: string, name: string) {
    kind in s.head && Row(kind, s.head[kind], name) in s.stamps
  }

  datatype Action = Route(output: string) | Suspend(condition: string) | Complete | Cancel

  // -------------------------------------------------------- required law stamps

  /** What the Librarian answers: the laws governing each kind, and the group settings. */
  datatype Statutes = Statutes(laws: map<string, seq<Law>>, groups: map<string, GroupConfig>)

  function LawsFor(statutes: Statutes, kind: string): seq<Law> {
    if kind in statutes.laws then statutes.laws[kind] else []
  }

  /** strings.ReplaceAll(s, "/", "-"). */
  function Dashed(s: string): (t: string)
    ensures |t| == |s| && '/' !in t
    ensures forall i :: 0 <= i < |s| ==> if s[i] == '/' then t[i] == '-' else t[i] == s[i]
  {
    seq(|s|, i requires 0 <= i < |s| => if s[i] == '/' then '-' else s[i])
  }

  function RepresentationStamps(law: Law, n: nat): seq<string>
    requires n <= |law.representations|
  {
    if n == 0 then []
    else RepresentationStamps(law, n - 1) + ["law-" + law.id + "-" + Dashed(law.representations[n - 1])]
  }

  function LawStamps(laws: seq<Law>): seq<string> {
    if laws == [] then []
    else
      var law := laws[|laws| - 1];
      LawStamps(laws[..|laws| - 1]) + RepresentationStamps(law, |law.representations|)
  }

  function GroupStamps(group: string, mode: string, laws: seq<Law>): seq<string> {
    (if mode == MODE_LAW_BY_LAW then LawStamps(laws) else []) + ["lawgrp-" + group]
  }

  function ExpectedStamps(names: seq<string>, laws: seq<Law>, groups: map<string, GroupConfig>): seq<string> {
    if names == [] then []
    else
      var g := names[|names| - 1];
      ExpectedStamps(names[..|names| - 1], laws, groups) + GroupStamps(g, Config(groups, g).mode, LawsIn(laws, g))
  }

  /** The law stamps an artefact kind needs, group by group in name order. */
  ghost function Required(statutes: Statutes, kind: string): seq<string> {
    var laws := LawsFor(statutes, kind);
    ExpectedStamps(Sorted(GroupNames(laws)), laws, statutes.groups)
  }

  lemma {:induction false} RepresentationStampsMeaning(law: Law, n: nat, stamp: string)
    requires n <= |law.representations|
    ensures stamp in RepresentationStamps(law, n)
      <==> exists j :: 0 <= j < n && stamp == "law-" + law.id + "-" + Dashed(law.representations[j])
  {
    if n > 0 {
      RepresentationStampsMeaning(law, n - 1, stamp);
    }
  }

  /** stamp is the law stamp for one of the law's representations. */
  ghost predicate NamesLaw(law: Law, stamp: string) {
    exists j :: 0 <= j < |law.representations| && stamp == "law-" + law.id + "-" + Dashed(law.representations[j])
  }

  lemma {:induction false} LawStampsMeaning(laws: seq<Law>, stamp: string)
    ensures stamp in LawStamps(laws) <==> exists law :: law in laws && NamesLaw(law, stamp)
  {
    if laws != [] {
      var n := |laws| - 1;
      LawStampsMeaning(laws[..n], stamp);
      RepresentationStampsMeaning(laws[n], |laws[n].representations|, stamp);
      assert laws == laws[..n] + [laws[n]];
      assert NamesLaw(laws[n], stamp) ==> exists law :: law in laws && NamesLaw(law, stamp);
      assert forall law :: law in laws <==> law in laws[..n] || law == laws[n];
    }
  }

  /** A law demands its group's stamp and, in a law-by-law group, one stamp per representation. */
  ghost predicate Demands(groups: map<string, GroupConfig>, law: Law, stamp: string) {
    || stamp == "lawgrp-" + GroupOf(law)
    || (Config(groups, GroupOf(law)).mode == MODE_LAW_BY_LAW && NamesLaw(law, stamp))
  }

  /** A group's law stamps start with those of its first law. */
  lemma {:induction false} FirstLawFirst(law: Law, laws: seq<Law>)
    ensures LawStamps([law] + laws) == RepresentationStamps(law, |law.representations|) + LawStamps(laws)
  {
    var all := [law] + laws;
    if laws == [] {
      assert all[..0] == [] && LawStamps([]) == [];
    } else {
      var init, last := laws[..|laws| - 1], laws[|laws| - 1];
      var lasts := RepresentationStamps(last, |last.representations|);
      assert all[..|all| - 1] == [law] + init;
      FirstLawFirst(law, init);
      assert LawStamps(all) == LawStamps([law] + init) + lasts;
      assert LawStamps(laws) == LawStamps(init) + lasts;
    }
  }

  lemma {:induction false} InOrder(law: Law, n: nat)
    requires n <= |law.representations|
    ensures RepresentationStamps(law, n)
         == seq(n, j requires 0 <= j < n => "law-" + law.id + "-" + Dashed(law.representations[j]))
  {
    if n > 0 { InOrder(law, n - 1); }
  }

  /**
   * The order of the required stamps, which decides which missing one is routed first: law by law, each
   * law's representations in order, and the group's own stamp last.
   */
  lemma GroupStampsInOrder(group: string, laws: seq<Law>, law: Law)
    ensures GroupStamps(group, "law-by-law", []) == ["lawgrp-" + group]
    ensures GroupStamps(group, "law-by-law", [law] + laws)
         == seq(|law.representations|, j requires 0 <= j < |law.representations| =>
                  "law-" + law.id + "-" + Dashed(law.representations[j]))
            + GroupStamps(group, "law-by-law", laws)
    ensures GroupStamps(group, "bundle", laws) == ["lawgrp-" + group]
  {
    FirstLawFirst(law, laws);
    InOrder(law, |law.representations|);
  }

  lemma LastGroupLast(names: seq<string>, last: string, laws: seq<Law>, groups: map<string, GroupConfig>)
    ensures ExpectedStamps(names + [last], laws, groups)
         == ExpectedStamps(names, laws, groups) + GroupStamps(last, Config(groups, last).mode, LawsIn(laws, last))
  {
    assert (names + [last])[..|names|] == names;
  }

  /** Group after group: the stamps of the first group named come first. */
  lemma {:induction false} FirstGroupFirst(g: string, names: seq<string>, laws: seq<Law>, groups: map<string, GroupConfig>)
    ensures ExpectedStamps([g] + names, laws, groups)
         == GroupStamps(g, Config(groups, g).mode, LawsIn(laws, g)) + ExpectedStamps(names, laws, groups)
  {
    if names == [] {
      LastGroupLast([], g, laws, groups);
      assert [] + [g] == [g] + names;
    } else {
      var init, last := names[..|names| - 1], names[|names| - 1];
      FirstGroupFirst(g, init, laws, groups);
      LastGroupLast([g] + init, last, laws, groups);
      LastGroupLast(init, last, laws, groups);
      assert names == init + [last] && [g] + names == ([g] + init) + [last];
    }
  }

  lemma {:induction false} ExpectedMeaning(names: seq<string>, laws: seq<Law>, groups: map<string, GroupConfig>, stamp: string)
    requires forall g :: g in names ==> g in GroupNames(laws)
    ensures stamp in ExpectedStamps(names, laws, groups)
      <==> exists law :: law in laws && GroupOf(law) in names && Demands(groups, law, stamp)
  {
    if names != [] {
      var n := |names| - 1;
      var g := names[n];
      assert names == names[..n] + [g];
      ExpectedMeaning(names[..n], laws, groups, stamp);
      GroupMeaning(g, laws, groups, stamp);
    }
  }

  lemma GroupMeaning(g: string, laws: seq<Law>, groups: map<string, GroupConfig>, stamp: string)
    requires g in GroupNames(laws)
    ensures stamp in GroupStamps(g, Config(groups, g).mode, LawsIn(laws, g))
      <==> exists law :: law in laws && GroupOf(law) == g && Demands(groups, law, stamp)
  {
    LawStampsMeaning(LawsIn(laws, g), stamp);
    forall law ensures law in LawsIn(laws, g) <==> law in laws && GroupOf(law) == g {
      LawsInMeaning(laws, g, law);
    }
    var some :| some in laws && GroupOf(some) == g;
    if stamp == "lawgrp-" + g {
      assert Demands(groups, some, stamp);
    }
  }

  /** What the check asks for is exactly what the governing laws demand. */
  lemma RequiredMeaning(statutes: Statutes, kind: string, stamp: string)
    ensures stamp in Required(statutes, kind)
      <==> exists law :: kind in statutes.laws && law in statutes.laws[kind] && Demands(statutes.groups, law, stamp)
  {
    var laws := LawsFor(statutes, kind);
    SortedMembers(GroupNames(laws));
    ExpectedMeaning(Sorted(GroupNames(laws)), laws, statutes.groups, stamp);
    assert forall law :: law in laws ==> GroupOf(law) in GroupNames(laws);
  }

  ghost function Absent(s: Snapshot, kind: string, names: seq<string>): seq<string> {
    if names == [] then []
    else
      var last := names[|names| - 1];
      Absent(s, kind, names[..|names| - 1]) + if Stamped(s, kind, last) then [] else [last]
  }

  lemma {:induction false} AbsentIsUnstamped(s: Snapshot, kind: string, names: seq<string>)
    ensures forall x :: x in Absent(s, kind, names) <==> x in names && !Stamped(s, kind, x)
  {
    if names != [] {
      AbsentIsUnstamped(s, kind, names[..|names| - 1]);
      assert names == names[..|names| - 1] + [names[|names| - 1]];
    }
  }

  /** What is missing is reported in the order it is required. */
  lemma {:induction false} AbsentConcat(s: Snapshot, kind: string, names: seq<string>, more: seq<string>)
    ensures Absent(s, kind, names + more) == Absent(s, kind, names) + Absent(s, kind, more)
    decreases |more|
  {
    if more == [] {
      assert names + more == names;
    } else {
      var init, last := more[..|more| - 1], if Stamped(s, kind, more[|more| - 1]) then [] else [more[|more| - 1]];
      assert (names + more)[..|names + more| - 1] == names + init;
      AbsentConcat(s, kind, names, init);
      assert Absent(s, kind, names + more) == Absent(s, kind, names + init) + last;
      assert Absent(s, kind, more) == Absent(s, kind, init) + last;
    }
  }

  ghost function MissingAttestations(s: Snapshot, kind: string, statutes: Statutes): seq<string> {
    Absent(s, kind, Required(statutes, kind))
  }

  /** A kind needs no law stamp exactly when no law governs it. */
  lemma RequiredEmptyIff(statutes: Statutes, kind: string)
    ensures Required(statutes, kind) == [] <==> LawsFor(statutes, kind) == []
  {
    var laws := LawsFor(statutes, kind);
    SortedMembers(GroupNames(laws));
    if laws != [] {
      assert GroupOf(laws[0]) in GroupNames(laws);
      assert GroupOf(laws[0]) in Sorted(GroupNames(laws));
    } else {
      assert GroupNames(laws) == {};
    }
  }

  // ------------------------------------------------------------------ the object

  class Workitem {
    var head: map<string, string>
    var stamps: set<Row>
    var items: map<string, Item>
    var submitted: seq<Action>  // results accepted by the Operator
    ghost var faults: nat       // RPCs that failed in transit or on the server
    ghost var lapses: nat       // follow-ups the Archivist failed at and only logged

    constructor ()
      ensures Snap() == Snapshot(map[], {}, map[]) && submitted == [] && faults == 0 && lapses == 0
    {
      head, stamps, items, submitted, faults, lapses := map[], {}, map[], [], 0, 0;
    }

    ghost function Snap(): Snapshot
      reads this`head, this`stamps, this`items
    {
      Snapshot(head, stamps, items)
    }

    /** Any RPC may fail; done says whether it took effect, which a failed one still may have. */
    method Rpc() returns (ok: bool, done: bool)
      modifies this`faults
      ensures faults == old(faults) + if ok then 0 else 1
      ensures ok ==> done
    {
      ok := *;
      done := *;
      if ok { done := true; } else { faults := faults + 1; }
    }

    method Heartbeat() returns (ok: bool)
      modifies this`faults
      ensures faults == old(faults) + if ok then 0 else 1
    {
      var done;
      ok, done := Rpc();
    }

    method GetArtefact(kind: string) returns (r: Result<string>)
      modifies this`faults
      ensures r.Ok? ==> faults == old(faults) && kind in head && r.value == head[kind]
      ensures r.Err? ==> faults > old(faults) || (faults == old(faults) && kind !in head)
    {
      var ok, _ := Rpc();
      if !ok { return Err("unavailable"); }
      if kind !in head { return Err("not found"); }
      return Ok(head[kind]);
    }

    method HasStamp(kind: string, name: string) returns (r: Result<bool>)
      modifies this`faults
      ensures r.Ok? ==> faults == old(faults) && r.value == Stamped(Snap(), kind, name)
      ensures r.Err? ==> faults > old(faults)
    {
      var ok, _ := Rpc();
      if !ok { return Err("unavailable"); }
      return Ok(kind in head && Row(kind, head[kind], name) in stamps);
    }

    /** Applies a stamp to the current version; a no-op when it is there already. */
    method Stamp(kind: string, name: string) returns (ok: bool)
      requires kind in head
      modifies this`faults, this`stamps
      ensures faults == old(faults) + if ok then 0 else 1
      ensures stamps == old(stamps) + {Row(kind, head[kind], name)} || (!ok && stamps == old(stamps))
    {
      var done;
      ok, done := Rpc();
      if done { stamps := stamps + {Row(kind, head[kind], name)}; }
    }

    method StampNames(kind: string) returns (r: Result<set<string>>)
      modifies this`faults
      ensures r.Ok? ==> faults == old(faults) && forall name :: name in r.value <==> Stamped(Snap(), kind, name)
      ensures r.Err? ==> faults > old(faults)
    {
      var ok, _ := Rpc();
      if !ok { return Err("unavailable"); }
      return Ok(set row | row in stamps && row.kind == kind && kind in head && row.version == head[kind] :: row.name);
    }

    /** Stores content with the given hash; content equal to the head's makes no version. */
    method Store(kind: string, hash: string) returns (ok: bool)
      modifies this`faults, this`lapses, this`head, this`items
      ensures faults == old(faults) + if ok then 0 else 1
      ensures lapses >= old(lapses)
      ensures StoredWith(old(Snap()), Snap(), kind, hash, lapses == old(lapses)) || (!ok && Snap() == old(Snap()))
    {
      var done;
      ok, done := Rpc();
      if done && (kind !in head || head[kind] != hash) {
        head := head[kind := hash];
        if * {
          if exists id :: id in items && items[id].kind == kind && Stale(items[id], hash) {
            items := map id | id in items :: if items[id].kind == kind then Supersede(items[id], hash) else items[id];
          }
        } else {
          lapses := lapses + 1;
        }
      }
    }

    /** The items of one kind, in whatever order the database lists them. */
    method GetFeedback(kind: string) returns (r: Result<seq<string>>)
      modifies this`faults
      ensures r.Ok? ==> faults == old(faults) && forall id :: id in r.value <==> id in items && items[id].kind == kind
      ensures r.Ok? ==> forall i, j :: 0 <= i < j < |r.value| ==> r.value[i] != r.value[j]
      ensures r.Err? ==> faults > old(faults)
    {
      var ok, _ := Rpc();
      if !ok { return Err("unavailable"); }
      var rest := set id | id in items && items[id].kind == kind;
      ghost var all := rest;
      var ids: seq<string> := [];
      while rest != {}
        invariant rest <= all && forall id :: id in ids <==> id in all && id !in rest
        invariant forall i, j :: 0 <= i < j < |ids| ==> ids[i] != ids[j]
      {
        var id :| id in rest;
        assert id !in ids;
        ids, rest := ids + [id], rest - {id};
      }
      return Ok(ids);
    }

    method GetDepth(id: string) returns (r: Result<nat>)
      requires id in items
      modifies this`faults
      ensures r.Ok? ==> faults == old(faults) && r.value == items[id].depth
      ensures r.Err? ==> faults > old(faults)
    {
      var ok, _ := Rpc();
      if !ok { return Err("unavailable"); }
      return Ok(items[id].depth);
    }

    /** A new item, on the version the caller names or else on the current one. */
    method AddFeedback(id: string, kind: string, source: string, canWontFix: bool, version: string) returns (ok: bool)
      requires id !in items
      modifies this`faults, this`items
      ensures faults == old(faults) + if ok then 0 else 1
      ensures items == old(items) || exists on ::
                && items == old(items)[id := Item(kind, source, canWontFix, on, New, "", 1)]
                && (version != "" ==> on == version) && (version == "" && kind in head ==> on == head[kind])
                && (version == "" && kind !in head ==> on == "")
      ensures ok ==> id in items
    {
      var done;
      ok, done := Rpc();
      if done {
        var on := version;
        if on == "" && kind in head { on := head[kind]; }
        items := items[id := Created(kind, source, canWontFix, on)];
      }
    }

    /** Resolve, Refuse, AcceptFix, RejectFix, AcceptRefusal, RejectRefusal, Deadlock and LinkRuling: one transition each. */
    method Transition(id: string, m: Move) returns (ok: bool)
      modifies this`faults, this`items
      ensures items == old(items) || (id in old(items) && Enabled(old(items)[id], m) && items == old(items)[id := Apply(old(items)[id], m)])
      ensures ok ==> faults == old(faults) && id in old(items) && Enabled(old(items)[id], m)
                     && items == old(items)[id := Apply(old(items)[id], m)]
      ensures !ok ==> faults > old(faults) || (faults == old(faults) && items == old(items) && !(id in items && Enabled(items[id], m)))
    {
      var done;
      ok, done := Rpc();
      if !(id in items && Enabled(items[id], m)) { return false; }
      if done { items := items[id := Apply(items[id], m)]; }
    }

    method Submit(action: Action) returns (ok: bool)
      modifies this`faults, this`submitted
      ensures faults == old(faults) + if ok then 0 else 1
      ensures submitted == old(submitted) + [action] || (!ok && submitted == old(submitted))
    {
      var done;
      ok, done := Rpc();
      if done { submitted := submitted + [action]; }
    }

    /** The law stamps the kind still lacks on its current version. */
    method VerifyLawAttestations(kind: string, statutes: Statutes) returns (r: Result<seq<string>>)
      modifies this`faults
      ensures r.Ok? ==> faults == old(faults) && r.value == MissingAttestations(Snap(), kind, statutes)
      ensures r.Err? ==> faults >= old(faults)
      ensures r.Err? && faults == old(faults) ==> kind !in head && MissingAttestations(Snap(), kind, statutes) != []
    {
      var ok, _ := Rpc();
      if !ok { return Err("query laws"); }
      var laws := LawsFor(statutes, kind);
      RequiredEmptyIff(statutes, kind);
      if |laws| == 0 { return Ok([]); }
      var listed, _ := Rpc();
      if !listed { return Err("list law groups"); }

      var expected := Expect(laws, statutes.groups);

      AbsentIsUnstamped(Snap(), kind, expected);
      assert expected[0] in expected;
      var art := GetArtefact(kind);
      if art.Err? { return Err("get artefact"); }
      var present := StampNames(kind);
      if present.Err? { return Err("get stamps"); }

      var missing := Unstamped(expected, present.value, Snap(), kind);
      return Ok(missing);
    }
  }

  /** Step 5 of the attestation check: the expected stamps that are not there. */
  method Unstamped(expected: seq<string>, present: set<string>, ghost s: Snapshot, ghost kind: string)
    returns (missing: seq<string>)
    requires forall name :: name in present <==> Stamped(s, kind, name)
    ensures missing == Absent(s, kind, expected)
  {
    missing := [];
    for i := 0 to |expected|
      invariant missing == Absent(s, kind, expected[..i])
    {
      assert expected[..i + 1][..i] == expected[..i];
      if expected[i] !in present {
        missing := missing + [expected[i]];
      }
    }
    assert expected[..|expected|] == expected;
  }

  /** Step 3 of the attestation check: expected stamp names, group by group. */
  method Expect(laws: seq<Law>, groups: map<string, GroupConfig>) returns (expected: seq<string>)
    ensures expected == ExpectedStamps(Sorted(GroupNames(laws)), laws, groups)
  {
    expected := [];
    var lawsByGroup := PartitionLawsByGroup(laws);
    var names := SortedKeys(lawsByGroup);
    SortedMembers(lawsByGroup.Keys);
    for k := 0 to |names|
      invariant expected == ExpectedStamps(names[..k], laws, groups)
    {
      ExpectedStep(names, k, laws, groups);
      var g := names[k];
      assert g in lawsByGroup;
      var stamps := ExpectGroup(g, Config(groups, g).mode, lawsByGroup[g]);
      expected := expected + stamps;
    }
    assert names[..|names|] == names;
  }

  lemma ExpectedStep(names: seq<string>, k: nat, laws: seq<Law>, groups: map<string, GroupConfig>)
    requires k < |names|
    ensures ExpectedStamps(names[..k + 1], laws, groups)
         == ExpectedStamps(names[..k], laws, groups) + GroupStamps(names[k], Config(groups, names[k]).mode, LawsIn(laws, names[k]))
  {
    assert names[..k + 1][..k] == names[..k];
  }

  method ExpectGroup(group: string, mode: string, laws: seq<Law>) returns (expected: seq<string>)
    ensures expected == GroupStamps(group, mode, laws)
  {
    expected := [];
    if mode == MODE_LAW_BY_LAW {
      for i := 0 to |laws|
        invariant expected == LawStamps(laws[..i])
      {
        assert laws[..i + 1][..i] == laws[..i];
        ghost var before := expected;
        for j := 0 to |laws[i].representations|
          invariant expected == before + RepresentationStamps(laws[i], j)
        {
          expected := expected + ["law-" + laws[i].id + "-" + Dashed(laws[i].representations[j])];
        }
      }
      assert laws[..|laws|] == laws;
    }
    expected := expected + ["lawgrp-" + group];
  }

  ghost predicate SomeStale(s: Snapshot, kind: string, hash: string) {
    exists id :: id in s.items && s.items[id].kind == kind && Stale(s.items[id], hash)
  }

  /** The version feedback is filed on: the one named, else the current one, else none. */
  function OnVersion(s: Snapshot, kind: string, version: string): string {
    if version != "" then version else if kind in s.head then s.head[kind] else ""
  }

  /** What storing content with a given hash does; clean says that stale feedback was dealt with, which may fail in silence. */
  ghost predicate StoredWith(s: Snapshot, t: Snapshot, kind: string, hash: string, clean: bool) {
    if kind in s.head && s.head[kind] == hash then t == s
    else
      && t.head == s.head[kind := hash]
      && t.stamps == s.stamps
      && t.items.Keys == s.items.Keys
      && if clean && SomeStale(s, kind, hash) then
           forall id :: id in s.items ==>
             t.items[id] == if s.items[id].kind == kind then Supersede(s.items[id], hash) else s.items[id]
         else t.items == s.items
  }

  ghost predicate Stored(s: Snapshot, t: Snapshot, kind: string, hash: string) {
    StoredWith(s, t, kind, hash, true) || StoredWith(s, t, kind, hash, false)
  }

  /**
   * Storing a new version closes exactly the kind's open items of other versions that may not be refused
   * and have no ruling; storing equal content, or another kind, closes nothing.
   */
  lemma StoreClosesIff(s: Snapshot, t: Snapshot, kind: string, hash: string, id: string)
    requires StoredWith(s, t, kind, hash, true) && id in s.items && s.items[id].state != Resolved
    ensures var i := s.items[id];
            id in t.items && (t.items[id].state == Resolved
            <==> && i.kind == kind && !(kind in s.head && s.head[kind] == hash)
                 && i.version != hash && !i.canWontFix && i.ruling == "" && i.state in {New, Actioned, WontFix, Rejected})
  {
    SupersedingClosesIff(s.items[id], hash);
    if s.items[id].kind == kind && Stale(s.items[id], hash) { assert SomeStale(s, kind, hash); }
  }

  /**
   * Stamps belong to versions: a version never stamped has none, whatever its predecessor had, and storing
   * an earlier version's content again brings exactly that version's stamps back.
   */
  lemma StampsFollowVersions(s: Snapshot, t: Snapshot, u: Snapshot, kind: string, hash: string, name: string)
    requires kind in s.head && Stored(s, t, kind, hash) && Stored(t, u, kind, s.head[kind])
    ensures Stamped(t, kind, name) <==> Row(kind, hash, name) in s.stamps
    ensures Stamped(u, kind, name) <==> Stamped(s, kind, name)
    ensures forall other :: other != kind ==> (Stamped(t, other, name) <==> Stamped(s, other, name))
  {
  }
}
