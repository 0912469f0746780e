/** Partition, units and matrix together dispatch every (law, appraiser, pass) exactly once. */
module LawGroupTheorems {
  import opened Prelude
  import opened LawGroups

  /** How often a law is put before an appraiser in a given pass, over all entries. */
  ghost function Hits(entries: seq<DispatchEntry>, lawId: string, appraiser: string, pass: int): nat {
    if entries == [] then 0
    else
      var e := entries[|entries| - 1];
      Hits(entries[..|entries| - 1], lawId, appraiser, pass)
      + if e.appraiser == appraiser && e.pass == pass then multiset(e.unit.lawIds)[lawId] else 0
  }

  lemma {:induction false} HitsAppend(x: seq<DispatchEntry>, y: seq<DispatchEntry>, lawId: string, appraiser: string, pass: int)
    ensures Hits(x + y, lawId, appraiser, pass) == Hits(x, lawId, appraiser, pass) + Hits(y, lawId, appraiser, pass)
  {
    if y == [] {
      assert x + y == x;
    } else {
      assert (x + y)[..|x + y| - 1] == x + y[..|y| - 1];
      HitsAppend(x, y[..|y| - 1], lawId, appraiser, pass);
    }
  }

  /** What one pairing with an appraiser listed `times` times is worth in this pass. */
  ghost function Weight(passes: int, times: nat, pass: int): nat {
    if 1 <= pass <= passes then times else 0
  }

  lemma {:induction false} PassHits(group: string, unit: Unit, a: string, passes: int, lawId: string, appraiser: string, pass: int)
    ensures Hits(PassEntries(group, unit, a, passes), lawId, appraiser, pass)
         == Weight(passes, if a == appraiser then 1 else 0, pass) * multiset(unit.lawIds)[lawId]
    decreases if passes < 0 then 0 else passes
  {
    if passes >= 1 {
      PassHits(group, unit, a, passes - 1, lawId, appraiser, pass);
      var e := DispatchEntry(group, unit, a, passes);
      assert PassEntries(group, unit, a, passes)[..|PassEntries(group, unit, a, passes)| - 1] == PassEntries(group, unit, a, passes - 1);
    }
  }

  lemma {:induction false} AppraiserHits(group: string, unit: Unit, appraisers: seq<string>, passes: int,
                                         lawId: string, appraiser: string, pass: int)
    ensures Hits(AppraiserEntries(group, unit, appraisers, passes), lawId, appraiser, pass)
         == Weight(passes, multiset(appraisers)[appraiser], pass) * multiset(unit.lawIds)[lawId]
  {
    if appraisers != [] {
      var n := |appraisers| - 1;
      AppraiserHits(group, unit, appraisers[..n], passes, lawId, appraiser, pass);
      PassHits(group, unit, appraisers[n], passes, lawId, appraiser, pass);
      HitsAppend(AppraiserEntries(group, unit, appraisers[..n], passes), PassEntries(group, unit, appraisers[n], passes),
                 lawId, appraiser, pass);
      var before, last := multiset(appraisers[..n])[appraiser], if appraisers[n] == appraiser then 1 else 0;
      CountLast(appraisers, appraiser);
      Distribute(Weight(passes, before, pass), Weight(passes, last, pass), multiset(unit.lawIds)[lawId]);
      assert Weight(passes, before + last, pass) == Weight(passes, before, pass) + Weight(passes, last, pass);
    }
  }

  lemma CountLast<T>(s: seq<T>, x: T)
    requires s != []
    ensures multiset(s)[x] == multiset(s[..|s| - 1])[x] + if s[|s| - 1] == x then 1 else 0
  {
    assert s == s[..|s| - 1] + [s[|s| - 1]];
  }

  lemma Distribute(x: nat, y: nat, z: nat)
    ensures (x + y) * z == x * z + y * z
  {
  }

  ghost function Mentions(units: seq<Unit>, lawId: string): nat {
    if units == [] then 0
    else Mentions(units[..|units| - 1], lawId) + multiset(units[|units| - 1].lawIds)[lawId]
  }

  lemma LastUnitHits(group: string, units: seq<Unit>, appraisers: seq<string>, passes: int,
                     lawId: string, appraiser: string, pass: int)
    requires units != []
    ensures var n := |units| - 1;
            Hits(UnitEntries(group, units, appraisers, passes), lawId, appraiser, pass)
            == Hits(UnitEntries(group, units[..n], appraisers, passes), lawId, appraiser, pass)
               + Weight(passes, multiset(appraisers)[appraiser], pass) * multiset(units[n].lawIds)[lawId]
  {
    var n := |units| - 1;
    AppraiserHits(group, units[n], appraisers, passes, lawId, appraiser, pass);
    HitsAppend(UnitEntries(group, units[..n], appraisers, passes), AppraiserEntries(group, units[n], appraisers, passes),
               lawId, appraiser, pass);
  }

  lemma {:induction false} UnitHits(group: string, units: seq<Unit>, appraisers: seq<string>, passes: int,
                                    lawId: string, appraiser: string, pass: int, w: nat)
    requires w == Weight(passes, multiset(appraisers)[appraiser], pass)
    ensures Hits(UnitEntries(group, units, appraisers, passes), lawId, appraiser, pass) == Mentions(units, lawId) * w
  {
    if units != [] {
      var n := |units| - 1;
      UnitHits(group, units[..n], appraisers, passes, lawId, appraiser, pass, w);
      LastUnitHits(group, units, appraisers, passes, lawId, appraiser, pass);
      var before, last := Mentions(units[..n], lawId), multiset(units[n].lawIds)[lawId];
      assert Mentions(units, lawId) == before + last;
      UnitHitsStep(before, last, w);
    }
  }

  lemma UnitHitsStep(before: nat, last: nat, w: nat)
    ensures before * w + w * last == (before + last) * w
  {
  }

  ghost function CountId(laws: seq<Law>, lawId: string): nat {
    if laws == [] then 0
    else CountId(laws[..|laws| - 1], lawId) + if laws[|laws| - 1].id == lawId then 1 else 0
  }

  lemma {:induction false} IdsCount(laws: seq<Law>, lawId: string)
    ensures multiset(Ids(laws))[lawId] == CountId(laws, lawId)
  {
    if laws != [] {
      var n := |laws| - 1;
      IdsCount(laws[..n], lawId);
      assert Ids(laws) == Ids(laws[..n]) + [laws[n].id];
    }
  }

  /** Bundling or splitting a group into units neither loses nor repeats a law. */
  lemma {:induction false} UnitsKeepLaws(group: string, mode: string, laws: seq<Law>, lawId: string)
    ensures Mentions(UnitsOf(group, mode, laws), lawId) == CountId(laws, lawId)
  {
    if mode == MODE_LAW_BY_LAW {
      if laws != [] {
        var n := |laws| - 1;
        UnitsKeepLaws(group, mode, laws[..n], lawId);
        var units := LawByLawUnits(group, mode, laws);
        assert units[..|units| - 1] == LawByLawUnits(group, mode, laws[..n]);
      }
    } else if laws != [] {
      IdsCount(laws, lawId);
      var u := Unit(UnitId(group, mode, 0), group, mode, Ids(laws));
      assert UnitsOf(group, mode, laws) == [u];
      assert [u][..0] == [];
    }
  }

  ghost function SumOver(names: seq<string>, f: string -> nat): nat {
    if names == [] then 0 else SumOver(names[..|names| - 1], f) + f(names[|names| - 1])
  }

  lemma {:induction false} SumBump(names: seq<string>, f: string -> nat, f': string -> nat, h: string, gain: nat)
    requires NoDuplicates(names) && forall g :: f'(g) == f(g) + if g == h then gain else 0
    ensures SumOver(names, f') == SumOver(names, f) + if h in names then gain else 0
  {
    if names != [] {
      var n := |names| - 1;
      assert names == names[..n] + [names[n]];
      SumBump(names[..n], f, f', h, gain);
    }
  }

  /** What the laws of group g add to the matrix. */
  ghost function Share(laws: seq<Law>, groups: map<string, GroupConfig>, lawId: string, times: nat, pass: int): string -> nat {
    g => GroupCount(laws, g, lawId) * Weight(Config(groups, g).passes, times, pass)
  }

  /** What the laws ask for: each law in its own group's passes, with each appraiser. */
  ghost function Demand(laws: seq<Law>, groups: map<string, GroupConfig>, lawId: string, times: nat, pass: int): nat {
    if laws == [] then 0
    else
      Demand(laws[..|laws| - 1], groups, lawId, times, pass) + Gain(laws[|laws| - 1], groups, lawId, times, pass)
  }

  ghost predicate NoDuplicates<T>(s: seq<T>) {
    forall i, j :: 0 <= i < j < |s| ==> s[i] != s[j]
  }

  /** What one law adds to the demand. */
  ghost function Gain(law: Law, groups: map<string, GroupConfig>, lawId: string, times: nat, pass: int): nat {
    var g := if law.group == "" then "default" else law.group;
    if law.id == lawId then Weight(if g in groups then groups[g].passes else 1, times, pass) else 0
  }

  /** How many laws of group g carry the id. */
  ghost function GroupCount(laws: seq<Law>, g: string, lawId: string): nat {
    if laws == [] then 0
    else
      var law := laws[|laws| - 1];
      GroupCount(laws[..|laws| - 1], g, lawId) + if GroupOf(law) == g && law.id == lawId then 1 else 0
  }

  lemma {:induction false} GroupCountIsCount(laws: seq<Law>, g: string, lawId: string)
    ensures GroupCount(laws, g, lawId) == CountId(LawsIn(laws, g), lawId)
  {
    if laws != [] {
      var law, before := laws[|laws| - 1], LawsIn(laws[..|laws| - 1], g);
      GroupCountIsCount(laws[..|laws| - 1], g, lawId);
      if GroupOf(law) == g {
        assert (before + [law])[..|before|] == before;
      } else {
        assert before + [] == before;
      }
    }
  }

  lemma {:induction false} SharesMeetDemand(names: seq<string>, laws: seq<Law>, groups: map<string, GroupConfig>,
                                            lawId: string, times: nat, pass: int)
    requires NoDuplicates(names) && forall law :: law in laws ==> GroupOf(law) in names
    ensures SumOver(names, Share(laws, groups, lawId, times, pass)) == Demand(laws, groups, lawId, times, pass)
  {
    if laws == [] {
      NoShares(names, Share([], groups, lawId, times, pass));
    } else {
      var rest, law := laws[..|laws| - 1], laws[|laws| - 1];
      var f, f' := Share(rest, groups, lawId, times, pass), Share(laws, groups, lawId, times, pass);
      forall g ensures f'(g) == f(g) + if g == GroupOf(law) then Gain(law, groups, lawId, times, pass) else 0 {
        ShareStep(laws, groups, lawId, times, pass, g);
      }
      SumBump(names, f, f', GroupOf(law), Gain(law, groups, lawId, times, pass));
      SharesMeetDemand(names, rest, groups, lawId, times, pass);
    }
  }

  lemma ShareStep(laws: seq<Law>, groups: map<string, GroupConfig>, lawId: string, times: nat, pass: int, g: string)
    requires laws != []
    ensures Share(laws, groups, lawId, times, pass)(g)
         == Share(laws[..|laws| - 1], groups, lawId, times, pass)(g)
            + if g == GroupOf(laws[|laws| - 1]) then Gain(laws[|laws| - 1], groups, lawId, times, pass) else 0
  {
    var law, rest, w := laws[|laws| - 1], laws[..|laws| - 1], Weight(Config(groups, g).passes, times, pass);
    var before, more := GroupCount(rest, g, lawId), if GroupOf(law) == g && law.id == lawId then 1 else 0;
    assert GroupCount(laws, g, lawId) == before + more;
    Distribute(before, more, w);
  }

  lemma {:induction false} NoShares(names: seq<string>, f: string -> nat)
    requires forall g :: f(g) == 0
    ensures SumOver(names, f) == 0
  {
    if names != [] {
      NoShares(names[..|names| - 1], f);
    }
  }

  /** The values the three methods hand to one another. */
  ghost predicate Pipeline(laws: seq<Law>, groups: map<string, GroupConfig>,
                           lawsByGroup: map<string, seq<Law>>, unitsByGroup: map<string, seq<Unit>>)
  {
    && lawsByGroup.Keys == GroupNames(laws)
    && unitsByGroup.Keys == lawsByGroup.Keys
    && (forall g :: g in lawsByGroup ==> lawsByGroup[g] == LawsIn(laws, g))
    && (forall g :: g in unitsByGroup ==> unitsByGroup[g] == UnitsOf(g, Config(groups, g).mode, lawsByGroup[g]))
  }

  lemma {:induction false} MatrixHits(names: seq<string>, laws: seq<Law>, groups: map<string, GroupConfig>,
                                      lawsByGroup: map<string, seq<Law>>, unitsByGroup: map<string, seq<Unit>>,
                                      appraisers: seq<string>, lawId: string, appraiser: string, pass: int)
    requires Pipeline(laws, groups, lawsByGroup, unitsByGroup)
    requires forall g :: g in names ==> g in unitsByGroup
    ensures Hits(Matrix(names, unitsByGroup, appraisers, groups), lawId, appraiser, pass)
         == SumOver(names, Share(laws, groups, lawId, multiset(appraisers)[appraiser], pass))
  {
    if names != [] {
      var n := |names| - 1;
      var g := names[n];
      MatrixHits(names[..n], laws, groups, lawsByGroup, unitsByGroup, appraisers, lawId, appraiser, pass);
      UnitHits(g, unitsByGroup[g], appraisers, Config(groups, g).passes, lawId, appraiser, pass,
               Weight(Config(groups, g).passes, multiset(appraisers)[appraiser], pass));
      UnitsKeepLaws(g, Config(groups, g).mode, lawsByGroup[g], lawId);
      GroupCountIsCount(laws, g, lawId);
      HitsAppend(Matrix(names[..n], unitsByGroup, appraisers, groups),
                 UnitEntries(g, unitsByGroup[g], appraisers, Config(groups, g).passes), lawId, appraiser, pass);
    }
  }

  /** Conservation, for any laws and appraisers (repeats included): the matrix asks for exactly what the laws demand. */
  lemma DispatchMeetsDemand(laws: seq<Law>, groups: map<string, GroupConfig>,
                            lawsByGroup: map<string, seq<Law>>, unitsByGroup: map<string, seq<Unit>>,
                            appraisers: seq<string>, lawId: string, appraiser: string, pass: int)
    requires Pipeline(laws, groups, lawsByGroup, unitsByGroup)
    ensures Hits(Matrix(Sorted(unitsByGroup.Keys), unitsByGroup, appraisers, groups), lawId, appraiser, pass)
         == Demand(laws, groups, lawId, multiset(appraisers)[appraiser], pass)
  {
    var names := Sorted(unitsByGroup.Keys);
    SortedMembers(unitsByGroup.Keys);
    SortedIsOrdered(unitsByGroup.Keys);
    MatrixHits(names, laws, groups, lawsByGroup, unitsByGroup, appraisers, lawId, appraiser, pass);
    SharesMeetDemand(names, laws, groups, lawId, multiset(appraisers)[appraiser], pass);
  }

  /** Entry e puts law lawId before the appraiser in that pass. */
  ghost predicate Covers(e: DispatchEntry, lawId: string, appraiser: string, pass: int) {
    lawId in e.unit.lawIds && e.appraiser == appraiser && e.pass == pass
  }

  lemma {:induction false} OneHit(entries: seq<DispatchEntry>, lawId: string, appraiser: string, pass: int) returns (i: nat)
    requires Hits(entries, lawId, appraiser, pass) == 1
    ensures i < |entries| && Covers(entries[i], lawId, appraiser, pass)
    ensures forall j :: 0 <= j < |entries| && Covers(entries[j], lawId, appraiser, pass) ==> j == i
  {
    var n := |entries| - 1;
    if Covers(entries[n], lawId, appraiser, pass) {
      assert multiset(entries[n].unit.lawIds)[lawId] >= 1;
      NoHit(entries[..n], lawId, appraiser, pass);
      i := n;
      assert forall j :: 0 <= j < n ==> entries[..n][j] == entries[j];
    } else {
      i := OneHit(entries[..n], lawId, appraiser, pass);
      forall j | 0 <= j < |entries| && Covers(entries[j], lawId, appraiser, pass) ensures j == i {
        if j < n { assert entries[..n][j] == entries[j]; }
      }
    }
  }

  lemma {:induction false} NoHit(entries: seq<DispatchEntry>, lawId: string, appraiser: string, pass: int)
    requires Hits(entries, lawId, appraiser, pass) == 0
    ensures forall j :: 0 <= j < |entries| ==> !Covers(entries[j], lawId, appraiser, pass)
  {
    if entries != [] {
      var n := |entries| - 1;
      NoHit(entries[..n], lawId, appraiser, pass);
      assert lawId in entries[n].unit.lawIds ==> multiset(entries[n].unit.lawIds)[lawId] >= 1;
      forall j | 0 <= j < |entries| ensures !Covers(entries[j], lawId, appraiser, pass) {
        if j < n { assert entries[..n][j] == entries[j]; }
      }
    }
  }

  lemma {:induction false} DemandOfDistinct(laws: seq<Law>, groups: map<string, GroupConfig>, k: nat, times: nat, pass: int)
    requires k < |laws| && forall i, j :: 0 <= i < j < |laws| ==> laws[i].id != laws[j].id
    ensures Demand(laws, groups, laws[k].id, times, pass) == Weight(Config(groups, GroupOf(laws[k])).passes, times, pass)
  {
    var n := |laws| - 1;
    if k < n {
      DemandOfDistinct(laws[..n], groups, k, times, pass);
    } else {
      DemandOfAbsent(laws[..n], groups, laws[k].id, times, pass);
    }
  }

  lemma {:induction false} DemandOfAbsent(laws: seq<Law>, groups: map<string, GroupConfig>, lawId: string, times: nat, pass: int)
    requires forall law :: law in laws ==> law.id != lawId
    ensures Demand(laws, groups, lawId, times, pass) == 0
  {
    if laws != [] {
      DemandOfAbsent(laws[..|laws| - 1], groups, lawId, times, pass);
    }
  }

  /**
   * Distinct law ids and distinct appraisers: the entry for (law, appraiser, pass) exists and is the
   * only one exactly when the pass is one of the group's; otherwise there is none.
   */
  lemma DispatchExactlyOnce(laws: seq<Law>, groups: map<string, GroupConfig>,
                            lawsByGroup: map<string, seq<Law>>, unitsByGroup: map<string, seq<Unit>>,
                            appraisers: seq<string>, k: nat, appraiser: string, pass: int)
    requires Pipeline(laws, groups, lawsByGroup, unitsByGroup)
    requires k < |laws| && appraiser in appraisers && NoDuplicates(appraisers)
    requires forall i, j :: 0 <= i < j < |laws| ==> laws[i].id != laws[j].id
    ensures var entries := Matrix(Sorted(unitsByGroup.Keys), unitsByGroup, appraisers, groups);
            var g := if laws[k].group == "" then "default" else laws[k].group;
            if 1 <= pass <= (if g in groups then groups[g].passes else 1) then
              exists i :: 0 <= i < |entries| && Covers(entries[i], laws[k].id, appraiser, pass)
                && forall j :: 0 <= j < |entries| && Covers(entries[j], laws[k].id, appraiser, pass) ==> j == i
            else
              forall j :: 0 <= j < |entries| ==> !Covers(entries[j], laws[k].id, appraiser, pass)
  {
    DispatchMeetsDemand(laws, groups, lawsByGroup, unitsByGroup, appraisers, laws[k].id, appraiser, pass);
    DistinctCount(appraisers, appraiser);
    DemandOfDistinct(laws, groups, k, 1, pass);
    var entries := Matrix(Sorted(unitsByGroup.Keys), unitsByGroup, appraisers, groups);
    if 1 <= pass <= Config(groups, GroupOf(laws[k])).passes {
      var i := OneHit(entries, laws[k].id, appraiser, pass);
    } else {
      NoHit(entries, laws[k].id, appraiser, pass);
    }
  }

  /**
   * A group without a configuration is one bundle of all its laws, in order; laws that name no group belong
   * to the default one.
   */
  lemma UnconfiguredGroupsBundle(laws: seq<Law>, groups: map<string, GroupConfig>,
                                 lawsByGroup: map<string, seq<Law>>, unitsByGroup: map<string, seq<Unit>>, law: Law)
    requires Pipeline(laws, groups, lawsByGroup, unitsByGroup) && law in laws
    requires (if law.group == "" then "default" else law.group) !in groups
    ensures var g := if law.group == "" then "default" else law.group;
            && g in unitsByGroup && law in lawsByGroup[g]
            && unitsByGroup[g] == [Unit(g + "::bundle::0", g, "bundle", Ids(lawsByGroup[g]))]
  {
    var g := GroupOf(law);
    LawsInMeaning(laws, g, law);
    FirstBundleId(g);
  }

  lemma FirstBundleId(g: string)
    ensures UnitId(g, "bundle", 0) == g + "::bundle::0"
  {
    assert Itoa(0) == "0";
    assert g + "::" + "bundle" + "::" + "0" == g + ("::" + "bundle" + "::" + "0");
    assert "::" + "bundle" + "::" + "0" == "::bundle::0";
  }

  /** A configured group's units carry its mode: law by law, one for each of its laws in order; otherwise one for all. */
  lemma UnitsFollowConfig(laws: seq<Law>, groups: map<string, GroupConfig>,
                          lawsByGroup: map<string, seq<Law>>, unitsByGroup: map<string, seq<Unit>>, g: string, i: nat)
    requires Pipeline(laws, groups, lawsByGroup, unitsByGroup)
    requires g in groups && g in unitsByGroup && i < |unitsByGroup[g]|
    ensures var unit := unitsByGroup[g][i];
            && unit.group == g && unit.mode == groups[g].mode
            && unit.unitId == g + "::" + groups[g].mode + "::" + Itoa(i)
            && if groups[g].mode == "law-by-law" then |unitsByGroup[g]| == |lawsByGroup[g]| && unit.lawIds == [lawsByGroup[g][i].id]
               else |unitsByGroup[g]| == 1 && unit.lawIds == Ids(lawsByGroup[g])
  {
    if groups[g].mode == MODE_LAW_BY_LAW {
      OneUnitPerLaw(g, MODE_LAW_BY_LAW, lawsByGroup[g]);
      LawByLawUnit(g, MODE_LAW_BY_LAW, lawsByGroup[g], i);
    }
  }

  lemma {:induction false} LawByLawUnit(group: string, mode: string, laws: seq<Law>, i: nat)
    requires i < |laws| == |LawByLawUnits(group, mode, laws)|
    ensures LawByLawUnits(group, mode, laws)[i] == Unit(UnitId(group, mode, i), group, mode, [laws[i].id])
  {
    var n := |laws| - 1;
    OneUnitPerLaw(group, mode, laws[..n]);
    if i < n {
      LawByLawUnit(group, mode, laws[..n], i);
    }
  }

  /** Every entry is filed under its unit's own group, and the matrix goes through the groups in order. */
  lemma {:induction false} EntriesAreFiled(names: seq<string>, unitsByGroup: map<string, seq<Unit>>, appraisers: seq<string>,
                                           groups: map<string, GroupConfig>, i: nat)
    requires i < |Matrix(names, unitsByGroup, appraisers, groups)|
    ensures var e := Matrix(names, unitsByGroup, appraisers, groups)[i];
            && e.group in names && e.group in unitsByGroup && e.unit in unitsByGroup[e.group] && e.appraiser in appraisers
  {
    var n := |names| - 1;
    var before := Matrix(names[..n], unitsByGroup, appraisers, groups);
    if i < |before| {
      EntriesAreFiled(names[..n], unitsByGroup, appraisers, groups, i);
    } else {
      UnitEntriesAreFiled(names[n], UnitsIn(unitsByGroup, names[n]), appraisers, Config(groups, names[n]).passes, i - |before|);
    }
  }

  lemma {:induction false} UnitEntriesAreFiled(group: string, units: seq<Unit>, appraisers: seq<string>, passes: int, i: nat)
    requires i < |UnitEntries(group, units, appraisers, passes)|
    ensures var e := UnitEntries(group, units, appraisers, passes)[i]; e.group == group && e.unit in units && e.appraiser in appraisers
  {
    var n := |units| - 1;
    var before := UnitEntries(group, units[..n], appraisers, passes);
    if i < |before| {
      UnitEntriesAreFiled(group, units[..n], appraisers, passes, i);
    } else {
      AppraiserEntriesAreFiled(group, units[n], appraisers, passes, i - |before|);
    }
  }

  lemma {:induction false} AppraiserEntriesAreFiled(group: string, unit: Unit, appraisers: seq<string>, passes: int, i: nat)
    requires i < |AppraiserEntries(group, unit, appraisers, passes)|
    ensures var e := AppraiserEntries(group, unit, appraisers, passes)[i]; e.group == group && e.unit == unit && e.appraiser in appraisers
  {
    var n := |appraisers| - 1;
    var before := AppraiserEntries(group, unit, appraisers[..n], passes);
    if i < |before| {
      AppraiserEntriesAreFiled(group, unit, appraisers[..n], passes, i);
    } else {
      PassEntryAt(group, unit, appraisers[n], passes, i - |before|);
    }
  }

  /** The passes of one pairing are 1, 2, 3 and so on. */
  lemma {:induction false} PassEntryAt(group: string, unit: Unit, appraiser: string, passes: int, i: nat)
    requires i < |PassEntries(group, unit, appraiser, passes)|
    ensures PassEntries(group, unit, appraiser, passes)[i] == DispatchEntry(group, unit, appraiser, i + 1)
    decreases Positive(passes)
  {
    PassEntriesLength(group, unit, appraiser, passes);
    PassEntriesLength(group, unit, appraiser, passes - 1);
    if i < passes - 1 {
      PassEntryAt(group, unit, appraiser, passes - 1, i);
    }
  }

  /** In a dispatch over sorted groups, an earlier entry never has a greater group. */
  lemma GroupsComeInOrder(unitsByGroup: map<string, seq<Unit>>, appraisers: seq<string>, groups: map<string, GroupConfig>,
                          i: nat, j: nat)
    requires i < j < |Matrix(Sorted(unitsByGroup.Keys), unitsByGroup, appraisers, groups)|
    ensures var entries := Matrix(Sorted(unitsByGroup.Keys), unitsByGroup, appraisers, groups); Leq(entries[i].group, entries[j].group)
  {
    SortedIsOrdered(unitsByGroup.Keys);
    InNameOrder(Sorted(unitsByGroup.Keys), unitsByGroup, appraisers, groups, i, j);
  }

  lemma {:induction false} InNameOrder(names: seq<string>, unitsByGroup: map<string, seq<Unit>>, appraisers: seq<string>,
                                       groups: map<string, GroupConfig>, i: nat, j: nat)
    requires forall a, b :: 0 <= a < b < |names| ==> Leq(names[a], names[b])
    requires i < j < |Matrix(names, unitsByGroup, appraisers, groups)|
    ensures var entries := Matrix(names, unitsByGroup, appraisers, groups); Leq(entries[i].group, entries[j].group)
  {
    var n := |names| - 1;
    var before := Matrix(names[..n], unitsByGroup, appraisers, groups);
    var last, passes := UnitsIn(unitsByGroup, names[n]), Config(groups, names[n]).passes;
    if j < |before| {
      InNameOrder(names[..n], unitsByGroup, appraisers, groups, i, j);
    } else {
      UnitEntriesAreFiled(names[n], last, appraisers, passes, j - |before|);
      LeqTotal(names[n], names[n]);
      if i < |before| {
        EntriesAreFiled(names[..n], unitsByGroup, appraisers, groups, i);
        var a :| 0 <= a < n && names[..n][a] == before[i].group;
        assert Leq(names[a], names[n]);
      } else {
        UnitEntriesAreFiled(names[n], last, appraisers, passes, i - |before|);
      }
    }
  }

  lemma {:induction false} DistinctCount(s: seq<string>, x: string)
    requires NoDuplicates(s)
    ensures multiset(s)[x] == if x in s then 1 else 0
  {
    if s != [] {
      var n := |s| - 1;
      CountLast(s, x);
      DistinctCount(s[..n], x);
    }
  }

  // ------------------------------------------------------------- matrix length

  ghost function Positive(n: int): nat { if n < 0 then 0 else n }

  ghost function TotalLength(names: seq<string>, unitsByGroup: map<string, seq<Unit>>, appraisers: nat,
                             groups: map<string, GroupConfig>): nat
  {
    if names == [] then 0
    else
      var g := names[|names| - 1];
      TotalLength(names[..|names| - 1], unitsByGroup, appraisers, groups)
      + |UnitsIn(unitsByGroup, g)| * (appraisers * Positive(if g in groups then groups[g].passes else 1))
  }

  lemma {:induction false} AppraiserEntriesLength(group: string, unit: Unit, appraisers: seq<string>, passes: int)
    ensures |AppraiserEntries(group, unit, appraisers, passes)| == |appraisers| * Positive(passes)
  {
    if appraisers != [] {
      var n := |appraisers| - 1;
      AppraiserEntriesLength(group, unit, appraisers[..n], passes);
      PassEntriesLength(group, unit, appraisers[n], passes);
      Distribute(n, 1, Positive(passes));
    }
  }

  lemma {:induction false} PassEntriesLength(group: string, unit: Unit, appraiser: string, passes: int)
    ensures |PassEntries(group, unit, appraiser, passes)| == Positive(passes)
    decreases Positive(passes)
  {
    if passes >= 1 {
      PassEntriesLength(group, unit, appraiser, passes - 1);
    }
  }

  lemma {:induction false} UnitEntriesLength(group: string, units: seq<Unit>, appraisers: seq<string>, passes: int)
    ensures |UnitEntries(group, units, appraisers, passes)| == |units| * (|appraisers| * Positive(passes))
  {
    if units != [] {
      var n := |units| - 1;
      UnitEntriesLength(group, units[..n], appraisers, passes);
      AppraiserEntriesLength(group, units[n], appraisers, passes);
      Distribute(n, 1, |appraisers| * Positive(passes));
    }
  }

  lemma {:induction false} MatrixLength(names: seq<string>, unitsByGroup: map<string, seq<Unit>>, appraisers: seq<string>,
                                        groups: map<string, GroupConfig>)
    ensures |Matrix(names, unitsByGroup, appraisers, groups)| == TotalLength(names, unitsByGroup, |appraisers|, groups)
  {
    if names != [] {
      var n := |names| - 1;
      MatrixLength(names[..n], unitsByGroup, appraisers, groups);
      UnitEntriesLength(names[n], UnitsIn(unitsByGroup, names[n]), appraisers, Config(groups, names[n]).passes);
    }
  }

  // -------------------------------------------------------------- unit identity

  lemma {:induction false} ItoaDigits(n: nat)
    ensures Itoa(n) != "" && forall i :: 0 <= i < |Itoa(n)| ==> Itoa(n)[i] in "0123456789"
  {
    if n >= 10 {
      ItoaDigits(n / 10);
    }
  }

  lemma {:induction false} ItoaInjective(m: nat, n: nat)
    requires Itoa(m) == Itoa(n)
    ensures m == n
  {
    var digits := "0123456789";
    assert Itoa(m)[|Itoa(m)| - 1] == digits[m % 10];
    assert Itoa(n)[|Itoa(n)| - 1] == digits[n % 10];
    assert m % 10 == n % 10;
    if m >= 10 { ItoaDigits(m / 10); }
    if n >= 10 { ItoaDigits(n / 10); }
    if m >= 10 && n >= 10 {
      assert Itoa(m)[..|Itoa(m)| - 1] == Itoa(m / 10);
      assert Itoa(n)[..|Itoa(n)| - 1] == Itoa(n / 10);
      ItoaInjective(m / 10, n / 10);
    }
  }

  /** The number a string of decimal digits denotes. */
  function Decimal(s: string): int {
    if s == "" then 0 else 10 * Decimal(s[..|s| - 1]) + (s[|s| - 1] as int - '0' as int)
  }

  /** Unit indices are printed in decimal, without leading zeros. */
  lemma {:induction false} ItoaIsDecimal(n: nat)
    ensures Decimal(Itoa(n)) == n && (n > 0 ==> Itoa(n)[0] != '0')
  {
    var init := Itoa(n)[..|Itoa(n)| - 1];
    DigitAt(n % 10);
    if n >= 10 {
      ItoaIsDecimal(n / 10);
      ItoaDigits(n / 10);
      assert init == Itoa(n / 10);
    } else {
      assert init == "";
    }
  }

  lemma DigitAt(d: nat)
    requires d < 10
    ensures "0123456789"[d] as int - '0' as int == d
  {
  }

  ghost function AfterLastColon(s: string): nat {
    if s == "" || s[|s| - 1] == ':' then 0 else 1 + AfterLastColon(s[..|s| - 1])
  }

  lemma {:induction false} ColonFreeTail(x: string, a: string)
    requires ':' !in a
    ensures AfterLastColon(x + ":" + a) == |a|
  {
    if a != "" {
      assert (x + ":" + a)[..|x + ":" + a| - 1] == x + ":" + a[..|a| - 1];
      ColonFreeTail(x, a[..|a| - 1]);
    }
  }

  /** A colon-free suffix after a colon can be split off in only one way. */
  lemma ColonSplit(x: string, a: string, y: string, b: string)
    requires ':' !in a && ':' !in b
    requires x + ":" + a == y + ":" + b
    ensures x == y && a == b
  {
    var s, t := x + ":" + a, y + ":" + b;
    ColonFreeTail(x, a);
    ColonFreeTail(y, b);
    assert x == s[..|x|] && y == t[..|y|];
    assert a == s[|x| + 1..] && b == t[|y| + 1..];
  }

  /** Unit ids name (group, mode, index) uniquely whenever the modes are colon-free; group names are arbitrary. */
  lemma UnitIdInjective(group: string, mode: string, index: nat, group': string, mode': string, index': nat)
    requires ':' !in mode && ':' !in mode'
    requires UnitId(group, mode, index) == UnitId(group', mode', index')
    ensures group == group' && mode == mode' && index == index'
  {
    ItoaDigits(index);
    ItoaDigits(index');
    assert UnitId(group, mode, index) == (group + "::" + mode + ":") + ":" + Itoa(index);
    assert UnitId(group', mode', index') == (group' + "::" + mode' + ":") + ":" + Itoa(index');
    ColonSplit(group + "::" + mode + ":", Itoa(index), group' + "::" + mode' + ":", Itoa(index'));
    ItoaInjective(index, index');
    var s, t := group + "::" + mode, group' + "::" + mode';
    assert (s + ":")[..|s|] == s && (t + ":")[..|t|] == t;
    assert s == (group + ":") + ":" + mode && t == (group' + ":") + ":" + mode';
    ColonSplit(group + ":", mode, group' + ":", mode');
    assert (group + ":")[..|group|] == group && (group' + ":")[..|group'|] == group';
  }

  lemma UnitsCarryTheirIds(group: string, mode: string, laws: seq<Law>, i: nat)
    requires i < |UnitsOf(group, mode, laws)|
    ensures UnitsOf(group, mode, laws)[i].unitId == UnitId(group, mode, i)
  {
    if mode == MODE_LAW_BY_LAW {
      OneUnitPerLaw(group, mode, laws);
      LawByLawUnit(group, mode, laws, i);
    }
  }

  lemma {:induction false} OneUnitPerLaw(group: string, mode: string, laws: seq<Law>)
    ensures |LawByLawUnits(group, mode, laws)| == |laws|
  {
    if laws != [] {
      OneUnitPerLaw(group, mode, laws[..|laws| - 1]);
    }
  }

  /** No two units of a run share an id. */
  lemma UnitIdsDistinct(laws: seq<Law>, groups: map<string, GroupConfig>,
                        lawsByGroup: map<string, seq<Law>>, unitsByGroup: map<string, seq<Unit>>,
                        g: string, i: nat, h: string, j: nat)
    requires Pipeline(laws, groups, lawsByGroup, unitsByGroup)
    requires forall name :: name in groups ==> ':' !in groups[name].mode
    requires g in unitsByGroup && i < |unitsByGroup[g]| && h in unitsByGroup && j < |unitsByGroup[h]|
    requires unitsByGroup[g][i].unitId == unitsByGroup[h][j].unitId
    ensures g == h && i == j
  {
    UnitsCarryTheirIds(g, Config(groups, g).mode, lawsByGroup[g], i);
    UnitsCarryTheirIds(h, Config(groups, h).mode, lawsByGroup[h], j);
    UnitIdInjective(g, Config(groups, g).mode, i, h, Config(groups, h).mode, j);
  }
}
