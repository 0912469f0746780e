/** Law groups: partition by group, evaluation units, dispatch matrix (sdk/go/lawgroup.go). */
module LawGroups {
  import opened Prelude

  datatype Law = Law(id: string, group: string, representations: seq<string>)

  /** passes is an int32 on the wire. */
  datatype GroupConfig = GroupConfig(mode: string, passes: int)

  datatype Unit = Unit(unitId: string, group: string, mode: string, lawIds: seq<string>)

  datatype DispatchEntry = DispatchEntry(group: string, unit: Unit, appraiser: string, pass: int)

  const MODE_BUNDLE := "bundle"
  const MODE_LAW_BY_LAW := "law-by-law"
  const DEFAULT_GROUP := "default"
  const BUILTIN_DEFAULTS := GroupConfig(MODE_BUNDLE, 1)
  const MAX_INT32 := 0x7fff_ffff

  function GroupOf(law: Law): string {
    if law.group == "" then DEFAULT_GROUP else law.group
  }

  function Config(groups: map<string, GroupConfig>, name: string): GroupConfig {
    if name in groups then groups[name] else BUILTIN_DEFAULTS
  }

  /** The pass loop counts in int32: with passes == MaxInt32 its counter wraps and it never ends. */
  ghost predicate PassLoopsEnd(groups: map<string, GroupConfig>) {
    forall name :: name in groups ==> groups[name].passes < MAX_INT32
  }

  // ---------------------------------------------------------------- partition

  /** The laws of one group, in the order given. */
  function LawsIn(laws: seq<Law>, group: string): seq<Law> {
    if laws == [] then []
    else
      var last := laws[|laws| - 1];
      LawsIn(laws[..|laws| - 1], group) + if GroupOf(last) == group then [last] else []
  }

  lemma {:induction false} LawsInMeaning(laws: seq<Law>, group: string, law: Law)
    ensures law in LawsIn(laws, group) <==> law in laws && GroupOf(law) == group
  {
    if laws != [] {
      LawsInMeaning(laws[..|laws| - 1], group, law);
      assert laws == laws[..|laws| - 1] + [laws[|laws| - 1]];
    }
  }

  /** The partition keeps the laws' order: it is a filter. */
  lemma {:induction false} LawsInConcat(laws: seq<Law>, more: seq<Law>, group: string)
    ensures LawsIn(laws + more, group) == LawsIn(laws, group) + LawsIn(more, group)
    decreases |more|
  {
    if more == [] {
      assert laws + more == laws;
    } else {
      assert (laws + more)[..|laws + more| - 1] == laws + more[..|more| - 1];
      LawsInConcat(laws, more[..|more| - 1], group);
    }
  }

  ghost function GroupNames(laws: seq<Law>): set<string> {
    set law | law in laws :: GroupOf(law)
  }

  function LawsUnder(m: map<string, seq<Law>>, g: string): seq<Law> {
    if g in m then m[g] else []
  }

  ghost predicate Grouped(m: map<string, seq<Law>>, laws: seq<Law>) {
    && (forall g :: LawsUnder(m, g) == LawsIn(laws, g))
    && (forall g :: g in m ==> LawsUnder(m, g) != [])
  }

  lemma OneMoreLaw(laws: seq<Law>, law: Law, g: string)
    ensures LawsIn(laws + [law], g) == LawsIn(laws, g) + if GroupOf(law) == g then [law] else []
  {
    assert (laws + [law])[..|laws|] == laws;
  }

  lemma GroupedStep(m: map<string, seq<Law>>, laws: seq<Law>, law: Law)
    requires Grouped(m, laws)
    ensures Grouped(m[GroupOf(law) := LawsUnder(m, GroupOf(law)) + [law]], laws + [law])
  {
    var more := m[GroupOf(law) := LawsUnder(m, GroupOf(law)) + [law]];
    forall g ensures LawsUnder(more, g) == LawsIn(laws + [law], g) {
      assert LawsUnder(m, g) == LawsIn(laws, g);
      OneMoreLaw(laws, law, g);
    }
  }

  lemma GroupedMeans(m: map<string, seq<Law>>, laws: seq<Law>)
    requires Grouped(m, laws)
    ensures m.Keys == GroupNames(laws)
    ensures forall g :: g in m ==> m[g] == LawsIn(laws, g) && m[g] != []
  {
    forall g ensures g in m <==> g in GroupNames(laws)
      ensures g in m ==> m[g] == LawsIn(laws, g) && m[g] != []
    {
      assert LawsUnder(m, g) == LawsIn(laws, g);
      if LawsIn(laws, g) != [] {
        LawsInMeaning(laws, g, LawsIn(laws, g)[0]);
      }
      if law :| law in laws && GroupOf(law) == g {
        LawsInMeaning(laws, g, law);
      }
    }
  }

  method PartitionLawsByGroup(laws: seq<Law>) returns (out: map<string, seq<Law>>)
    ensures out.Keys == GroupNames(laws)
    ensures forall g :: g in out ==> out[g] == LawsIn(laws, g) && out[g] != []
  {
    out := map[];
    for i := 0 to |laws|
      invariant Grouped(out, laws[..i])
    {
      assert laws[..i + 1] == laws[..i] + [laws[i]];
      GroupedStep(out, laws[..i], laws[i]);
      var g := GroupOf(laws[i]);
      out := out[g := LawsUnder(out, g) + [laws[i]]];
    }
    assert laws[..|laws|] == laws;
    GroupedMeans(out, laws);
  }

  // ------------------------------------------------------------------- units

  function Itoa(n: nat): string {
    (if n < 10 then "" else Itoa(n / 10)) + ["0123456789"[n % 10]]
  }

  function UnitId(group: string, mode: string, index: nat): string {
    group + "::" + mode + "::" + Itoa(index)
  }

  function Ids(laws: seq<Law>): (ids: seq<string>)
    ensures |ids| == |laws| && forall i :: 0 <= i < |ids| ==> ids[i] == laws[i].id
  {
    seq(|laws|, i requires 0 <= i < |laws| => laws[i].id)
  }

  /** One unit per law, indexed by position. */
  function LawByLawUnits(group: string, mode: string, laws: seq<Law>): seq<Unit> {
    if laws == [] then []
    else
      var n := |laws| - 1;
      LawByLawUnits(group, mode, laws[..n]) + [Unit(UnitId(group, mode, n), group, mode, [laws[n].id])]
  }

  function UnitsOf(group: string, mode: string, laws: seq<Law>): seq<Unit> {
    if mode == MODE_LAW_BY_LAW then LawByLawUnits(group, mode, laws)
    else if laws == [] then []
    else [Unit(UnitId(group, mode, 0), group, mode, Ids(laws))]
  }

  method ComputeUnits(lawsByGroup: map<string, seq<Law>>, groups: map<string, GroupConfig>)
    returns (out: map<string, seq<Unit>>)
    ensures out.Keys == lawsByGroup.Keys
    ensures forall g :: g in out ==> out[g] == UnitsOf(g, Config(groups, g).mode, lawsByGroup[g])
  {
    out := map[];
    var names := SortedKeys(lawsByGroup);
    SortedMembers(lawsByGroup.Keys);
    for k := 0 to |names|
      invariant forall g :: g in out <==> g in names[..k]
      invariant forall g :: g in out ==> g in lawsByGroup && out[g] == UnitsOf(g, Config(groups, g).mode, lawsByGroup[g])
    {
      assert names[..k + 1] == names[..k] + [names[k]];
      assert names[k] in lawsByGroup.Keys;
      var units := ComputeGroupUnits(names[k], Config(groups, names[k]).mode, lawsByGroup[names[k]]);
      out := out[names[k] := units];
    }
    assert names[..|names|] == names;
  }

  /** The switch on the group's mode; anything but law-by-law is a bundle. */
  method ComputeGroupUnits(group: string, mode: string, laws: seq<Law>) returns (units: seq<Unit>)
    ensures units == UnitsOf(group, mode, laws)
  {
    units := [];
    if mode == MODE_LAW_BY_LAW {
      for i := 0 to |laws|
        invariant units == LawByLawUnits(group, mode, laws[..i])
      {
        assert laws[..i + 1][..i] == laws[..i];
        units := units + [Unit(UnitId(group, mode, i), group, mode, [laws[i].id])];
      }
      assert laws[..|laws|] == laws;
    } else if |laws| > 0 {
      var ids: seq<string> := [];
      for i := 0 to |laws|
        invariant ids == Ids(laws)[..i]
      {
        ids := ids + [laws[i].id];
      }
      assert ids == Ids(laws);
      units := units + [Unit(UnitId(group, mode, 0), group, mode, ids)];
    }
  }

  // ------------------------------------------------------------------ matrix

  function PassEntries(group: string, unit: Unit, appraiser: string, passes: int): seq<DispatchEntry>
    decreases if passes < 0 then 0 else passes
  {
    if passes < 1 then []
    else PassEntries(group, unit, appraiser, passes - 1) + [DispatchEntry(group, unit, appraiser, passes)]
  }

  function AppraiserEntries(group: string, unit: Unit, appraisers: seq<string>, passes: int): seq<DispatchEntry> {
    if appraisers == [] then []
    else
      var n := |appraisers| - 1;
      AppraiserEntries(group, unit, appraisers[..n], passes) + PassEntries(group, unit, appraisers[n], passes)
  }

  function UnitEntries(group: string, units: seq<Unit>, appraisers: seq<string>, passes: int): seq<DispatchEntry> {
    if units == [] then []
    else
      var n := |units| - 1;
      UnitEntries(group, units[..n], appraisers, passes) + AppraiserEntries(group, units[n], appraisers, passes)
  }

  function UnitsIn(unitsByGroup: map<string, seq<Unit>>, group: string): seq<Unit> {
    if group in unitsByGroup then unitsByGroup[group] else []
  }

  function Matrix(names: seq<string>, unitsByGroup: map<string, seq<Unit>>, appraisers: seq<string>,
                  groups: map<string, GroupConfig>): seq<DispatchEntry>
  {
    if names == [] then []
    else
      var n := |names| - 1;
      Matrix(names[..n], unitsByGroup, appraisers, groups)
      + UnitEntries(names[n], UnitsIn(unitsByGroup, names[n]), appraisers, Config(groups, names[n]).passes)
  }

  method ComputeDispatchMatrix(unitsByGroup: map<string, seq<Unit>>, appraiserIds: seq<string>,
                               groups: map<string, GroupConfig>)
    returns (entries: seq<DispatchEntry>)
    requires PassLoopsEnd(groups)
    ensures entries == Matrix(Sorted(unitsByGroup.Keys), unitsByGroup, appraiserIds, groups)
  {
    entries := [];
    if |appraiserIds| == 0 {
      NoAppraisers(Sorted(unitsByGroup.Keys), unitsByGroup, groups);
      return;
    }
    var names := SortedKeys(unitsByGroup);
    for k := 0 to |names|
      invariant entries == Matrix(names[..k], unitsByGroup, appraiserIds, groups)
    {
      var more := DispatchGroup(names[k], UnitsIn(unitsByGroup, names[k]), appraiserIds, Config(groups, names[k]).passes);
      MatrixStep(names, k, unitsByGroup, appraiserIds, groups);
      entries := entries + more;
    }
    assert names[..|names|] == names;
  }

  lemma MatrixStep(names: seq<string>, k: nat, unitsByGroup: map<string, seq<Unit>>, appraisers: seq<string>,
                   groups: map<string, GroupConfig>)
    requires k < |names|
    ensures Matrix(names[..k + 1], unitsByGroup, appraisers, groups)
         == Matrix(names[..k], unitsByGroup, appraisers, groups)
            + UnitEntries(names[k], UnitsIn(unitsByGroup, names[k]), appraisers, Config(groups, names[k]).passes)
  {
    assert names[..k + 1][..k] == names[..k];
  }

  method DispatchGroup(group: string, units: seq<Unit>, appraiserIds: seq<string>, passes: int)
    returns (entries: seq<DispatchEntry>)
    requires passes < MAX_INT32
    ensures entries == UnitEntries(group, units, appraiserIds, passes)
  {
    entries := [];
    for u := 0 to |units|
      invariant entries == UnitEntries(group, units[..u], appraiserIds, passes)
    {
      var more := DispatchUnit(group, units[u], appraiserIds, passes);
      assert units[..u + 1][..u] == units[..u];
      entries := entries + more;
    }
    assert units[..|units|] == units;
  }

  /** Every appraiser, every pass. */
  method DispatchUnit(group: string, unit: Unit, appraiserIds: seq<string>, passes: int)
    returns (entries: seq<DispatchEntry>)
    requires passes < MAX_INT32
    ensures entries == AppraiserEntries(group, unit, appraiserIds, passes)
  {
    entries := [];
    for a := 0 to |appraiserIds|
      invariant entries == AppraiserEntries(group, unit, appraiserIds[..a], passes)
    {
      ghost var before := entries;
      var pass := 1;
      while pass <= passes
        invariant 1 <= pass <= MAX_INT32 && pass <= (if passes < 1 then 1 else passes + 1)
        invariant entries == before + PassEntries(group, unit, appraiserIds[a], pass - 1)
      {
        entries := entries + [DispatchEntry(group, unit, appraiserIds[a], pass)];
        pass := pass + 1;
      }
      assert PassEntries(group, unit, appraiserIds[a], pass - 1) == PassEntries(group, unit, appraiserIds[a], passes);
      assert appraiserIds[..a + 1][..a] == appraiserIds[..a];
    }
    assert appraiserIds[..|appraiserIds|] == appraiserIds;
  }

  lemma {:induction false} NoAppraisers(names: seq<string>, unitsByGroup: map<string, seq<Unit>>, groups: map<string, GroupConfig>)
    ensures Matrix(names, unitsByGroup, [], groups) == []
  {
    if names != [] {
      var n := |names| - 1;
      NoAppraisers(names[..n], unitsByGroup, groups);
      NoUnitEntries(names[n], UnitsIn(unitsByGroup, names[n]), Config(groups, names[n]).passes);
    }
  }

  lemma {:induction false} NoUnitEntries(group: string, units: seq<Unit>, passes: int)
    ensures UnitEntries(group, units, [], passes) == []
  {
    if units != [] {
      NoUnitEntries(group, units[..|units| - 1], passes);
    }
  }

  /** The int32 increment of the pass loop. */
  function Increment(pass: int): int {
    if pass == MAX_INT32 then -0x8000_0000 else pass + 1
  }

  /** The loop counter after n turns. */
  function PassAfter(n: nat): (pass: int)
    ensures -0x8000_0000 <= pass <= MAX_INT32
  {
    if n == 0 then 1 else Increment(PassAfter(n - 1))
  }

  lemma {:induction false} CountsUp(n: nat)
    requires n < MAX_INT32
    ensures PassAfter(n) == n + 1
  {
    if n > 0 { CountsUp(n - 1); }
  }

  /** The pass loop ends exactly when the configured passes are below the int32 maximum, past which its counter wraps. */
  lemma PassLoopEndsIff(passes: int)
    requires passes <= MAX_INT32
    ensures (exists n: nat :: PassAfter(n) > passes) <==> passes < MAX_INT32
  {
    if passes < MAX_INT32 {
      var n: nat := if passes < 1 then 0 else passes;
      CountsUp(n);
      assert PassAfter(n) > passes;
    }
  }
}
