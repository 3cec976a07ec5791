/** Retiring the hand-curated skills: the whole script over its tables. */
module Retirement {
  import opened Wrappers
  import opened Rekeying

  datatype Source = Nsqf | Curated | Legacy

  datatype Skill = Skill(id: Id, slug: string, code: Option<string>, source: Source)

  datatype Alias = Alias(skill: Id, form: string, script: string)

  // ------------------------------------------------------------------ which skill goes where

  /** National standards by code. */
  function ByNos(skills: seq<Skill>): map<string, Id> {
    if skills == [] then map[]
    else
      var last := skills[|skills| - 1];
      var before := ByNos(skills[..|skills| - 1]);
      if last.source == Nsqf && last.code.Some? then before[last.code.value := last.id] else before
  }

  /** The standard a curated skill is mapped to, if the map names it and the import produced it. */
  function MapsTo(skill: Skill, byNos: map<string, Id>, legacy: map<string, string>): Option<Id> {
    if skill.source != Nsqf && skill.slug in legacy && legacy[skill.slug] in byNos
    then Some(byNos[legacy[skill.slug]])
    else None
  }

  /** Curated skill id to standard id. */
  function Target(skills: seq<Skill>, byNos: map<string, Id>, legacy: map<string, string>): map<Id, Id> {
    if skills == [] then map[]
    else
      var last := skills[|skills| - 1];
      var before := Target(skills[..|skills| - 1], byNos, legacy);
      if MapsTo(last, byNos, legacy).Some? then before[last.id := MapsTo(last, byNos, legacy).value] else before
  }

  ghost predicate UniqueIds(skills: seq<Skill>) {
    forall i, j :: 0 <= i < j < |skills| ==> skills[i].id != skills[j].id
  }

  lemma {:induction false} StandardsAreNsqf(skills: seq<Skill>, code: string)
    requires code in ByNos(skills)
    ensures exists i :: 0 <= i < |skills| && skills[i].source == Nsqf && skills[i].code == Some(code) && skills[i].id == ByNos(skills)[code]
  {
    var k := |skills| - 1;
    if !(skills[k].source == Nsqf && skills[k].code == Some(code)) {
      StandardsAreNsqf(skills[..k], code);
      var i :| 0 <= i < k && skills[..k][i].source == Nsqf && skills[..k][i].code == Some(code) && skills[..k][i].id == ByNos(skills)[code];
      assert skills[i] == skills[..k][i];
    }
  }

  /** The mapped ids are exactly the ids of the skills that map somewhere, each to its own standard. */
  lemma {:induction false} TargetIsMapsTo(skills: seq<Skill>, byNos: map<string, Id>, legacy: map<string, string>)
    requires UniqueIds(skills)
    ensures forall i :: 0 <= i < |skills| ==>
      (skills[i].id in Target(skills, byNos, legacy) <==> MapsTo(skills[i], byNos, legacy).Some?)
    ensures forall i :: 0 <= i < |skills| && MapsTo(skills[i], byNos, legacy).Some? ==>
      Target(skills, byNos, legacy)[skills[i].id] == MapsTo(skills[i], byNos, legacy).value
    ensures forall a :: a in Target(skills, byNos, legacy) ==> HasId(skills, a)
  {
    if skills != [] {
      var k := |skills| - 1;
      var before := Target(skills[..k], byNos, legacy);
      TargetIsMapsTo(skills[..k], byNos, legacy);
      assert forall i :: 0 <= i < k ==> skills[..k][i] == skills[i];
      assert !HasId(skills[..k], skills[k].id);
      assert forall a :: HasId(skills[..k], a) ==> HasId(skills, a);
      assert HasId(skills, skills[k].id);
    }
  }

  ghost predicate HasId(skills: seq<Skill>, id: Id) {
    exists i :: 0 <= i < |skills| && skills[i].id == id
  }

  /** No standard is itself retired. */
  lemma TargetsAreStandards(skills: seq<Skill>, legacy: map<string, string>)
    requires UniqueIds(skills)
    ensures OntoStandards(Target(skills, ByNos(skills), legacy))
  {
    var byNos := ByNos(skills);
    TargetIsMapsTo(skills, byNos, legacy);
    var target := Target(skills, byNos, legacy);
    forall a | a in target
      ensures target[a] !in target
    {
      assert HasId(skills, a);
      var i :| 0 <= i < |skills| && skills[i].id == a;
      StandardsAreNsqf(skills, legacy[skills[i].slug]);
      var n :| 0 <= n < |skills| && skills[n].source == Nsqf && skills[n].id == target[a];
      assert !MapsTo(skills[n], byNos, legacy).Some?;
    }
  }

  // ------------------------------------------------------------------ carrying the aliases

  predicate HasAlias(aliases: seq<Alias>, skill: Id, form: string) {
    exists i :: 0 <= i < |aliases| && aliases[i].skill == skill && aliases[i].form == form
  }

  /** The unique constraint on (skill, surface form). */
  predicate OneAliasEach(aliases: seq<Alias>) {
    forall i, j :: 0 <= i < j < |aliases| ==>
      !(aliases[i].skill == aliases[j].skill && aliases[i].form == aliases[j].form)
  }

  /** The aliases added for one curated skill; the clash check reads the table as it was when the skill
      was begun, since the flush is after the skill. */
  function NewAliases(rows: seq<Alias>, table: seq<Alias>, skill: Id, standard: Id): seq<Alias> {
    if rows == [] then []
    else
      var last := rows[|rows| - 1];
      NewAliases(rows[..|rows| - 1], table, skill, standard) +
      if last.skill == skill && !HasAlias(table, standard, last.form)
      then [Alias(standard, last.form, last.script)] else []
  }

  function CarryOne(aliases: seq<Alias>, skill: Id, target: map<Id, Id>): (after: seq<Alias>)
    ensures aliases <= after
  {
    if skill in target then aliases + NewAliases(aliases, aliases, skill, target[skill]) else aliases
  }

  /** Skill after skill, each flushed before the next. */
  function Carry(aliases: seq<Alias>, skills: seq<Id>, target: map<Id, Id>): (after: seq<Alias>)
    ensures aliases <= after
  {
    if skills == [] then aliases
    else CarryOne(Carry(aliases, skills[..|skills| - 1], target), skills[|skills| - 1], target)
  }

  lemma {:induction false} AddedFrom(rows: seq<Alias>, table: seq<Alias>, skill: Id, standard: Id, a: Alias)
    ensures a in NewAliases(rows, table, skill, standard) <==>
            exists i :: 0 <= i < |rows| && rows[i].skill == skill && !HasAlias(table, standard, rows[i].form)
                        && a == Alias(standard, rows[i].form, rows[i].script)
  {
    if rows != [] {
      var k := |rows| - 1;
      AddedFrom(rows[..k], table, skill, standard, a);
      assert forall i :: 0 <= i < k ==> rows[..k][i] == rows[i];
    }
  }

  lemma {:induction false} AddedOnce(rows: seq<Alias>, table: seq<Alias>, skill: Id, standard: Id)
    requires OneAliasEach(rows)
    ensures OneAliasEach(NewAliases(rows, table, skill, standard))
  {
    if rows != [] {
      var k := |rows| - 1;
      AddedOnce(rows[..k], table, skill, standard);
      var front := NewAliases(rows[..k], table, skill, standard);
      forall x | 0 <= x < |front| && rows[k].skill == skill
        ensures front[x].form != rows[k].form
      {
        AddedFrom(rows[..k], table, skill, standard, front[x]);
      }
    }
  }

  lemma HasRow(aliases: seq<Alias>, a: Alias)
    requires a in aliases
    ensures HasAlias(aliases, a.skill, a.form)
  {
    var i :| 0 <= i < |aliases| && aliases[i] == a;
  }

  /** The flush after a skill never meets the unique constraint. */
  lemma CarryOneKeepsUnique(aliases: seq<Alias>, skill: Id, target: map<Id, Id>)
    requires OneAliasEach(aliases)
    ensures OneAliasEach(CarryOne(aliases, skill, target))
  {
    if skill in target {
      var added := NewAliases(aliases, aliases, skill, target[skill]);
      AddedOnce(aliases, aliases, skill, target[skill]);
      forall i, x | 0 <= i < |aliases| && 0 <= x < |added|
        ensures !(aliases[i].skill == added[x].skill && aliases[i].form == added[x].form)
      {
        AddedFrom(aliases, aliases, skill, target[skill], added[x]);
      }
    }
  }

  /** What carrying one skill leaves: nothing lost, every form of the skill on its standard, and nothing
      but those added. */
  lemma CarryOneAdds(aliases: seq<Alias>, skill: Id, target: map<Id, Id>, id: Id, form: string)
    ensures HasAlias(CarryOne(aliases, skill, target), id, form) <==>
            HasAlias(aliases, id, form) || (skill in target && id == target[skill] && HasAlias(aliases, skill, form))
  {
    var after := CarryOne(aliases, skill, target);
    if skill in target {
      var standard := target[skill];
      var added := NewAliases(aliases, aliases, skill, standard);
      if HasAlias(after, id, form) && !HasAlias(aliases, id, form) {
        var i :| 0 <= i < |after| && after[i].skill == id && after[i].form == form;
        AddedFrom(aliases, aliases, skill, standard, after[i]);
      }
      if HasAlias(aliases, id, form) {
        var i :| 0 <= i < |aliases| && aliases[i].skill == id && aliases[i].form == form;
        assert after[i] == aliases[i];
      } else if id == standard && HasAlias(aliases, skill, form) {
        var i :| 0 <= i < |aliases| && aliases[i].skill == skill && aliases[i].form == form;
        AddedFrom(aliases, aliases, skill, standard, Alias(standard, form, aliases[i].script));
        HasRow(after, Alias(standard, form, aliases[i].script));
      }
    }
  }

  /** A mapped skill of the list goes to `id` and has the form. */
  ghost predicate Arrives(aliases: seq<Alias>, skills: seq<Id>, target: map<Id, Id>, id: Id, form: string) {
    exists k :: 0 <= k < |skills| && skills[k] in target && target[skills[k]] == id && HasAlias(aliases, skills[k], form)
  }

  /** Afterwards a skill has exactly the forms it had and those of the skills mapped to it, each once. */
  lemma {:induction false} CarryAdds(aliases: seq<Alias>, skills: seq<Id>, target: map<Id, Id>, id: Id, form: string)
    requires OntoStandards(target) && OneAliasEach(aliases)
    ensures OneAliasEach(Carry(aliases, skills, target))
    ensures HasAlias(Carry(aliases, skills, target), id, form) <==>
            HasAlias(aliases, id, form) || Arrives(aliases, skills, target, id, form)
  {
    if skills != [] {
      var k := |skills| - 1;
      var before := Carry(aliases, skills[..k], target);
      CarryAdds(aliases, skills[..k], target, id, form);
      CarryAdds(aliases, skills[..k], target, skills[k], form);
      CarryOneAdds(before, skills[k], target, id, form);
      CarryOneKeepsUnique(before, skills[k], target);
      assert forall i :: 0 <= i < k ==> skills[..k][i] == skills[i];
      assert skills[k] in target ==> !Arrives(aliases, skills[..k], target, skills[k], form);
    }
  }

  lemma {:induction false} NothingNew(rows: seq<Alias>, table: seq<Alias>, skill: Id, standard: Id)
    requires forall a :: a in rows && a.skill == skill ==> HasAlias(table, standard, a.form)
    ensures NewAliases(rows, table, skill, standard) == []
  {
    if rows != [] {
      NothingNew(rows[..|rows| - 1], table, skill, standard);
    }
  }

  /** Once every form has arrived, carrying adds nothing. */
  lemma {:induction false} NothingToCarry(aliases: seq<Alias>, skills: seq<Id>, target: map<Id, Id>)
    requires forall k, form :: 0 <= k < |skills| && skills[k] in target && HasAlias(aliases, skills[k], form) ==>
               HasAlias(aliases, target[skills[k]], form)
    ensures Carry(aliases, skills, target) == aliases
  {
    if skills != [] {
      var k := |skills| - 1;
      assert forall i :: 0 <= i < k ==> skills[..k][i] == skills[i];
      NothingToCarry(aliases, skills[..k], target);
      if skills[k] in target {
        forall a | a in aliases && a.skill == skills[k]
          ensures HasAlias(aliases, target[skills[k]], a.form)
        {
          HasRow(aliases, a);
        }
        NothingNew(aliases, aliases, skills[k], target[skills[k]]);
      }
    }
  }

  /** A second run carries nothing. */
  lemma CarryingTwice(aliases: seq<Alias>, skills: seq<Id>, target: map<Id, Id>)
    requires OntoStandards(target) && OneAliasEach(aliases)
    ensures var after := Carry(aliases, skills, target); Carry(after, skills, target) == after
  {
    var after := Carry(aliases, skills, target);
    forall k, form | 0 <= k < |skills| && skills[k] in target && HasAlias(after, skills[k], form)
      ensures HasAlias(after, target[skills[k]], form)
    {
      CarryAdds(aliases, skills, target, skills[k], form);
      CarryAdds(aliases, skills, target, target[skills[k]], form);
    }
    NothingToCarry(after, skills, target);
  }

  // ------------------------------------------------------------------ marking the skills

  function Retire(skills: seq<Skill>, target: map<Id, Id>): seq<Skill> {
    seq(|skills|, i requires 0 <= i < |skills| =>
      if skills[i].id in target then skills[i].(source := Legacy) else skills[i])
  }

  function CountRetired(skills: seq<Skill>, target: map<Id, Id>): nat {
    if skills == [] then 0
    else
      var last := skills[|skills| - 1];
      CountRetired(skills[..|skills| - 1], target) + if last.id in target && last.source != Legacy then 1 else 0
  }

  /** The ids of the curated and legacy skills, in table order. */
  function CuratedIds(skills: seq<Skill>): seq<Id> {
    if skills == [] then []
    else
      var last := skills[|skills| - 1];
      CuratedIds(skills[..|skills| - 1]) + if last.source != Nsqf then [last.id] else []
  }

  /** Only curated skills are retired. */
  ghost predicate OnlyCurated(skills: seq<Skill>, target: map<Id, Id>) {
    forall i :: 0 <= i < |skills| && skills[i].id in target ==> skills[i].source != Nsqf
  }

  lemma RetirePrefix(skills: seq<Skill>, target: map<Id, Id>)
    requires skills != [] && OnlyCurated(skills, target)
    ensures Retire(skills, target)[..|skills| - 1] == Retire(skills[..|skills| - 1], target)
    ensures OnlyCurated(skills[..|skills| - 1], target)
  {
    assert forall i :: 0 <= i < |skills| - 1 ==> skills[..|skills| - 1][i] == skills[i];
  }

  /** Retiring leaves every lookup as it was, and nothing more to retire. */
  lemma {:induction false} RetireKeepsLookups(skills: seq<Skill>, target: map<Id, Id>, byNos: map<string, Id>, legacy: map<string, string>)
    requires OnlyCurated(skills, target)
    ensures ByNos(Retire(skills, target)) == ByNos(skills)
    ensures Target(Retire(skills, target), byNos, legacy) == Target(skills, byNos, legacy)
  {
    if skills != [] {
      RetirePrefix(skills, target);
      RetireKeepsLookups(skills[..|skills| - 1], target, byNos, legacy);
    }
  }

  lemma {:induction false} RetireKeepsCurated(skills: seq<Skill>, target: map<Id, Id>)
    requires OnlyCurated(skills, target)
    ensures CuratedIds(Retire(skills, target)) == CuratedIds(skills)
    ensures CountRetired(Retire(skills, target), target) == 0
  {
    if skills != [] {
      RetirePrefix(skills, target);
      RetireKeepsCurated(skills[..|skills| - 1], target);
    }
  }

  lemma RetireTwice(skills: seq<Skill>, target: map<Id, Id>)
    ensures Retire(Retire(skills, target), target) == Retire(skills, target)
  {
    assert forall i :: 0 <= i < |skills| ==> Retire(Retire(skills, target), target)[i] == Retire(skills, target)[i];
  }

  lemma RetiredAreCurated(skills: seq<Skill>, legacy: map<string, string>)
    requires UniqueIds(skills)
    ensures OnlyCurated(skills, Target(skills, ByNos(skills), legacy))
  {
    TargetIsMapsTo(skills, ByNos(skills), legacy);
  }

  lemma {:induction false} CuratedIdsHave(skills: seq<Skill>, i: nat)
    requires i < |skills| && skills[i].source != Nsqf
    ensures skills[i].id in CuratedIds(skills)
  {
    var k := |skills| - 1;
    if i < k {
      CuratedIdsHave(skills[..k], i);
    }
  }

  // ------------------------------------------------------------------ the script

  datatype Tables = Tables(skills: seq<Skill>, held: seq<Row>, certificates: seq<Row>, aliases: seq<Alias>)

  /** The constraints the database keeps: primary keys, and one row for each profile and skill and for
      each skill and surface form. Certificates carry no such constraint. */
  ghost predicate Consistent(t: Tables) {
    UniqueIds(t.skills) && OneRowEach(t.held) && OneAliasEach(t.aliases)
  }

  datatype Outcome =
    | NoStandards
    | UniqueViolation
    | Committed(skillsMoved: nat, certificatesMoved: nat, carried: nat, retired: nat)

  function TargetOf(t: Tables, legacy: map<string, string>): map<Id, Id> {
    Target(t.skills, ByNos(t.skills), legacy)
  }

  function Migrated(t: Tables, legacy: map<string, string>): Tables {
    var target := TargetOf(t, legacy);
    Tables(Retire(t.skills, target), Move(t.held, target), Move(t.certificates, target),
           Carry(t.aliases, CuratedIds(t.skills), target))
  }

  /** What the script reports of one run over given tables. */
  ghost function Report(t: Tables, legacy: map<string, string>): Outcome {
    var target := TargetOf(t, legacy);
    if ByNos(t.skills) == map[] then NoStandards
    else if DoubleMove(t.held, target) then UniqueViolation
    else Committed(CountMapped(t.held, target), CountMapped(t.certificates, target),
                   |Carry(t.aliases, CuratedIds(t.skills), target)| - |t.aliases|,
                   CountRetired(t.skills, target))
  }

  method FindTarget(skills: seq<Skill>, byNos: map<string, Id>, legacy: map<string, string>) returns (target: map<Id, Id>)
    ensures target == Target(skills, byNos, legacy)
  {
    target := map[];
    for i := 0 to |skills|
      invariant target == Target(skills[..i], byNos, legacy)
    {
      var standard := MapsTo(skills[i], byNos, legacy);
      if standard.Some? {
        target := target[skills[i].id := standard.value];
      }
      assert skills[..i + 1][..i] == skills[..i];
    }
    assert skills[..|skills|] == skills;
  }

  /** Phase one over one table: what is to be flushed, and the count. */
  method MoveRows(table: seq<Row>, target: map<Id, Id>) returns (after: seq<Row>, moved: nat)
    ensures after == Move(table, target) && moved == CountMapped(table, target)
  {
    after, moved := [], 0;
    for i := 0 to |table|
      invariant after == MoveAll(table[..i], table, target)
      invariant moved == CountMapped(table[..i], target)
    {
      var row := table[i];
      if !Mapped(row, target) {
        after := after + [row];
      } else {
        var standard := target[row.skill.value];
        if !Holds(table, row.profile, standard) {
          after := after + [row.(skill := Some(standard))];
        }
        moved := moved + 1;
      }
      assert table[..i + 1][..i] == table[..i];
    }
    assert table[..|table|] == table;
  }

  /** The aliases of one curated skill, added to its standard unless they clash. */
  method CarrySkill(aliases: seq<Alias>, skill: Id, target: map<Id, Id>) returns (after: seq<Alias>, carried: nat)
    ensures after == CarryOne(aliases, skill, target) && |after| == |aliases| + carried
  {
    after, carried := aliases, 0;
    if skill in target {
      var standard := target[skill];
      for i := 0 to |aliases|
        invariant after == aliases + NewAliases(aliases[..i], aliases, skill, standard)
        invariant |after| == |aliases| + carried
      {
        if aliases[i].skill == skill && !HasAlias(aliases, standard, aliases[i].form) {
          after := after + [Alias(standard, aliases[i].form, aliases[i].script)];
          carried := carried + 1;
        }
        assert aliases[..i + 1][..i] == aliases[..i];
      }
      assert aliases[..|aliases|] == aliases;
    }
  }

  method CarryAliases(aliases: seq<Alias>, curated: seq<Id>, target: map<Id, Id>) returns (after: seq<Alias>, carried: nat)
    ensures after == Carry(aliases, curated, target) && |after| == |aliases| + carried
  {
    after, carried := aliases, 0;
    for k := 0 to |curated|
      invariant after == Carry(aliases, curated[..k], target)
      invariant |after| == |aliases| + carried
    {
      var added: nat;
      after, added := CarrySkill(after, curated[k], target);
      carried := carried + added;
      assert curated[..k + 1][..k] == curated[..k];
    }
    assert curated[..|curated|] == curated;
  }

  method MarkLegacy(skills: seq<Skill>, target: map<Id, Id>) returns (after: seq<Skill>, retired: nat)
    ensures after == Retire(skills, target) && retired == CountRetired(skills, target)
  {
    after, retired := skills, 0;
    for i := 0 to |skills|
      invariant |after| == |skills|
      invariant forall j :: 0 <= j < |skills| ==> after[j] == if j < i then Retire(skills, target)[j] else skills[j]
      invariant retired == CountRetired(skills[..i], target)
    {
      if after[i].id in target && after[i].source != Legacy {
        after := after[i := after[i].(source := Legacy)];
        retired := retired + 1;
      }
      assert skills[..i + 1][..i] == skills[..i];
    }
    assert skills[..|skills|] == skills;
  }

  class Database {
    var skills: seq<Skill>
    var held: seq<Row>
    var certificates: seq<Row>
    var aliases: seq<Alias>

    ghost function State(): Tables
      reads this
    {
      Tables(skills, held, certificates, aliases)
    }

    constructor (t: Tables)
      ensures State() == t
    {
      skills, held, certificates, aliases := t.skills, t.held, t.certificates, t.aliases;
    }

    /** The script, in one transaction: all of it is committed, or nothing is. */
    method Run(legacy: map<string, string>) returns (outcome: Outcome)
      requires Consistent(State())
      modifies this
      ensures outcome == Report(old(State()), legacy)
      ensures State() == if outcome.Committed? then Migrated(old(State()), legacy) else old(State())
    {
      hide ByNos, Target, Move, Carry, Retire, CountMapped, CountRetired, CuratedIds, DoubleMove, OneRowEach, OneAliasEach;
      var byNos := ByNos(skills);
      if byNos == map[] {
        return NoStandards;
      }
      var target := FindTarget(skills, byNos, legacy);
      TargetsAreStandards(skills, legacy);
      FlushSucceedsExactly(held, target);
      var newHeld, skillsMoved := MoveRows(held, target);
      if !OneRowEach(newHeld) {
        return UniqueViolation;
      }
      var newCertificates, certificatesMoved := MoveRows(certificates, target);
      var newAliases, carried := CarryAliases(aliases, CuratedIds(skills), target);
      var newSkills, retired := MarkLegacy(skills, target);
      skills, held, certificates, aliases := newSkills, newHeld, newCertificates, newAliases;
      return Committed(skillsMoved, certificatesMoved, carried, retired);
    }
  }

  // ------------------------------------------------------------------ what a committed run leaves

  lemma RetireKeepsIds(skills: seq<Skill>, target: map<Id, Id>)
    requires UniqueIds(skills)
    ensures UniqueIds(Retire(skills, target))
  {
    var after := Retire(skills, target);
    assert forall i :: 0 <= i < |skills| ==> after[i].id == skills[i].id;
  }

  /** A committed run leaves the database consistent. */
  lemma MigrationKeepsConstraints(t: Tables, legacy: map<string, string>)
    requires Consistent(t) && Report(t, legacy).Committed?
    ensures Consistent(Migrated(t, legacy))
  {
    var target := TargetOf(t, legacy);
    TargetsAreStandards(t.skills, legacy);
    FlushSucceedsExactly(t.held, target);
    CarryAdds(t.aliases, CuratedIds(t.skills), target, 0, "");
    RetireKeepsIds(t.skills, target);
  }

  /** The script commits exactly when there are standards and no profile holds two retired skills of one
      standard without holding the standard; which is when the moved rows meet the unique constraint. */
  lemma CommitsExactly(t: Tables, legacy: map<string, string>)
    requires Consistent(t)
    ensures Report(t, legacy).Committed? <==>
            ByNos(t.skills) != map[] && OneRowEach(Migrated(t, legacy).held)
    ensures OneRowEach(Migrated(t, legacy).held) <==> !DoubleMove(t.held, TargetOf(t, legacy))
  {
    TargetsAreStandards(t.skills, legacy);
    FlushSucceedsExactly(t.held, TargetOf(t, legacy));
  }

  /** Afterwards each profile's skills, and each profile's certified skills, are the images of what they
      were, and nothing points at a retired skill. */
  lemma ProfilesKeepTheirSkills(t: Tables, legacy: map<string, string>, profile: Id, skill: Id)
    requires Consistent(t) && Report(t, legacy).Committed?
    ensures var after, target := Migrated(t, legacy), TargetOf(t, legacy);
      && (Holds(after.held, profile, skill) <==> HoldsImage(t.held, target, profile, skill))
      && (Holds(after.certificates, profile, skill) <==> HoldsImage(t.certificates, target, profile, skill))
      && (forall r :: r in after.held || r in after.certificates ==> !Mapped(r, target))
  {
    var after, target := Migrated(t, legacy), TargetOf(t, legacy);
    TargetsAreStandards(t.skills, legacy);
    SkillsAreImages(t.held, target, profile, skill);
    SkillsAreImages(t.certificates, target, profile, skill);
    forall r | r in after.held || r in after.certificates
      ensures !Mapped(r, target)
    {
      if r in after.held { NoneLeft(t.held, target, r); } else { NoneLeft(t.certificates, target, r); }
    }
  }

  /** Afterwards every surface form of a retired skill is on its standard, exactly once, and no alias is
      lost. */
  lemma StandardsGainTheForms(t: Tables, legacy: map<string, string>, i: nat, form: string)
    requires Consistent(t) && i < |t.skills| && t.skills[i].id in TargetOf(t, legacy)
    requires HasAlias(t.aliases, t.skills[i].id, form)
    ensures var after := Migrated(t, legacy).aliases;
      && HasAlias(after, TargetOf(t, legacy)[t.skills[i].id], form)
      && OneAliasEach(after) && t.aliases <= after
  {
    var target := TargetOf(t, legacy);
    TargetsAreStandards(t.skills, legacy);
    RetiredAreCurated(t.skills, legacy);
    CuratedIdsHave(t.skills, i);
    var ids := CuratedIds(t.skills);
    var k :| 0 <= k < |ids| && ids[k] == t.skills[i].id;
    assert Arrives(t.aliases, ids, target, target[ids[k]], form);
    CarryAdds(t.aliases, ids, target, target[ids[k]], form);
  }

  /** A second run changes nothing and counts zero. */
  lemma SecondRunIsIdle(t: Tables, legacy: map<string, string>)
    requires Consistent(t) && Report(t, legacy).Committed?
    ensures var after := Migrated(t, legacy);
      Migrated(after, legacy) == after && Report(after, legacy) == Committed(0, 0, 0, 0)
  {
    var after, target := Migrated(t, legacy), TargetOf(t, legacy);
    TargetsAreStandards(t.skills, legacy);
    RetiredAreCurated(t.skills, legacy);
    RetireKeepsLookups(t.skills, target, ByNos(t.skills), legacy);
    RetireKeepsCurated(t.skills, target);
    RetireTwice(t.skills, target);
    MovingTwice(t.held, target);
    MovingTwice(t.certificates, target);
    CarryingTwice(t.aliases, CuratedIds(t.skills), target);
    MigrationKeepsConstraints(t, legacy);
    FlushSucceedsExactly(after.held, target);
  }

  // ------------------------------------------------------------------ where the script stops short

  /** Certificates have no constraint on profile and skill: a committed run leaves one certificate for each
      exactly when no profile holds two, for retired skills of one standard, without one for the
      standard. */
  lemma CertificatesStayUniqueExactly(t: Tables, legacy: map<string, string>)
    requires Consistent(t) && OneRowEach(t.certificates)
    ensures OneRowEach(Migrated(t, legacy).certificates) <==> !DoubleMove(t.certificates, TargetOf(t, legacy))
  {
    TargetsAreStandards(t.skills, legacy);
    FlushSucceedsExactly(t.certificates, TargetOf(t, legacy));
  }

  const CODE := "HSS/N9618"

  const TWO_TO_ONE := map["hand-hygiene" := CODE, "infection-control" := CODE]

  /** One standard, and the two curated skills that are mapped to it. */
  const THREE_SKILLS := [
    Skill(0, "standard", Some(CODE), Nsqf),
    Skill(1, "hand-hygiene", None, Curated),
    Skill(2, "infection-control", None, Curated)]

  /** One profile with both curated skills. */
  const BOTH := [Row(10, 7, Some(1)), Row(11, 7, Some(2))]

  lemma TheTarget()
    ensures ByNos(THREE_SKILLS) == map[CODE := 0]
    ensures Target(THREE_SKILLS, map[CODE := 0], TWO_TO_ONE) == map[1 := 0, 2 := 0]
  {
    hide CODE;
    var s := THREE_SKILLS;
    assert s[..2] == [s[0], s[1]] && s[..2][..1] == [s[0]] && s[..1][..0] == [];
    assert ByNos([s[0]]) == map[CODE := 0];
    assert ByNos(s[..2]) == map[CODE := 0];
    assert "hand-hygiene" in TWO_TO_ONE && "infection-control" in TWO_TO_ONE;
    var byNos: map<string, Id> := map[CODE := 0];
    assert Target([s[0]], byNos, TWO_TO_ONE) == map[];
    assert Target(s[..2], byNos, TWO_TO_ONE) == map[1 := 0];
  }

  /** A profile that declared both skills: the script fails on the constraint and commits nothing. The same
      two as certificates: it commits, and the profile holds two for one standard. */
  lemma BothSkillsOfOneStandard()
    ensures var t := Tables(THREE_SKILLS, BOTH, [], []);
      Consistent(t) && Report(t, TWO_TO_ONE) == UniqueViolation
    ensures var t := Tables(THREE_SKILLS, [], BOTH, []);
      Consistent(t) && Report(t, TWO_TO_ONE).Committed? && OneRowEach(t.certificates)
      && !OneRowEach(Migrated(t, TWO_TO_ONE).certificates)
  {
    hide ByNos, Target, CODE, TWO_TO_ONE;
    TheTarget();
    var target: map<Id, Id> := map[1 := 0, 2 := 0];
    assert THREE_SKILLS[0].id == 0 && THREE_SKILLS[1].id == 1 && THREE_SKILLS[2].id == 2;
    assert ClashAt(BOTH, target, 0, 1) by { assert !Holds(BOTH, 7, 0); }
    assert DoubleMove(BOTH, target);
    assert ByNos(THREE_SKILLS) != map[] by { assert CODE in ByNos(THREE_SKILLS); }
    assert TargetOf(Tables(THREE_SKILLS, BOTH, [], []), TWO_TO_ONE) == target;
    assert Report(Tables(THREE_SKILLS, BOTH, [], []), TWO_TO_ONE) == UniqueViolation;
    assert !DoubleMove([], target);
    CertificatesStayUniqueExactly(Tables(THREE_SKILLS, [], BOTH, []), TWO_TO_ONE);
  }
}
