/** What one run of the migration leaves, row by row, in terms of the tables it began with. */
module Migration {
  import opened Wrappers
  import opened Rekeying
  import opened Retirement

  /** Skill `n` is the last national standard the import produced for a code. */
  ghost predicate StandardFor(skills: seq<Skill>, code: string, n: nat) {
    && n < |skills| && skills[n].source == Nsqf && skills[n].code == Some(code)
    && forall j :: n < j < |skills| ==> !(skills[j].source == Nsqf && skills[j].code == Some(code))
  }

  /** The import produced a standard for the code. */
  ghost predicate Produced(skills: seq<Skill>, code: string) {
    exists n :: 0 <= n < |skills| && skills[n].source == Nsqf && skills[n].code == Some(code)
  }

  /** A skill that is retired: not itself a standard, named by the map, and its standard was produced. */
  ghost predicate Retires(skills: seq<Skill>, legacy: map<string, string>, i: nat) {
    i < |skills| && skills[i].source != Nsqf && skills[i].slug in legacy && Produced(skills, legacy[skills[i].slug])
  }

  /** `id` is a retired skill, and `standard` its standard. */
  ghost predicate Replaces(skills: seq<Skill>, legacy: map<string, string>, standard: Id, id: Id) {
    exists i: nat, n: nat :: Pair(skills, legacy, i, n, standard, id)
  }

  ghost predicate Pair(skills: seq<Skill>, legacy: map<string, string>, i: nat, n: nat, standard: Id, id: Id) {
    && i < |skills| && skills[i].source != Nsqf && skills[i].id == id
    && skills[i].slug in legacy && StandardFor(skills, legacy[skills[i].slug], n) && skills[n].id == standard
  }

  ghost predicate IsRetired(skills: seq<Skill>, legacy: map<string, string>, id: Id) {
    exists i: nat :: Retires(skills, legacy, i) && skills[i].id == id
  }

  // ------------------------------------------------------------------ the lookups

  /** The codes looked up are exactly those of the national standards; the last of two with one code counts. */
  lemma {:induction false} ByNosExactly(skills: seq<Skill>, code: string)
    ensures code in ByNos(skills) <==> Produced(skills, code)
    ensures forall n: nat :: StandardFor(skills, code, n) ==> code in ByNos(skills) && ByNos(skills)[code] == skills[n].id
    ensures Produced(skills, code) ==> exists n: nat :: StandardFor(skills, code, n)
  {
    if skills != [] {
      var k := |skills| - 1;
      ByNosExactly(skills[..k], code);
      assert forall n :: 0 <= n < k ==> skills[..k][n] == skills[n];
      if skills[k].source == Nsqf && skills[k].code == Some(code) {
        assert StandardFor(skills, code, k);
      } else {
        forall n: nat
          ensures StandardFor(skills, code, n) <==> StandardFor(skills[..k], code, n)
        {
        }
      }
    }
  }

  lemma NoStandardsExactly(t: Tables, legacy: map<string, string>)
    ensures Report(t, legacy).NoStandards? <==> forall code :: !Produced(t.skills, code)
  {
    hide Produced, ByNos, DoubleMove;
    forall code
      ensures code in ByNos(t.skills) <==> Produced(t.skills, code)
    {
      ByNosExactly(t.skills, code);
    }
    if ByNos(t.skills) != map[] {
      var code :| code in ByNos(t.skills);
      assert Produced(t.skills, code);
    }
  }

  /** A skill is looked up exactly when it is retired, and leads to its standard. */
  lemma TargetExactly(t: Tables, legacy: map<string, string>, i: nat)
    requires UniqueIds(t.skills) && i < |t.skills|
    ensures t.skills[i].id in TargetOf(t, legacy) <==> Retires(t.skills, legacy, i)
  {
    hide ByNos, Target, Produced;
    TargetIsMapsTo(t.skills, ByNos(t.skills), legacy);
    if t.skills[i].slug in legacy {
      ByNosExactly(t.skills, legacy[t.skills[i].slug]);
    }
  }

  lemma TargetReplaces(t: Tables, legacy: map<string, string>, id: Id, standard: Id)
    requires UniqueIds(t.skills)
    ensures id in TargetOf(t, legacy) && TargetOf(t, legacy)[id] == standard <==> Replaces(t.skills, legacy, standard, id)
    ensures id in TargetOf(t, legacy) <==> IsRetired(t.skills, legacy, id)
  {
    hide ByNos, Target, Produced, StandardFor;
    var target := TargetOf(t, legacy);
    TargetIsMapsTo(t.skills, ByNos(t.skills), legacy);
    if id in target {
      var i: nat :| i < |t.skills| && t.skills[i].id == id;
      TargetExactly(t, legacy, i);
      ByNosExactly(t.skills, legacy[t.skills[i].slug]);
      var n: nat :| StandardFor(t.skills, legacy[t.skills[i].slug], n);
      StandardIsThere(t.skills, legacy[t.skills[i].slug], n);
      assert Pair(t.skills, legacy, i, n, target[id], id);
    }
    if i: nat, n: nat :| Pair(t.skills, legacy, i, n, standard, id) {
      StandardIsThere(t.skills, legacy[t.skills[i].slug], n);
      ByNosExactly(t.skills, legacy[t.skills[i].slug]);
      TargetExactly(t, legacy, i);
    }
    if i: nat :| Retires(t.skills, legacy, i) && t.skills[i].id == id {
      TargetExactly(t, legacy, i);
    }
  }

  lemma StandardIsThere(skills: seq<Skill>, code: string, n: nat)
    requires StandardFor(skills, code, n)
    ensures n < |skills|
  {
  }

  // ------------------------------------------------------------------ the skills

  /** Afterwards a skill is legacy if it was retired, and otherwise as it was: a standard, a skill the map
      does not name, and one whose standard the import did not produce are left alone. */
  lemma SkillsAfter(t: Tables, legacy: map<string, string>, i: nat)
    requires UniqueIds(t.skills) && i < |t.skills|
    ensures var after := Migrated(t, legacy).skills;
      && |after| == |t.skills|
      && (t.skills[i].source == Nsqf ==> after[i] == t.skills[i])
      && (t.skills[i].slug !in legacy ==> after[i] == t.skills[i])
      && (t.skills[i].slug in legacy && !Produced(t.skills, legacy[t.skills[i].slug]) ==> after[i] == t.skills[i])
      && (t.skills[i].source != Nsqf && t.skills[i].slug in legacy && Produced(t.skills, legacy[t.skills[i].slug]) ==>
            after[i] == t.skills[i].(source := Legacy))
  {
    hide TargetOf, Produced;
    TargetExactly(t, legacy, i);
  }

  lemma {:induction false} RetiredCount(skills: seq<Skill>, target: map<Id, Id>)
    ensures CountRetired(skills, target) == |set i | 0 <= i < |skills| && skills[i].id in target && skills[i].source != Legacy|
  {
    if skills != [] {
      var k := |skills| - 1;
      RetiredCount(skills[..k], target);
      var before := set i | 0 <= i < |skills[..k]| && skills[..k][i].id in target && skills[..k][i].source != Legacy;
      var now := set i | 0 <= i < |skills| && skills[i].id in target && skills[i].source != Legacy;
      assert now == before + if skills[k].id in target && skills[k].source != Legacy then {k} else {};
    }
  }

  /** The count of the retired is the number of skills that changed. */
  lemma RetiredAreTheChanged(t: Tables, legacy: map<string, string>)
    requires Consistent(t) && Report(t, legacy).Committed?
    ensures Report(t, legacy).retired ==
            |set i | 0 <= i < |t.skills| && Migrated(t, legacy).skills[i].source != t.skills[i].source|
  {
    hide TargetOf, ByNos, DoubleMove, Move, Carry, CountMapped;
    var target := TargetOf(t, legacy);
    RetiredCount(t.skills, target);
    assert (set i | 0 <= i < |t.skills| && t.skills[i].id in target && t.skills[i].source != Legacy) ==
           (set i | 0 <= i < |t.skills| && Migrated(t, legacy).skills[i].source != t.skills[i].source);
  }

  // ------------------------------------------------------------------ the rows

  /** Some row of a table gives a profile a skill. */
  ghost predicate Gives(table: seq<Row>, profile: Id, skill: Id) {
    exists row :: row in table && row.profile == profile && row.skill == Some(skill)
  }

  lemma GivesHolds(table: seq<Row>, profile: Id, skill: Id)
    ensures Gives(table, profile, skill) <==> Holds(table, profile, skill)
  {
    if row :| row in table && row.profile == profile && row.skill == Some(skill) {
      HoldsRow(table, row);
    }
    if Holds(table, profile, skill) {
      var i :| 0 <= i < |table| && table[i].profile == profile && table[i].skill == Some(skill);
      assert table[i] in table;
    }
  }

  /** A row of a table that is re-keyed: it is on a retired skill, and its profile has no row on the
      standard. */
  ghost predicate Rekeyed(skills: seq<Skill>, legacy: map<string, string>, table: seq<Row>, was: Row, now: Row) {
    && was in table && was.skill.Some? && now.skill.Some? && now == was.(skill := now.skill)
    && Replaces(skills, legacy, now.skill.value, was.skill.value)
    && !Gives(table, was.profile, now.skill.value)
  }

  lemma MovedRows(t: Tables, legacy: map<string, string>, table: seq<Row>, r: Row)
    requires UniqueIds(t.skills)
    ensures r in Move(table, TargetOf(t, legacy)) <==>
            || (r in table && !(r.skill.Some? && IsRetired(t.skills, legacy, r.skill.value)))
            || exists was :: Rekeyed(t.skills, legacy, table, was, r)
  {
    hide TargetOf, Replaces, IsRetired, Holds, Gives;
    var target := TargetOf(t, legacy);
    MovedFrom(table, table, target, r);
    if r in Move(table, target) {
      var i :| 0 <= i < |table| && r in MoveOne(table[i], table, target);
      if Mapped(table[i], target) {
        TargetReplaces(t, legacy, table[i].skill.value, target[table[i].skill.value]);
        GivesHolds(table, table[i].profile, target[table[i].skill.value]);
        assert Rekeyed(t.skills, legacy, table, table[i], r);
      } else if r.skill.Some? {
        TargetReplaces(t, legacy, r.skill.value, 0);
      }
    }
    if r in table && !(r.skill.Some? && IsRetired(t.skills, legacy, r.skill.value)) {
      if r.skill.Some? { TargetReplaces(t, legacy, r.skill.value, 0); }
      var i :| 0 <= i < |table| && table[i] == r;
      assert r in MoveOne(table[i], table, target);
    }
    if was :| Rekeyed(t.skills, legacy, table, was, r) {
      TargetReplaces(t, legacy, was.skill.value, r.skill.value);
      GivesHolds(table, was.profile, r.skill.value);
      var i :| 0 <= i < |table| && table[i] == was;
      assert r in MoveOne(table[i], table, target);
    }
  }

  /** Afterwards the declared skills are: the rows on no retired skill as they were, and the rows on a
      retired skill whose profile had no row on the standard, with the standard in its place. The
      certificates likewise, those that name no skill included. */
  lemma RowsAfter(t: Tables, legacy: map<string, string>, r: Row)
    requires UniqueIds(t.skills)
    ensures r in Migrated(t, legacy).held <==>
            || (r in t.held && !(r.skill.Some? && IsRetired(t.skills, legacy, r.skill.value)))
            || exists was :: Rekeyed(t.skills, legacy, t.held, was, r)
    ensures r in Migrated(t, legacy).certificates <==>
            || (r in t.certificates && !(r.skill.Some? && IsRetired(t.skills, legacy, r.skill.value)))
            || exists was :: Rekeyed(t.skills, legacy, t.certificates, was, r)
  {
    hide TargetOf, Rekeyed, IsRetired, Retire, Carry, Move;
    MovedRows(t, legacy, t.held, r);
    MovedRows(t, legacy, t.certificates, r);
  }

  ghost predicate UniqueRowIds(table: seq<Row>) {
    forall i, j :: 0 <= i < j < |table| ==> table[i].id != table[j].id
  }

  lemma {:induction false} MoveKeepsRowIds(rows: seq<Row>, seen: seq<Row>, target: map<Id, Id>)
    requires UniqueRowIds(rows)
    ensures UniqueRowIds(MoveAll(rows, seen, target))
  {
    hide Holds;
    if rows != [] {
      var k := |rows| - 1;
      MoveKeepsRowIds(rows[..k], seen, target);
      var front, last := MoveAll(rows[..k], seen, target), MoveOne(rows[k], seen, target);
      forall x | 0 <= x < |front| && last != []
        ensures front[x].id != last[0].id
      {
        MovedFrom(rows[..k], seen, target, front[x]);
        var i :| 0 <= i < k && front[x] in MoveOne(rows[..k][i], seen, target);
        assert rows[..k][i] == rows[i];
      }
    }
  }

  /** No row is doubled: primary keys stay primary keys. */
  lemma RowIdsStayUnique(t: Tables, legacy: map<string, string>)
    requires UniqueRowIds(t.held) && UniqueRowIds(t.certificates)
    ensures UniqueRowIds(Migrated(t, legacy).held) && UniqueRowIds(Migrated(t, legacy).certificates)
  {
    hide TargetOf, UniqueRowIds;
    var target := TargetOf(t, legacy);
    MoveKeepsRowIds(t.held, t.held, target);
    MoveKeepsRowIds(t.certificates, t.certificates, target);
  }

  lemma {:induction false} MovedCount(rows: seq<Row>, target: map<Id, Id>)
    ensures CountMapped(rows, target) == |set i | 0 <= i < |rows| && rows[i].skill.Some? && rows[i].skill.value in target|
  {
    if rows != [] {
      var k := |rows| - 1;
      MovedCount(rows[..k], target);
      var before := set i | 0 <= i < |rows[..k]| && rows[..k][i].skill.Some? && rows[..k][i].skill.value in target;
      var now := set i | 0 <= i < |rows| && rows[i].skill.Some? && rows[i].skill.value in target;
      assert now == before + if Mapped(rows[k], target) then {k} else {};
    }
  }

  /** The rows of a table that are on a retired skill. */
  ghost function OnRetired(t: Tables, legacy: map<string, string>, table: seq<Row>): set<int> {
    set i | 0 <= i < |table| && table[i].skill.Some? && IsRetired(t.skills, legacy, table[i].skill.value)
  }

  lemma OnRetiredCount(t: Tables, legacy: map<string, string>, table: seq<Row>)
    requires UniqueIds(t.skills)
    ensures CountMapped(table, TargetOf(t, legacy)) == |OnRetired(t, legacy, table)|
  {
    hide TargetOf, IsRetired, CountMapped;
    var target := TargetOf(t, legacy);
    MovedCount(table, target);
    forall i | 0 <= i < |table| && table[i].skill.Some?
      ensures table[i].skill.value in target <==> IsRetired(t.skills, legacy, table[i].skill.value)
    {
      TargetReplaces(t, legacy, table[i].skill.value, 0);
    }
    assert (set i | 0 <= i < |table| && table[i].skill.Some? && table[i].skill.value in target) == OnRetired(t, legacy, table);
  }

  /** The counts printed of the rows are the numbers of rows that were on a retired skill. */
  lemma MovedAreTheMapped(t: Tables, legacy: map<string, string>)
    requires Consistent(t) && Report(t, legacy).Committed?
    ensures Report(t, legacy).skillsMoved == |OnRetired(t, legacy, t.held)|
    ensures Report(t, legacy).certificatesMoved == |OnRetired(t, legacy, t.certificates)|
  {
    hide TargetOf, ByNos, DoubleMove, Carry, CountRetired, OnRetired, CountMapped;
    OnRetiredCount(t, legacy, t.held);
    OnRetiredCount(t, legacy, t.certificates);
  }

  // ------------------------------------------------------------------ the aliases

  /** A form of a retired skill, to be carried to its standard. */
  ghost predicate Carried(skills: seq<Skill>, legacy: map<string, string>, aliases: seq<Alias>, standard: Id, form: string) {
    exists a :: a in aliases && a.form == form && Replaces(skills, legacy, standard, a.skill)
  }

  lemma AliasIn(aliases: seq<Alias>, id: Id, form: string)
    ensures HasAlias(aliases, id, form) <==> exists a :: a in aliases && a.skill == id && a.form == form
  {
    if a :| a in aliases && a.skill == id && a.form == form {
      HasRow(aliases, a);
    }
    if HasAlias(aliases, id, form) {
      var i :| 0 <= i < |aliases| && aliases[i].skill == id && aliases[i].form == form;
      assert aliases[i] in aliases;
    }
  }

  lemma ArrivesIsCarried(t: Tables, legacy: map<string, string>, id: Id, form: string)
    requires UniqueIds(t.skills)
    ensures Arrives(t.aliases, CuratedIds(t.skills), TargetOf(t, legacy), id, form) <==>
            Carried(t.skills, legacy, t.aliases, id, form)
  {
    hide TargetOf, Replaces, IsRetired, HasAlias, CuratedIds;
    var target, ids := TargetOf(t, legacy), CuratedIds(t.skills);
    if Arrives(t.aliases, ids, target, id, form) {
      var k :| 0 <= k < |ids| && ids[k] in target && target[ids[k]] == id && HasAlias(t.aliases, ids[k], form);
      AliasIn(t.aliases, ids[k], form);
      TargetReplaces(t, legacy, ids[k], id);
    }
    if a :| a in t.aliases && a.form == form && Replaces(t.skills, legacy, id, a.skill) {
      TargetReplaces(t, legacy, a.skill, id);
      AliasIn(t.aliases, a.skill, form);
      CuratedHas(t, legacy, a.skill);
      var k :| 0 <= k < |ids| && ids[k] == a.skill;
      assert ids[k] in target && target[ids[k]] == id;
    }
  }

  lemma CuratedHas(t: Tables, legacy: map<string, string>, id: Id)
    requires IsRetired(t.skills, legacy, id)
    ensures id in CuratedIds(t.skills)
  {
    var i: nat :| Retires(t.skills, legacy, i) && t.skills[i].id == id;
    CuratedIdsHave(t.skills, i);
  }

  /** Afterwards a skill has the forms it had and, if it is a standard, those of the skills retired onto it;
      the aliases there were are there as they were. */
  lemma FormsAfter(t: Tables, legacy: map<string, string>, id: Id, form: string)
    requires Consistent(t)
    ensures (exists a :: a in Migrated(t, legacy).aliases && a.skill == id && a.form == form) <==>
            (exists a :: a in t.aliases && a.skill == id && a.form == form) || Carried(t.skills, legacy, t.aliases, id, form)
    ensures t.aliases <= Migrated(t, legacy).aliases
  {
    hide TargetOf, Carried, Arrives, HasAlias, Carry, OneAliasEach;
    TargetsAreStandards(t.skills, legacy);
    assert TargetOf(t, legacy) == Target(t.skills, ByNos(t.skills), legacy) by { TargetIs(t, legacy); }
    CarryAdds(t.aliases, CuratedIds(t.skills), TargetOf(t, legacy), id, form);
    ArrivesIsCarried(t, legacy, id, form);
    AliasIn(t.aliases, id, form);
    AliasIn(Migrated(t, legacy).aliases, id, form);
  }

  lemma TargetIs(t: Tables, legacy: map<string, string>)
    ensures TargetOf(t, legacy) == Target(t.skills, ByNos(t.skills), legacy)
  {
  }

  /** An alias that was not there is a copy of one that was, its script included, on the standard of the
      skill it was on. */
  lemma {:induction false} NewAliasIsCopy(t: Tables, legacy: map<string, string>, ids: seq<Id>, a: Alias)
    requires UniqueIds(t.skills) && OntoStandards(TargetOf(t, legacy))
    requires a in Carry(t.aliases, ids, TargetOf(t, legacy)) && a !in t.aliases
    ensures exists b :: b in t.aliases && b.form == a.form && b.script == a.script && Replaces(t.skills, legacy, a.skill, b.skill)
  {
    hide TargetOf, Replaces, IsRetired, HasAlias;
    var target := TargetOf(t, legacy);
    var k := |ids| - 1;
    var before := Carry(t.aliases, ids[..k], target);
    if a in before {
      NewAliasIsCopy(t, legacy, ids[..k], a);
    } else {
      AddedFrom(before, before, ids[k], target[ids[k]], a);
      var i :| 0 <= i < |before| && before[i].skill == ids[k] && a == Alias(target[ids[k]], before[i].form, before[i].script);
      TargetReplaces(t, legacy, ids[k], a.skill);
      if before[i] !in t.aliases {
        NewAliasIsCopy(t, legacy, ids[..k], before[i]);
        var b :| b in t.aliases && Replaces(t.skills, legacy, before[i].skill, b.skill);
        TargetReplaces(t, legacy, b.skill, before[i].skill);
        assert false;
      }
    }
  }

  lemma AliasesAfter(t: Tables, legacy: map<string, string>, a: Alias)
    requires Consistent(t) && a in Migrated(t, legacy).aliases && a !in t.aliases
    ensures exists b :: b in t.aliases && b.form == a.form && b.script == a.script && Replaces(t.skills, legacy, a.skill, b.skill)
  {
    hide Replaces, Carry;
    TargetsAreStandards(t.skills, legacy);
    NewAliasIsCopy(t, legacy, CuratedIds(t.skills), a);
  }

  // ------------------------------------------------------------------ when it commits

  /** Two rows of one profile on two skills retired onto one standard, which the profile has no row on. */
  ghost predicate TwoOntoOne(t: Tables, legacy: map<string, string>, i: nat, j: nat, standard: Id) {
    && i < j < |t.held| && t.held[i].profile == t.held[j].profile
    && t.held[i].skill.Some? && t.held[j].skill.Some?
    && Replaces(t.skills, legacy, standard, t.held[i].skill.value)
    && Replaces(t.skills, legacy, standard, t.held[j].skill.value)
    && !Gives(t.held, t.held[i].profile, standard)
  }

  /** The run commits exactly when the import produced some standard, and no profile has two rows on skills
      retired onto one standard that it has no row on; with standards and such a profile, the constraint
      stops it. */
  lemma OutcomeExactly(t: Tables, legacy: map<string, string>)
    requires Consistent(t)
    ensures Report(t, legacy).Committed? <==>
            && (exists code :: Produced(t.skills, code))
            && !exists i: nat, j: nat, standard: Id :: TwoOntoOne(t, legacy, i, j, standard)
    ensures Report(t, legacy).UniqueViolation? <==>
            && (exists code :: Produced(t.skills, code))
            && exists i: nat, j: nat, standard: Id :: TwoOntoOne(t, legacy, i, j, standard)
  {
    hide Produced, TargetOf, ByNos, Replaces, Gives, Holds;
    NoStandardsExactly(t, legacy);
    var target := TargetOf(t, legacy);
    if i: nat, j: nat :| ClashAt(t.held, target, i, j) {
      var standard := target[t.held[i].skill.value];
      TargetReplaces(t, legacy, t.held[i].skill.value, standard);
      TargetReplaces(t, legacy, t.held[j].skill.value, standard);
      GivesHolds(t.held, t.held[i].profile, standard);
      assert TwoOntoOne(t, legacy, i, j, standard);
    }
    if i: nat, j: nat, standard: Id :| TwoOntoOne(t, legacy, i, j, standard) {
      TargetReplaces(t, legacy, t.held[i].skill.value, standard);
      TargetReplaces(t, legacy, t.held[j].skill.value, standard);
      GivesHolds(t.held, t.held[i].profile, standard);
      assert ClashAt(t.held, target, i, j);
    }
  }
}
