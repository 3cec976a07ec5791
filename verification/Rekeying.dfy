/** The rows a profile holds, re-keyed from retired skills onto national standards. */
module Rekeying {
  import opened Wrappers

  type Id = nat

  /** A declared skill or a certificate; a certificate may name no skill. */
  datatype Row = Row(id: Id, profile: Id, skill: Option<Id>)

  predicate Mapped(row: Row, target: map<Id, Id>) {
    row.skill.Some? && row.skill.value in target
  }

  /** Some row of the table gives the profile the skill. */
  predicate Holds(table: seq<Row>, profile: Id, skill: Id) {
    exists i :: 0 <= i < |table| && table[i].profile == profile && table[i].skill == Some(skill)
  }

  /** What becomes of one row: kept, moved to its standard, or deleted because the profile already has
      the standard in `seen`. */
  function MoveOne(row: Row, seen: seq<Row>, target: map<Id, Id>): seq<Row> {
    if !Mapped(row, target) then [row]
    else if Holds(seen, row.profile, target[row.skill.value]) then []
    else [row.(skill := Some(target[row.skill.value]))]
  }

  /** Every row moved with the duplicate check reading `seen`. */
  function MoveAll(rows: seq<Row>, seen: seq<Row>, target: map<Id, Id>): seq<Row> {
    if rows == [] then []
    else MoveAll(rows[..|rows| - 1], seen, target) + MoveOne(rows[|rows| - 1], seen, target)
  }

  /** The phase as it runs: nothing is flushed inside the loop, so the check reads the table as it was
      when the phase began. */
  function Move(table: seq<Row>, target: map<Id, Id>): seq<Row> {
    MoveAll(table, table, target)
  }

  function CountMapped(rows: seq<Row>, target: map<Id, Id>): nat {
    if rows == [] then 0
    else CountMapped(rows[..|rows| - 1], target) + if Mapped(rows[|rows| - 1], target) then 1 else 0
  }

  /** The unique constraint on (profile, skill). */
  predicate OneRowEach(table: seq<Row>) {
    forall i, j :: 0 <= i < j < |table| && table[i].skill.Some? ==>
      !(table[i].profile == table[j].profile && table[i].skill == table[j].skill)
  }

  /** No standard is itself retired. */
  ghost predicate OntoStandards(target: map<Id, Id>) {
    forall a :: a in target ==> target[a] !in target
  }

  function ImageOf(skill: Id, target: map<Id, Id>): Id {
    if skill in target then target[skill] else skill
  }

  /** The profile holds a skill whose image is `skill`. */
  ghost predicate HoldsImage(table: seq<Row>, target: map<Id, Id>, profile: Id, skill: Id) {
    exists s: Id :: Holds(table, profile, s) && ImageOf(s, target) == skill
  }

  // ------------------------------------------------------------------ where a row comes from

  /** Every row afterwards comes from one row before, at its place or moved. */
  lemma {:induction false} MovedFrom(rows: seq<Row>, seen: seq<Row>, target: map<Id, Id>, r: Row)
    ensures r in MoveAll(rows, seen, target) <==> exists i :: 0 <= i < |rows| && r in MoveOne(rows[i], seen, target)
  {
    if rows != [] {
      var k := |rows| - 1;
      MovedFrom(rows[..k], seen, target, r);
      if r in MoveAll(rows[..k], seen, target) {
        var i :| 0 <= i < k && r in MoveOne(rows[..k][i], seen, target);
        assert rows[i] == rows[..k][i];
      }
      if i :| 0 <= i < |rows| && r in MoveOne(rows[i], seen, target) {
        if i < k { assert rows[..k][i] == rows[i]; }
      }
    }
  }

  lemma HoldsRow(table: seq<Row>, row: Row)
    requires row in table && row.skill.Some?
    ensures Holds(table, row.profile, row.skill.value)
  {
    var i :| 0 <= i < |table| && table[i] == row;
  }

  /** A profile's skills afterwards are exactly the images of its skills before. */
  lemma SkillsAreImages(table: seq<Row>, target: map<Id, Id>, profile: Id, skill: Id)
    requires OntoStandards(target)
    ensures Holds(Move(table, target), profile, skill) <==>
            HoldsImage(table, target, profile, skill)
  {
    if Holds(Move(table, target), profile, skill) {
      var after := Move(table, target);
      var k :| 0 <= k < |after| && after[k].profile == profile && after[k].skill == Some(skill);
      MovedFrom(table, table, target, after[k]);
      var i :| 0 <= i < |table| && after[k] in MoveOne(table[i], table, target);
      HoldsRow(table, table[i]);
      assert Holds(table, profile, table[i].skill.value) && ImageOf(table[i].skill.value, target) == skill;
    }
    if s: Id :| Holds(table, profile, s) && ImageOf(s, target) == skill {
      var i :| 0 <= i < |table| && table[i].profile == profile && table[i].skill == Some(s);
      ImageHeld(table, target, i);
    }
  }

  lemma ImageHeld(table: seq<Row>, target: map<Id, Id>, i: nat)
    requires OntoStandards(target) && i < |table| && table[i].skill.Some?
    ensures Holds(Move(table, target), table[i].profile, ImageOf(table[i].skill.value, target))
  {
    var row := table[i];
    var image := ImageOf(row.skill.value, target);
    if MoveOne(row, table, target) == [] {
      var j :| 0 <= j < |table| && table[j].profile == row.profile && table[j].skill == Some(image);
      assert table[j] in MoveOne(table[j], table, target);
      MovedFrom(table, table, target, table[j]);
      HoldsRow(Move(table, target), table[j]);
    } else {
      var r := MoveOne(row, table, target)[0];
      MovedFrom(table, table, target, r);
      HoldsRow(Move(table, target), r);
    }
  }

  /** No row is left on a retired skill. */
  lemma NoneLeft(table: seq<Row>, target: map<Id, Id>, r: Row)
    requires OntoStandards(target) && r in Move(table, target)
    ensures !Mapped(r, target)
  {
    MovedFrom(table, table, target, r);
  }

  lemma {:induction false} NothingToMove(rows: seq<Row>, seen: seq<Row>, target: map<Id, Id>)
    requires forall r :: r in rows ==> !Mapped(r, target)
    ensures MoveAll(rows, seen, target) == rows && CountMapped(rows, target) == 0
  {
    hide Holds;
    if rows != [] {
      var k := |rows| - 1;
      NothingToMove(rows[..k], seen, target);
      assert rows == rows[..k] + [rows[k]] && rows[k] in rows;
    }
  }

  /** A second run moves nothing and counts nothing. */
  lemma MovingTwice(table: seq<Row>, target: map<Id, Id>)
    requires OntoStandards(target)
    ensures var after := Move(table, target); Move(after, target) == after && CountMapped(after, target) == 0
  {
    var after := Move(table, target);
    forall r | r in after
      ensures !Mapped(r, target)
    {
      NoneLeft(table, target, r);
    }
    NothingToMove(after, after, target);
  }

  // ------------------------------------------------------------------ uniqueness

  /** Two rows of one profile move to the same standard, which the profile did not hold. */
  ghost predicate ClashAt(table: seq<Row>, target: map<Id, Id>, i: nat, j: nat) {
    && i < j < |table| && Mapped(table[i], target) && Mapped(table[j], target)
    && table[i].profile == table[j].profile
    && target[table[i].skill.value] == target[table[j].skill.value]
    && !Holds(table, table[i].profile, target[table[i].skill.value])
  }

  ghost predicate DoubleMove(table: seq<Row>, target: map<Id, Id>) {
    exists i: nat, j: nat :: ClashAt(table, target, i, j)
  }

  /** Two rows afterwards that share a profile and a skill come from two rows that clash. */
  lemma {:induction false} MoveKeepsOneEach(table: seq<Row>, target: map<Id, Id>, n: nat)
    requires OntoStandards(target) && OneRowEach(table) && !DoubleMove(table, target) && n <= |table|
    ensures OneRowEach(MoveAll(table[..n], table, target))
  {
    if n > 0 {
      var k := n - 1;
      MoveKeepsOneEach(table, target, k);
      assert table[..n][..k] == table[..k];
      var front, last := MoveAll(table[..k], table, target), MoveOne(table[k], table, target);
      forall x | 0 <= x < |front| && front[x].skill.Some? && last != []
        ensures !(front[x].profile == last[0].profile && front[x].skill == last[0].skill)
      {
        MovedFrom(table[..k], table, target, front[x]);
        var i :| 0 <= i < k && front[x] in MoveOne(table[..k][i], table, target);
        assert table[..k][i] == table[i];
        NoClash(table, target, i, k);
      }
    }
  }

  lemma NoClash(table: seq<Row>, target: map<Id, Id>, i: nat, k: nat)
    requires OntoStandards(target) && OneRowEach(table) && !DoubleMove(table, target) && i < k < |table|
    ensures forall r, r' :: r in MoveOne(table[i], table, target) && r' in MoveOne(table[k], table, target) && r.skill.Some? ==>
              !(r.profile == r'.profile && r.skill == r'.skill)
  {
    assert !ClashAt(table, target, i, k);
    if table[i].skill.Some? { HoldsRow(table, table[i]); }
    if table[k].skill.Some? { HoldsRow(table, table[k]); }
  }

  /** The rows of a prefix come first. */
  lemma {:induction false} MovedInOrder(rows: seq<Row>, seen: seq<Row>, target: map<Id, Id>, i: nat)
    requires i < |rows|
    ensures MoveAll(rows[..i], seen, target) + MoveOne(rows[i], seen, target) <= MoveAll(rows, seen, target)
  {
    var k := |rows| - 1;
    if i < k {
      MovedInOrder(rows[..k], seen, target, i);
      assert rows[..k][..i] == rows[..i];
    }
  }

  lemma ClashBreaksUniqueness(table: seq<Row>, target: map<Id, Id>, i: nat, j: nat)
    requires ClashAt(table, target, i, j)
    ensures !OneRowEach(Move(table, target))
  {
    var after := Move(table, target);
    MovedInOrder(table, table, target, j);
    MovedInOrder(table[..j], table, target, i);
    assert table[..j][..i] == table[..i];
    var x, y := |MoveAll(table[..i], table, target)|, |MoveAll(table[..j], table, target)|;
    assert after[x] == MoveOne(table[i], table, target)[0];
    assert after[y] == MoveOne(table[j], table, target)[0];
  }

  /** The flush at the end of the phase meets the unique constraint exactly when no profile holds two
      retired skills of one standard without holding the standard. */
  lemma FlushSucceedsExactly(table: seq<Row>, target: map<Id, Id>)
    requires OntoStandards(target) && OneRowEach(table)
    ensures OneRowEach(Move(table, target)) <==> !DoubleMove(table, target)
  {
    if i: nat, j: nat :| ClashAt(table, target, i, j) {
      ClashBreaksUniqueness(table, target, i, j);
    } else {
      MoveKeepsOneEach(table, target, |table|);
      assert table[..|table|] == table;
    }
  }

  // ------------------------------------------------------------------ the phase as its comment intends it

  /** The duplicate check reading the table as updated so far: `done` is behind, `todo` ahead. */
  function MoveReadingUpdates(done: seq<Row>, todo: seq<Row>, target: map<Id, Id>): seq<Row>
    decreases |todo|
  {
    if todo == [] then done
    else MoveReadingUpdates(done + MoveOne(todo[0], done + todo, target), todo[1..], target)
  }

  lemma {:induction false} ReadingUpdatesKeepsOneEach(done: seq<Row>, todo: seq<Row>, target: map<Id, Id>)
    requires OneRowEach(done + todo)
    ensures OneRowEach(MoveReadingUpdates(done, todo, target))
    decreases |todo|
  {
    if todo == [] {
      assert done + todo == done;
    } else {
      var step := MoveOne(todo[0], done + todo, target);
      ReplaceKeepsOneEach(done, todo, step);
      ReadingUpdatesKeepsOneEach(done + step, todo[1..], target);
    }
  }

  lemma ReplaceKeepsOneEach(done: seq<Row>, todo: seq<Row>, step: seq<Row>)
    requires todo != [] && OneRowEach(done + todo)
    requires step == [] || step == [todo[0]] ||
             exists n :: step == [todo[0].(skill := Some(n))] && !Holds(done + todo, todo[0].profile, n)
    ensures OneRowEach(done + step + todo[1..])
  {
    var before, after := done + todo, done + step + todo[1..];
    var shift := 1 - |step|;
    forall i, j | 0 <= i < j < |after| && after[i].skill.Some?
      ensures !(after[i].profile == after[j].profile && after[i].skill == after[j].skill)
    {
      var i' := if i < |done| + |step| then i else i + shift;
      var j' := if j < |done| + |step| then j else j + shift;
      assert before[i'] == after[i] || (i == |done| && |step| == 1);
      assert before[j'] == after[j] || (j == |done| && |step| == 1);
    }
  }

  lemma {:induction false} ReadingUpdatesMapsSkills(done: seq<Row>, todo: seq<Row>, target: map<Id, Id>, profile: Id, skill: Id)
    requires OntoStandards(target) && forall r :: r in done ==> !Mapped(r, target)
    ensures forall r :: r in MoveReadingUpdates(done, todo, target) ==> !Mapped(r, target)
    ensures Holds(MoveReadingUpdates(done, todo, target), profile, skill) <==> HoldsImage(done + todo, target, profile, skill)
    decreases |todo|
  {
    if todo == [] {
      assert done + todo == done;
      UnmappedImages(done, target, profile, skill);
    } else {
      var step := MoveOne(todo[0], done + todo, target);
      StepMapsSkills(done, todo, target, profile, skill);
      ReadingUpdatesMapsSkills(done + step, todo[1..], target, profile, skill);
    }
  }

  lemma UnmappedImages(table: seq<Row>, target: map<Id, Id>, profile: Id, skill: Id)
    requires forall r :: r in table ==> !Mapped(r, target)
    ensures Holds(table, profile, skill) <==> HoldsImage(table, target, profile, skill)
  {
    if Holds(table, profile, skill) {
      var i :| 0 <= i < |table| && table[i].profile == profile && table[i].skill == Some(skill);
      assert !Mapped(table[i], target) && ImageOf(skill, target) == skill;
    }
    if s: Id :| Holds(table, profile, s) && ImageOf(s, target) == skill {
      var i :| 0 <= i < |table| && table[i].profile == profile && table[i].skill == Some(s);
      assert !Mapped(table[i], target);
    }
  }

  lemma ImageInTable(table: seq<Row>, target: map<Id, Id>, r: Row)
    requires r in table && r.skill.Some?
    ensures HoldsImage(table, target, r.profile, ImageOf(r.skill.value, target))
  {
    HoldsRow(table, r);
  }

  /** One step leaves every profile's images as they were. */
  lemma StepMapsSkills(done: seq<Row>, todo: seq<Row>, target: map<Id, Id>, profile: Id, skill: Id)
    requires OntoStandards(target) && todo != []
    ensures HoldsImage(done + MoveOne(todo[0], done + todo, target) + todo[1..], target, profile, skill) <==>
            HoldsImage(done + todo, target, profile, skill)
  {
    var before, step := done + todo, MoveOne(todo[0], done + todo, target);
    var after := done + step + todo[1..];
    if s: Id :| Holds(before, profile, s) && ImageOf(s, target) == skill {
      var i :| 0 <= i < |before| && before[i].profile == profile && before[i].skill == Some(s);
      if i != |done| {
        assert before[i] in after;
        ImageInTable(after, target, before[i]);
      } else if step != [] {
        assert step[0] in after;
        ImageInTable(after, target, step[0]);
      } else {
        var j :| 0 <= j < |before| && before[j].profile == profile && before[j].skill == Some(target[s]);
        assert before[j] in after;
        ImageInTable(after, target, before[j]);
      }
    }
    if s: Id :| Holds(after, profile, s) && ImageOf(s, target) == skill {
      var i :| 0 <= i < |after| && after[i].profile == profile && after[i].skill == Some(s);
      if after[i] in before {
        ImageInTable(before, target, after[i]);
      } else {
        assert after[i] in step;
        ImageInTable(before, target, todo[0]);
      }
    }
  }

  lemma SameCheck(table: seq<Row>, target: map<Id, Id>, k: nat)
    requires OntoStandards(target) && k < |table|
    ensures DoubleMove(table, target) ||
            MoveOne(table[k], MoveAll(table[..k], table, target) + table[k..], target) == MoveOne(table[k], table, target)
  {
    if Mapped(table[k], target) {
      var n, p := target[table[k].skill.value], table[k].profile;
      var done := MoveAll(table[..k], table, target);
      if Holds(table, p, n) {
        var m :| 0 <= m < |table| && table[m].profile == p && table[m].skill == Some(n);
        assert table[m] in MoveOne(table[m], table, target);
        if m < k {
          assert table[..k][m] == table[m];
          MovedFrom(table[..k], table, target, table[m]);
          HoldsRow(done + table[k..], table[m]);
        } else {
          assert table[m] == table[k..][m - k];
          HoldsRow(done + table[k..], table[m]);
        }
      } else if Holds(done + table[k..], p, n) {
        var x :| 0 <= x < |done + table[k..]| && (done + table[k..])[x].profile == p && (done + table[k..])[x].skill == Some(n);
        var r := (done + table[k..])[x];
        assert r !in table by {
          if r in table { HoldsRow(table, r); }
        }
        MovedFrom(table[..k], table, target, r);
        var i :| 0 <= i < k && r in MoveOne(table[..k][i], table, target);
        assert table[..k][i] == table[i];
        assert ClashAt(table, target, i, k);
      }
    }
  }

  lemma {:induction false} ReadingUpdatesAgrees(table: seq<Row>, target: map<Id, Id>, k: nat)
    requires OntoStandards(target) && !DoubleMove(table, target) && k <= |table|
    ensures MoveReadingUpdates(MoveAll(table[..k], table, target), table[k..], target) == Move(table, target)
    decreases |table| - k
  {
    if k == |table| {
      assert table[..k] == table;
    } else {
      SameCheck(table, target, k);
      assert table[..k + 1][..k] == table[..k];
      assert table[k..][1..] == table[k + 1..];
      ReadingUpdatesAgrees(table, target, k + 1);
    }
  }

  /** The phase does what its comment intends exactly when no profile holds two retired skills of one
      standard without holding the standard. */
  lemma IntentMetExactly(table: seq<Row>, target: map<Id, Id>)
    requires OntoStandards(target) && OneRowEach(table)
    ensures Move(table, target) == MoveReadingUpdates([], table, target) <==> !DoubleMove(table, target)
  {
    if DoubleMove(table, target) {
      FlushSucceedsExactly(table, target);
      assert [] + table == table;
      ReadingUpdatesKeepsOneEach([], table, target);
    } else {
      ReadingUpdatesAgrees(table, target, 0);
      assert table[..0] == [] && table[0..] == table;
    }
  }

  lemma {:induction false} ReadingUpdatesIdle(done: seq<Row>, todo: seq<Row>, target: map<Id, Id>)
    requires forall r :: r in todo ==> !Mapped(r, target)
    ensures MoveReadingUpdates(done, todo, target) == done + todo
    decreases |todo|
  {
    if todo != [] {
      ReadingUpdatesIdle(done + [todo[0]], todo[1..], target);
    }
  }

  /** What the comment intends, for every table: one row each, every profile's skills the images of
      what they were, nothing left on a retired skill, and nothing more to do for a second run. */
  lemma IntentIsSound(table: seq<Row>, target: map<Id, Id>, profile: Id, skill: Id)
    requires OntoStandards(target) && OneRowEach(table)
    ensures var after := MoveReadingUpdates([], table, target);
      && OneRowEach(after)
      && (forall r :: r in after ==> !Mapped(r, target))
      && (Holds(after, profile, skill) <==> HoldsImage(table, target, profile, skill))
      && MoveReadingUpdates([], after, target) == after && CountMapped(after, target) == 0
  {
    assert [] + table == table;
    ReadingUpdatesKeepsOneEach([], table, target);
    ReadingUpdatesMapsSkills([], table, target, profile, skill);
    var after := MoveReadingUpdates([], table, target);
    ReadingUpdatesIdle([], after, target);
    NothingToMove(after, after, target);
  }
}
