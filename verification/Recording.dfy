/** What each run leaves in the recorded contract, key by key, and what is recorded after a whole history. */
module Recording {
  import opened Json
  import opened Wrappers
  import opened Bags
  import opened Inlining
  import opened Compare
  import opened CompareLaws
  import opened Ratchet

  /** Every listed operation is in the document. */
  predicate Found(openapi: Json, surface: seq<string>) {
    forall key :: key in surface ==> Operation(openapi, key) != Null
  }

  lemma {:induction false} SomeFirstMissing(openapi: Json, surface: seq<string>, k: nat)
    requires k < |surface| && Operation(openapi, surface[k]) == Null
    ensures exists f: nat :: f <= k && FirstMissing(openapi, surface, f)
  {
    hide Operation;
    if j: nat :| j < k && Operation(openapi, surface[j]) == Null {
      SomeFirstMissing(openapi, surface, j);
    } else {
      assert FirstMissing(openapi, surface, k);
    }
  }

  /** A snapshot is made exactly when every listed operation is found; it then holds the entry of each and
      nothing else, and otherwise it names the first that is not. */
  lemma SnapshotExactly(openapi: Json, surface: seq<string>)
    ensures Snapshot(openapi, surface).Ok? <==> Found(openapi, surface)
    ensures Found(openapi, surface) ==>
              var current := Snapshot(openapi, surface).value;
              && (forall key :: key in current <==> key in surface)
              && (forall key :: key in surface ==> current[key] == Entry(openapi, key))
    ensures !Found(openapi, surface) ==>
              exists k :: 0 <= k < |surface| && Snapshot(openapi, surface) == Err(surface[k])
                          && Operation(openapi, surface[k]) == Null && Found(openapi, surface[..k])
  {
    hide Operation, Entry;
    if !Found(openapi, surface) {
      var key :| key in surface && Operation(openapi, key) == Null;
      var i: nat :| i < |surface| && surface[i] == key;
      SomeFirstMissing(openapi, surface, i);
      var k: nat :| k < |surface| && FirstMissing(openapi, surface, k) && Snapshot(openapi, surface) == Err(surface[k]);
      FoundBefore(openapi, surface, k);
    }
  }

  lemma FoundBefore(openapi: Json, surface: seq<string>, k: nat)
    requires k < |surface| && FirstMissing(openapi, surface, k)
    ensures Operation(openapi, surface[k]) == Null && Found(openapi, surface[..k])
  {
    hide Operation;
    forall key | key in surface[..k]
      ensures Operation(openapi, key) != Null
    {
      var j :| 0 <= j < k && surface[..k][j] == key;
      assert surface[j] == key;
    }
  }

  // ------------------------------------------------------------------ one run

  /** After an update every listed operation is recorded: the new ones as the document has them now, the
      recorded ones as they were; and no other appears. */
  lemma UpdateRecords(recorded: map<string, Json>, openapi: Json, surface: seq<string>, key: string)
    requires Found(openapi, surface)
    ensures var after := Next(recorded, Run(Update, openapi, surface));
      && (key in after <==> key in recorded || key in surface)
      && (key in recorded ==> after[key] == recorded[key])
      && (key in surface && key !in recorded ==> after[key] == Entry(openapi, key))
  {
    hide Snapshot, Entry;
    SnapshotExactly(openapi, surface);
  }

  /** After a release exactly the listed operations are recorded, each as the document has it now. */
  lemma ReleaseRecords(recorded: map<string, Json>, openapi: Json, surface: seq<string>, key: string)
    requires Found(openapi, surface)
    ensures var after := Next(recorded, Run(Release, openapi, surface));
      && (key in after <==> key in surface)
      && (key in surface ==> after[key] == Entry(openapi, key))
  {
    hide Snapshot, Entry;
    SnapshotExactly(openapi, surface);
  }

  /** A check writes nothing, and neither does a run that misses an operation, whatever its mode. */
  lemma OthersRecordNothing(recorded: map<string, Json>, run: Run)
    requires run.mode == Check || !Found(run.openapi, run.surface)
    ensures Next(recorded, run) == recorded
  {
    hide Snapshot;
    SnapshotExactly(run.openapi, run.surface);
  }

  /** The entries of the listed operations. */
  function Current(openapi: Json, surface: seq<string>): map<string, Json> {
    map key | key in surface :: Entry(openapi, key)
  }

  /** A check passes exactly when every listed operation is found and recorded, and nothing recorded breaks;
      an update or a release succeeds whenever every listed operation is found. */
  lemma SucceedsExactly(recorded: map<string, Json>, run: Run)
    ensures Succeeds(recorded, run) <==>
            && Found(run.openapi, run.surface)
            && (run.mode == Check ==>
                  && (forall key :: key in run.surface ==> key in recorded)
                  && BreakingChanges(recorded, Current(run.openapi, run.surface)) == multiset{})
  {
    hide Snapshot, Entry, BreakingChanges;
    SnapshotExactly(run.openapi, run.surface);
    if Found(run.openapi, run.surface) {
      var current := Snapshot(run.openapi, run.surface).value;
      assert current == Current(run.openapi, run.surface);
      assert Missing(recorded, current) == map[] <==> forall key :: key in current ==> key in recorded by {
        if key :| key in current && key !in recorded { assert key in Missing(recorded, current); }
      }
    }
  }

  /** A check right after an update, of the same API, passes exactly when nothing recorded before was broken
      and no operation the update added records a success response as null. */
  lemma CheckAfterUpdate(recorded: map<string, Json>, openapi: Json, surface: seq<string>)
    requires Found(openapi, surface)
    ensures Succeeds(Next(recorded, Run(Update, openapi, surface)), Run(Check, openapi, surface)) <==>
            && BreakingChanges(recorded, Current(openapi, surface)) == multiset{}
            && forall key :: key in surface && key !in recorded ==> ProperEntry(Entry(openapi, key))
  {
    hide Snapshot, Entry, BreakingChanges, ProperEntry;
    SnapshotExactly(openapi, surface);
    var current := Snapshot(openapi, surface).value;
    assert current == Current(openapi, surface);
    var added := Missing(recorded, current);
    var after := Next(recorded, Run(Update, openapi, surface));
    SucceedsExactly(after, Run(Check, openapi, surface));
    forall key
      ensures key in after <==> key in recorded || key in surface
    {
      UpdateRecords(recorded, openapi, surface, key);
    }
    assert after == recorded + added by { SameRecord(recorded, openapi, surface, current, after); }
    BreaksDecompose(recorded, added, current);
    AddedAgainstItself(recorded, current);
    assert forall key :: key in added <==> key in surface && key !in recorded;
    assert forall key :: key in added ==> current[key] == Entry(openapi, key);
    NoneInSum(BreakingChanges(recorded, current), BreakingChanges(added, current));
  }

  lemma SameRecord(recorded: map<string, Json>, openapi: Json, surface: seq<string>, current: map<string, Json>, after: map<string, Json>)
    requires Found(openapi, surface) && current == Current(openapi, surface)
    requires after == Next(recorded, Run(Update, openapi, surface))
    ensures after == recorded + Missing(recorded, current)
  {
    hide Snapshot, Entry, Next;
    forall key
      ensures key in after <==> key in recorded + Missing(recorded, current)
      ensures key in after ==> after[key] == (recorded + Missing(recorded, current))[key]
    {
      UpdateRecords(recorded, openapi, surface, key);
    }
  }

  lemma NoneInSum<T>(a: multiset<T>, b: multiset<T>)
    ensures a + b == multiset{} <==> a == multiset{} && b == multiset{}
  {
    if a + b == multiset{} {
      assert a <= a + b && b <= a + b;
    }
  }

  // ------------------------------------------------------------------ whole histories

  /** The run adds the operation if it is not recorded. */
  predicate Adds(run: Run, key: string) {
    run.mode == Update && Found(run.openapi, run.surface) && key in run.surface
  }

  /** The first run of a history that adds the operation. */
  ghost predicate FirstToAdd(history: seq<Run>, key: string, i: nat) {
    i < |history| && Adds(history[i], key) && forall j :: 0 <= j < i ==> !Adds(history[j], key)
  }

  lemma OneRun(recorded: map<string, Json>, run: Run, key: string)
    requires run.mode != Release
    ensures var after := Next(recorded, run);
      && (key in after <==> key in recorded || Adds(run, key))
      && (key in recorded ==> after[key] == recorded[key])
      && (key !in recorded && Adds(run, key) ==> after[key] == Entry(run.openapi, key))
  {
    hide Next, Entry, Found;
    if run.mode == Update && Found(run.openapi, run.surface) {
      UpdateRecords(recorded, run.openapi, run.surface, key);
    } else {
      OthersRecordNothing(recorded, run);
    }
  }

  /** Over any history without a release, an operation is recorded exactly when it was at the start or some
      update listed it; its entry is the one it had at the start, or the document of the first such update
      gave. */
  lemma {:induction false} RecordedExactly(recorded: map<string, Json>, history: seq<Run>, key: string)
    requires NoRelease(history)
    ensures var after := After(recorded, history);
      && (key in after <==> key in recorded || exists i: nat :: FirstToAdd(history, key, i))
      && (key in recorded ==> after[key] == recorded[key])
      && (key !in recorded ==> forall i: nat :: FirstToAdd(history, key, i) ==> after[key] == Entry(history[i].openapi, key))
  {
    hide Next, Entry, Adds;
    if history != [] {
      var k := |history| - 1;
      RecordedExactly(recorded, history[..k], key);
      OneRun(After(recorded, history[..k]), history[k], key);
      forall i: nat | i < k
        ensures FirstToAdd(history[..k], key, i) <==> FirstToAdd(history, key, i)
      {
        assert forall j :: 0 <= j <= i ==> history[..k][j] == history[j];
      }
      if Adds(history[k], key) && !exists i: nat :: FirstToAdd(history[..k], key, i) {
        NoneAdds(history[..k], key);
        assert forall j :: 0 <= j < k ==> history[..k][j] == history[j];
        assert FirstToAdd(history, key, k);
      }
    }
  }

  lemma FirstOfMore(history: seq<Run>, key: string, k: nat, i: nat)
    requires k <= |history| && FirstToAdd(history[..k], key, i)
    ensures FirstToAdd(history, key, i)
  {
    hide Adds;
    assert forall j :: 0 <= j <= i ==> history[..k][j] == history[j];
  }

  lemma {:induction false} NoneAdds(history: seq<Run>, key: string)
    requires !exists i: nat :: FirstToAdd(history, key, i)
    ensures forall i :: 0 <= i < |history| ==> !Adds(history[i], key)
  {
    hide Adds;
    if history != [] {
      var k := |history| - 1;
      forall i: nat
        ensures !FirstToAdd(history[..k], key, i)
      {
        if FirstToAdd(history[..k], key, i) {
          FirstOfMore(history, key, k, i);
        }
      }
      NoneAdds(history[..k], key);
      assert forall j :: 0 <= j < k ==> history[..k][j] == history[j];
      assert !FirstToAdd(history, key, k);
    }
  }
}
