/** Folding a browser run's counts into the recorded baseline, where a count may only go down. */
module Baseline {
  import opened Wrappers

  /** A count as the log writes it: an integer, or something that is not one. */
  datatype Count = Whole(n: int) | NotWhole

  datatype Line = Blank | Entry(page: string, count: Count)

  predicate Valid(line: Line) {
    line.Entry? ==> line.count.Whole? && line.count.n >= 0
  }

  /** A page made for the run has a random id in its label; `normalise` replaces it. */
  type Normaliser = string -> string

  function Fold(out: map<string, int>, page: string, count: int, allow: set<string>): map<string, int> {
    if page !in out || count < out[page] || page in allow then out[page := count] else out
  }

  /** The baseline after folding in the lines, or the label of the first line whose count is no count. */
  function Merge(baseline: map<string, int>, lines: seq<Line>, allow: set<string>, normalise: Normaliser): Result<map<string, int>, string> {
    if lines == [] then Ok(baseline)
    else
      match Merge(baseline, lines[..|lines| - 1], allow, normalise)
      case Err(page) => Err(page)
      case Ok(out) =>
        var line := lines[|lines| - 1];
        if line.Blank? then Ok(out)
        else if !Valid(line) then Err(normalise(line.page))
        else Ok(Fold(out, normalise(line.page), line.count.n, allow))
  }

  method MergeLog(baseline: map<string, int>, lines: seq<Line>, allow: set<string>, normalise: Normaliser) returns (r: Result<map<string, int>, string>)
    ensures r == Merge(baseline, lines, allow, normalise)
  {
    var out := baseline;
    for i := 0 to |lines|
      invariant Merge(baseline, lines[..i], allow, normalise) == Ok(out)
    {
      var line := lines[i];
      assert lines[..i + 1][..i] == lines[..i];
      if line.Entry? {
        var page := normalise(line.page);
        if !Valid(line) {
          FirstBadStops(baseline, lines, i + 1, allow, normalise);
          return Err(page);
        }
        if page !in out || line.count.n < out[page] || page in allow {
          out := out[page := line.count.n];
        }
      }
    }
    assert lines[..|lines|] == lines;
    return Ok(out);
  }

  /** After a bad line nothing more is read. */
  lemma {:induction false} FirstBadStops(baseline: map<string, int>, lines: seq<Line>, k: nat, allow: set<string>, normalise: Normaliser)
    requires k <= |lines| && Merge(baseline, lines[..k], allow, normalise).Err?
    ensures Merge(baseline, lines, allow, normalise) == Merge(baseline, lines[..k], allow, normalise)
  {
    if k < |lines| {
      var front := lines[..|lines| - 1];
      assert front[..k] == lines[..k];
      FirstBadStops(baseline, front, k, allow, normalise);
    } else {
      assert lines[..k] == lines;
    }
  }

  /** Merging succeeds exactly when every count is a whole number that is not negative; otherwise it names the
      page of the first that is not. */
  lemma {:induction false} MergesExactly(baseline: map<string, int>, lines: seq<Line>, allow: set<string>, normalise: Normaliser)
    ensures Merge(baseline, lines, allow, normalise).Ok? <==>
            forall i :: 0 <= i < |lines| && lines[i].Entry? ==> lines[i].count.Whole? && lines[i].count.n >= 0
    ensures Merge(baseline, lines, allow, normalise).Err? ==>
              exists k: nat :: FirstBad(lines, k) && Merge(baseline, lines, allow, normalise) == Err(normalise(lines[k].page))
  {
    if lines != [] {
      var front := lines[..|lines| - 1];
      assert forall i :: 0 <= i < |front| ==> front[i] == lines[i];
      MergesExactly(baseline, front, allow, normalise);
      if Merge(baseline, front, allow, normalise).Err? {
        var k: nat :| FirstBad(front, k) && Merge(baseline, front, allow, normalise) == Err(normalise(front[k].page));
        assert FirstBad(lines, k);
      } else if !Valid(lines[|lines| - 1]) {
        assert FirstBad(lines, |lines| - 1);
      }
    }
  }

  /** Line `k` is the first whose count is not a whole number, or is negative. */
  predicate FirstBad(lines: seq<Line>, k: nat) {
    && k < |lines| && lines[k].Entry? && (lines[k].count.NotWhole? || lines[k].count.n < 0)
    && forall i :: 0 <= i < k && lines[i].Entry? ==> lines[i].count.Whole? && lines[i].count.n >= 0
  }

  // ------------------------------------------------------------------ one page

  /** The line logs `count` for the page. */
  predicate Logs(line: Line, page: string, count: int, normalise: Normaliser) {
    line.Entry? && normalise(line.page) == page && line.count == Whole(count)
  }

  ghost predicate Logged(lines: seq<Line>, page: string, count: int, normalise: Normaliser) {
    exists i :: 0 <= i < |lines| && Logs(lines[i], page, count, normalise)
  }

  lemma LoggedSplit(lines: seq<Line>, page: string, count: int, normalise: Normaliser)
    requires lines != []
    ensures var k := |lines| - 1;
      Logged(lines, page, count, normalise) <==>
      Logged(lines[..k], page, count, normalise) || Logs(lines[k], page, count, normalise)
  {
    var k := |lines| - 1;
    assert forall i :: 0 <= i < k ==> lines[..k][i] == lines[i];
  }

  /** A count that was in the running for the page: its baseline, or a logged one. */
  ghost predicate Candidate(baseline: map<string, int>, lines: seq<Line>, page: string, count: int, normalise: Normaliser) {
    (page in baseline && baseline[page] == count) || Logged(lines, page, count, normalise)
  }

  /** A page whose ceiling may not be raised ends at the least of its baseline and its logged counts;
      no page is dropped and none appears unlogged. */
  lemma {:induction false} EndsAtTheLeast(baseline: map<string, int>, lines: seq<Line>, allow: set<string>, normalise: Normaliser, page: string)
    requires Merge(baseline, lines, allow, normalise).Ok?
    ensures var out := Merge(baseline, lines, allow, normalise).value;
      && (forall count :: Candidate(baseline, lines, page, count, normalise) ==> page in out)
      && (page in out ==> Candidate(baseline, lines, page, out[page], normalise))
      && (page in out && page !in allow ==>
            forall count :: Candidate(baseline, lines, page, count, normalise) ==> out[page] <= count)
  {
    if lines != [] {
      var k := |lines| - 1;
      EndsAtTheLeast(baseline, lines[..k], allow, normalise, page);
      forall count
        ensures Candidate(baseline, lines, page, count, normalise) <==>
                Candidate(baseline, lines[..k], page, count, normalise) || Logs(lines[k], page, count, normalise)
      {
        LoggedSplit(lines, page, count, normalise);
      }
    } else {
      assert page in baseline ==> Candidate(baseline, lines, page, baseline[page], normalise);
    }
  }

  /** The recorded ceiling of a page never rises. */
  lemma NeverRises(baseline: map<string, int>, lines: seq<Line>, allow: set<string>, normalise: Normaliser, page: string)
    requires Merge(baseline, lines, allow, normalise).Ok? && page in baseline && page !in allow
    ensures page in Merge(baseline, lines, allow, normalise).value
    ensures Merge(baseline, lines, allow, normalise).value[page] <= baseline[page]
  {
    EndsAtTheLeast(baseline, lines, allow, normalise, page);
    assert Candidate(baseline, lines, page, baseline[page], normalise);
  }

  /** The order of the log matters at most to the ceilings that may be raised: the same pages are recorded,
      and every other one ends at the same count. */
  lemma OrderMattersOnlyWhereRaised(
      baseline: map<string, int>, x: seq<Line>, y: seq<Line>, allow: set<string>, normalise: Normaliser)
    requires multiset(x) == multiset(y) && Merge(baseline, x, allow, normalise).Ok?
    ensures Merge(baseline, y, allow, normalise).Ok?
    ensures var a, b := Merge(baseline, x, allow, normalise).value, Merge(baseline, y, allow, normalise).value;
      && a.Keys == b.Keys && forall page :: page in a && page !in allow ==> a[page] == b[page]
  {
    assert forall line :: line in x <==> line in multiset(x);
    assert forall line :: line in y <==> line in multiset(y);
    MergesExactly(baseline, x, allow, normalise);
    MergesExactly(baseline, y, allow, normalise);
    forall i | 0 <= i < |y|
      ensures Valid(y[i])
    {
      assert y[i] in x;
    }
    var a, b := Merge(baseline, x, allow, normalise).value, Merge(baseline, y, allow, normalise).value;
    forall page
      ensures page in a <==> page in b
      ensures page in a && page !in allow ==> page in b && a[page] == b[page]
    {
      SameCandidates(baseline, x, y, page, normalise);
      EndsAtTheLeast(baseline, x, allow, normalise, page);
      EndsAtTheLeast(baseline, y, allow, normalise, page);
    }
  }

  /** With no ceiling raised, the order of the log does not matter. */
  lemma OrderDoesNotMatter(baseline: map<string, int>, x: seq<Line>, y: seq<Line>, normalise: Normaliser)
    requires multiset(x) == multiset(y) && Merge(baseline, x, {}, normalise).Ok?
    ensures Merge(baseline, y, {}, normalise) == Merge(baseline, x, {}, normalise)
  {
    OrderMattersOnlyWhereRaised(baseline, x, y, {}, normalise);
    var a, b := Merge(baseline, x, {}, normalise).value, Merge(baseline, y, {}, normalise).value;
    assert a == b;
  }

  lemma SameCandidates(baseline: map<string, int>, x: seq<Line>, y: seq<Line>, page: string, normalise: Normaliser)
    requires forall line :: line in x <==> line in y
    ensures forall count :: Candidate(baseline, x, page, count, normalise) <==> Candidate(baseline, y, page, count, normalise)
  {
    forall count
      ensures Logged(x, page, count, normalise) <==> Logged(y, page, count, normalise)
    {
      if i :| 0 <= i < |x| && Logs(x[i], page, count, normalise) {
        assert x[i] in y;
        var j :| 0 <= j < |y| && y[j] == x[i];
      }
      if i :| 0 <= i < |y| && Logs(y[i], page, count, normalise) {
        assert y[i] in x;
        var j :| 0 <= j < |x| && x[j] == y[i];
      }
    }
  }

  // ------------------------------------------------------------------ several logs

  /** Merging two logs in turn is merging them joined, raised ceilings included. */
  lemma {:induction false} MergingInTurn(baseline: map<string, int>, x: seq<Line>, y: seq<Line>, allow: set<string>, normalise: Normaliser)
    requires Merge(baseline, x, allow, normalise).Ok?
    ensures Merge(baseline, x + y, allow, normalise) == Merge(Merge(baseline, x, allow, normalise).value, y, allow, normalise)
  {
    if y == [] {
      assert x + y == x;
    } else {
      var k := |y| - 1;
      assert (x + y)[..|x + y| - 1] == x + y[..k];
      MergingInTurn(baseline, x, y[..k], allow, normalise);
    }
  }

  /** The last count logged for a page whose ceiling may be raised. */
  function LastLogged(lines: seq<Line>, page: string, normalise: Normaliser): Option<int> {
    if lines == [] then None
    else
      var line := lines[|lines| - 1];
      if line.Entry? && normalise(line.page) == page && line.count.Whole? then Some(line.count.n)
      else LastLogged(lines[..|lines| - 1], page, normalise)
  }

  /** A page named as allowed ends at its last logged count. */
  lemma {:induction false} RaisedEndsAtTheLast(baseline: map<string, int>, lines: seq<Line>, allow: set<string>, normalise: Normaliser, page: string)
    requires Merge(baseline, lines, allow, normalise).Ok? && page in allow
    ensures var out := Merge(baseline, lines, allow, normalise).value;
      match LastLogged(lines, page, normalise)
      case Some(n) => page in out && out[page] == n
      case None => (page in out <==> page in baseline) && (page in out ==> out[page] == baseline[page])
  {
    if lines != [] {
      RaisedEndsAtTheLast(baseline, lines[..|lines| - 1], allow, normalise, page);
    }
  }

  /** Folding the same log in again changes nothing. */
  lemma MergingTwice(baseline: map<string, int>, lines: seq<Line>, allow: set<string>, normalise: Normaliser)
    requires Merge(baseline, lines, allow, normalise).Ok?
    ensures Merge(Merge(baseline, lines, allow, normalise).value, lines, allow, normalise) == Merge(baseline, lines, allow, normalise)
  {
    var once := Merge(baseline, lines, allow, normalise).value;
    MergesExactly(baseline, lines, allow, normalise);
    MergesExactly(once, lines, allow, normalise);
    var twice := Merge(once, lines, allow, normalise).value;
    forall page
      ensures page in once <==> page in twice
      ensures page in once ==> page in twice && once[page] == twice[page]
    {
      EndsAtTheLeast(baseline, lines, allow, normalise, page);
      EndsAtTheLeast(once, lines, allow, normalise, page);
      if page in once {
        assert Candidate(once, lines, page, once[page], normalise);
      }
      if page in allow {
        RaisedEndsAtTheLast(baseline, lines, allow, normalise, page);
        RaisedEndsAtTheLast(once, lines, allow, normalise, page);
      } else if page in once {
        assert Candidate(once, lines, page, twice[page], normalise);
        if Logged(lines, page, twice[page], normalise) {
          assert Candidate(baseline, lines, page, twice[page], normalise);
        }
      } else if page in twice {
        assert Candidate(baseline, lines, page, twice[page], normalise);
      }
    }
    assert once == twice;
  }
}
