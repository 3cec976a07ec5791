/** Finding a block of a style sheet: the text between the braces that follow an opener. */
module BraceScan {
  import opened Wrappers

  // ------------------------------------------------------------------ str.index

  /** `part` stands in `s` at `k`. */
  predicate Begins(s: string, part: string, k: nat) {
    k + |part| <= |s| && s[k..k + |part|] == part
  }

  /** The first place at or after `from` where `part` stands. */
  function IndexOf(s: string, part: string, from: nat): (r: Option<nat>)
    ensures r.Some? ==> from <= r.value && Begins(s, part, r.value) && forall j: nat :: from <= j < r.value ==> !Begins(s, part, j)
    ensures r.None? ==> forall j: nat :: from <= j ==> !Begins(s, part, j)
    decreases |s| - from
  {
    if from + |part| > |s| then None
    else if Begins(s, part, from) then Some(from)
    else IndexOf(s, part, from + 1)
  }

  lemma IndexIs(s: string, part: string, from: nat, k: nat)
    requires from <= k && Begins(s, part, k) && forall j: nat :: from <= j < k ==> !Begins(s, part, j)
    ensures IndexOf(s, part, from) == Some(k)
  {
  }

  // ------------------------------------------------------------------ braces

  /** How much deeper one character takes the scan. */
  function Weight(c: char): int {
    if c == '{' then 1 else if c == '}' then -1 else 0
  }

  /** Opening braces less closing ones. */
  function Net(s: string): int {
    if s == "" then 0 else Weight(s[0]) + Net(s[1..])
  }

  /** Counted, whatever their order. */
  lemma {:induction false} NetCounts(s: string)
    ensures Net(s) == multiset(s)['{'] as int - multiset(s)['}'] as int
  {
    if s != "" {
      NetCounts(s[1..]);
      assert s == [s[0]] + s[1..];
    }
  }

  /** Every closing brace has its opening one before it, and none is left open. */
  ghost predicate Balanced(s: string) {
    Net(s) == 0 && forall k: nat :: k <= |s| ==> Net(s[..k]) >= 0
  }

  /** How many characters it takes, from a depth, to come back to depth zero; nothing when the text ends
      first. */
  function Scan(s: string, depth: int): (r: Option<nat>)
    ensures r.Some? ==> 1 <= r.value <= |s|
    decreases |s|
  {
    if s == "" then None
    else if depth + Weight(s[0]) == 0 then Some(1)
    else
      match Scan(s[1..], depth + Weight(s[0]))
      case None => None
      case Some(n) => Some(n + 1)
  }

  datatype Found = Block(text: string) | NotFound | Unclosed

  /** The block after the opener. */
  function BlockOf(css: string, opener: string): Found {
    match IndexOf(css, opener, 0)
    case None => NotFound
    case Some(at) =>
      match IndexOf(css, "{", at + |opener|)
      case None => NotFound
      case Some(brace) =>
        var rest := css[brace + 1..];
        match Scan(rest, 1)
        case None => Unclosed
        case Some(n) => Block(rest[..n - 1])
  }

  method FindBlock(css: string, opener: string) returns (found: Found)
    ensures found == BlockOf(css, opener)
  {
    hide IndexOf, Scan;
    var at := IndexOf(css, opener, 0);
    if at.None? {
      return NotFound;
    }
    var brace := IndexOf(css, "{", at.value + |opener|);
    if brace.None? {
      return NotFound;
    }
    var start := brace.value + 1;
    var n := ScanFrom(css, start);
    if n.None? {
      return Unclosed;
    }
    return Block(css[start..][..n.value - 1]);
  }

  /** The loop that counts nesting from `start`, one brace deep. */
  method ScanFrom(css: string, start: nat) returns (n: Option<nat>)
    requires start <= |css|
    ensures n == Scan(css[start..], 1)
  {
    var depth, i := 1, start;
    while depth != 0
      invariant start <= i <= |css|
      invariant depth != 0 ==> Scan(css[start..], 1) == Later(Scan(css[i..], depth), i - start)
      invariant depth == 0 ==> Scan(css[start..], 1) == Some(i - start)
      decreases |css| - i
    {
      if i == |css| {
        return None;
      }
      assert css[i..][1..] == css[i + 1..];
      depth := depth + Weight(css[i]);
      i := i + 1;
    }
    return Some(i - start);
  }

  /** The same place, counted from further back. */
  function Later(n: Option<nat>, offset: nat): Option<nat> {
    if n.Some? then Some(n.value + offset) else None
  }

  // ------------------------------------------------------------------ what the scan finds

  /** The scan from `depth` comes back to zero after exactly `n` characters, and not before. */
  ghost predicate ReturnsAt(s: string, depth: int, n: nat) {
    1 <= n <= |s| && depth + Net(s[..n]) == 0 && forall k: nat :: 1 <= k < n ==> depth + Net(s[..k]) != 0
  }

  lemma {:induction false} ScanExactly(s: string, depth: int, n: nat)
    ensures Scan(s, depth) == Some(n) <==> ReturnsAt(s, depth, n)
    decreases |s|
  {
    if s != "" {
      var d := depth + Weight(s[0]);
      assert Net(s[..1]) == Weight(s[0]) by { assert s[..1][1..] == ""; }
      if d == 0 {
      } else if n >= 1 {
        ScanExactly(s[1..], d, n - 1);
        forall k: nat | 1 <= k <= |s|
          ensures Net(s[..k]) == Weight(s[0]) + Net(s[1..][..k - 1])
        {
          assert s[..k][1..] == s[1..][..k - 1];
        }
        ShiftReturn(s, depth, n);
      }
    }
  }

  lemma ShiftReturn(s: string, depth: int, n: nat)
    requires s != "" && n >= 1 && depth + Weight(s[0]) != 0
    requires forall k: nat :: 1 <= k <= |s| ==> Net(s[..k]) == Weight(s[0]) + Net(s[1..][..k - 1])
    ensures ReturnsAt(s, depth, n) <==> ReturnsAt(s[1..], depth + Weight(s[0]), n - 1)
  {
    var t, d := s[1..], depth + Weight(s[0]);
    assert Net(t[..0]) == 0;
    if ReturnsAt(t, d, n - 1) {
      forall k: nat | 1 <= k < n
        ensures depth + Net(s[..k]) != 0
      {
        if k > 1 { assert d + Net(t[..k - 1]) != 0; }
      }
    }
    if ReturnsAt(s, depth, n) {
      assert n != 1;
      forall k: nat | 1 <= k < n - 1
        ensures d + Net(t[..k]) != 0
      {
        assert depth + Net(s[..k + 1]) != 0;
      }
    }
  }

  lemma {:induction false} NetStep(s: string, k: nat)
    requires k < |s|
    ensures Net(s[..k + 1]) == Net(s[..k]) + Weight(s[k])
  {
    if k == 0 {
      assert s[..1][1..] == "";
    } else {
      NetStep(s[1..], k - 1);
      assert s[..k + 1][1..] == s[1..][..k] && s[..k][1..] == s[1..][..k - 1];
    }
  }

  /** A text that never returns to zero from depth one stays above it. */
  lemma {:induction false} StaysInside(s: string, n: nat, k: nat)
    requires n <= |s| && k < n && forall j: nat :: 1 <= j < n ==> 1 + Net(s[..j]) != 0
    ensures Net(s[..k]) >= 0
  {
    if k > 0 {
      StaysInside(s, n, k - 1);
      NetStep(s, k - 1);
      assert 1 + Net(s[..k]) != 0;
    }
  }

  /** The matching brace: the text before it is balanced. */
  ghost predicate Matches(s: string, n: nat) {
    1 <= n <= |s| && s[n - 1] == '}' && Balanced(s[..n - 1])
  }

  /** The scan finds the matching brace, exactly when there is one; so it is the only one. */
  lemma ScanFindsTheMatch(s: string, n: nat)
    ensures Scan(s, 1) == Some(n) <==> Matches(s, n)
  {
    ScanExactly(s, 1, n);
    if 1 <= n <= |s| {
      NetStep(s, n - 1);
      var inner := s[..n - 1];
      assert forall k: nat :: k <= |inner| ==> inner[..k] == s[..k];
      if ReturnsAt(s, 1, n) {
        forall k: nat | k <= |inner|
          ensures Net(inner[..k]) >= 0
        {
          StaysInside(s, n, k);
        }
        assert inner[..|inner|] == inner && Net(inner[..|inner|]) >= 0;
      }
      if Matches(s, n) {
        forall k: nat | 1 <= k < n
          ensures 1 + Net(s[..k]) != 0
        {
          assert Net(inner[..k]) >= 0;
        }
      }
    }
  }

  /** The block found is the balanced text up to the brace that matches the first one after the first
      opener; the scan runs off the end exactly when nothing matches. */
  lemma BlockIsTheMatch(css: string, opener: string, at: nat, brace: nat)
    requires IndexOf(css, opener, 0) == Some(at) && IndexOf(css, "{", at + |opener|) == Some(brace)
    ensures var rest := css[brace + 1..];
      && (BlockOf(css, opener) == Unclosed <==> forall n :: !Matches(rest, n))
      && (forall n :: Matches(rest, n) ==> BlockOf(css, opener) == Block(rest[..n - 1]))
  {
    hide IndexOf, Scan, Matches;
    var rest := css[brace + 1..];
    forall n: nat
      ensures Scan(rest, 1) == Some(n) <==> Matches(rest, n)
    {
      ScanFindsTheMatch(rest, n);
    }
    var found := Scan(rest, 1);
    assert BlockOf(css, opener) == if found.None? then Unclosed else Block(rest[..found.value - 1]);
    if found.Some? {
      assert Matches(rest, found.value);
    }
  }

  /** No block is looked for exactly when the opener is nowhere, or no brace comes after its first place. */
  lemma NotFoundExactly(css: string, opener: string)
    ensures BlockOf(css, opener) == NotFound <==>
            forall at: nat :: Begins(css, opener, at) && (forall j: nat :: j < at ==> !Begins(css, opener, j)) ==>
              '{' !in css[at + |opener|..]
  {
    hide Scan;
    var at := IndexOf(css, opener, 0);
    if at.Some? {
      var from := at.value + |opener|;
      var brace := IndexOf(css, "{", from);
      BraceStands(css, from);
      forall other: nat | Begins(css, opener, other) && (forall j: nat :: j < other ==> !Begins(css, opener, j))
        ensures other == at.value
      {
      }
    }
  }

  lemma BraceStands(css: string, from: nat)
    requires from <= |css|
    ensures IndexOf(css, "{", from).Some? <==> '{' in css[from..]
  {
    if IndexOf(css, "{", from).Some? {
      var k := IndexOf(css, "{", from).value;
      assert css[k..k + 1][0] == css[k] && css[from..][k - from] == '{';
    }
    if '{' in css[from..] {
      var i :| 0 <= i < |css[from..]| && css[from..][i] == '{';
      assert css[from + i..from + i + 1] == "{";
      assert Begins(css, "{", from + i);
    }
  }

  /** Embedding a balanced body after a fresh opener and scanning returns exactly that body. */
  lemma EmbeddedBodyIsFound(before: string, opener: string, gap: string, body: string, after: string)
    requires Balanced(body) && '{' !in gap
    requires forall j: nat :: j < |before| ==> !Begins(before + opener + gap + "{" + body + "}" + after, opener, j)
    ensures BlockOf(before + opener + gap + "{" + body + "}" + after, opener) == Block(body)
  {
    hide IndexOf, Scan, BlockOf, Balanced;
    var css := before + opener + gap + "{" + body + "}" + after;
    var from := |before| + |opener|;
    var brace := from + |gap|;
    assert css[|before|..from] == opener;
    IndexIs(css, opener, 0, |before|);
    forall j: nat | from <= j < brace
      ensures !Begins(css, "{", j)
    {
      assert css[j] == gap[j - from] && css[j..j + 1][0] == css[j];
    }
    assert css[brace..brace + 1] == "{";
    IndexIs(css, "{", from, brace);
    var rest := css[brace + 1..];
    assert rest == body + "}" + after;
    assert rest[..|body|] == body && rest[|body|] == '}';
    assert Matches(rest, |body| + 1);
    BlockIsTheMatch(css, opener, |before|, brace);
  }
}
