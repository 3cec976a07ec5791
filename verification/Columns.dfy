/** Spreadsheet column names and cell addresses: A to Z, AA to ZZ, AAA and on. */
module Columns {

  /** The name of the n-th column, counted from one; nothing for zero. */
  function Name(n: nat): string {
    if n == 0 then "" else Name((n - 1) / 26) + [(65 + (n - 1) % 26) as char]
  }

  /** The name of column `i`, counted from zero. */
  function Column(i: nat): string {
    Name(i + 1)
  }

  /** The name of column `index`; -1 is the column before the first. */
  method Col(index: int) returns (s: string)
    requires index >= -1
    ensures s == Name(index + 1)
  {
    s := "";
    var i := index + 1;
    while i != 0
      invariant i >= 0
      invariant Name(index + 1) == Name(i) + s
    {
      var r := (i - 1) % 26;
      i := (i - 1) / 26;
      s := [(65 + r) as char] + s;
    }
  }

  lemma NameStep(n: nat)
    requires n > 0
    ensures Name(n) == Name((n - 1) / 26) + [(65 + (n - 1) % 26) as char]
  {
  }

  predicate Letters(s: string) {
    forall k :: 0 <= k < |s| ==> 'A' <= s[k] <= 'Z'
  }

  function Digit(c: char): nat
    requires 'A' <= c <= 'Z'
  {
    c as int - 64
  }

  /** What a name stands for, by place value with digits 1 to 26. */
  function Value(s: string): nat
    requires Letters(s)
  {
    if s == "" then 0 else Value(s[..|s| - 1]) * 26 + Digit(s[|s| - 1])
  }

  lemma ValueStep(s: string)
    requires Letters(s) && s != ""
    ensures Letters(s[..|s| - 1]) && Value(s) == Value(s[..|s| - 1]) * 26 + Digit(s[|s| - 1])
  {
  }

  lemma ValueOfLonger(s: string, c: char)
    requires Letters(s) && 'A' <= c <= 'Z'
    ensures Letters(s + [c]) && Value(s + [c]) == Value(s) * 26 + Digit(c)
  {
    assert (s + [c])[..|s|] == s;
  }

  /** Decoding a name gives the column it names. */
  lemma {:induction false} NameDecodes(n: nat)
    ensures Letters(Name(n)) && Value(Name(n)) == n && (Name(n) == "" <==> n == 0)
  {
    if n > 0 {
      var q, r := (n - 1) / 26, (n - 1) % 26;
      NameDecodes(q);
      assert n == q * 26 + r + 1;
      ValueOfLonger(Name(q), (65 + r) as char);
    }
  }

  lemma DivideBack(q: nat, d: nat)
    requires 1 <= d <= 26
    ensures (q * 26 + d - 1) / 26 == q && (q * 26 + d - 1) % 26 == d - 1
  {
  }

  /** Every string of letters is the name of its value. */
  lemma {:induction false} LettersAreNames(s: string)
    requires Letters(s)
    ensures Name(Value(s)) == s
  {
    if s != "" {
      hide Name;
      var k := |s| - 1;
      var q := Value(s[..k]);
      LettersAreNames(s[..k]);
      DivideBack(q, Digit(s[k]));
      NameStep(q * 26 + Digit(s[k]));
      assert s == s[..k] + [s[k]];
    }
  }

  /** Names and columns correspond one to one: every non-empty string of letters names exactly one. */
  lemma NamesAreABijection(s: string)
    requires Letters(s) && s != ""
    ensures Value(s) >= 1
    ensures forall i: nat :: Column(i) == s <==> i == Value(s) - 1
  {
    LettersAreNames(s);
    forall i: nat | Column(i) == s
      ensures i == Value(s) - 1
    {
      NameDecodes(i + 1);
    }
  }

  // ------------------------------------------------------------------ order

  /** First difference decides. */
  ghost predicate Alphabetical(a: string, b: string)
    requires |a| == |b|
  {
    exists k :: 0 <= k < |a| && a[..k] == b[..k] && a[k] < b[k]
  }

  /** Shorter first, then alphabetical. */
  ghost predicate Before(a: string, b: string) {
    |a| < |b| || (|a| == |b| && Alphabetical(a, b))
  }

  /** The value of the first name of a length. */
  function Lowest(length: nat): nat {
    if length == 0 then 0 else Lowest(length - 1) * 26 + 1
  }

  lemma {:induction false} LengthBounds(s: string)
    requires Letters(s)
    ensures Lowest(|s|) <= Value(s) < Lowest(|s| + 1)
  {
    if s != "" {
      LengthBounds(s[..|s| - 1]);
    }
  }

  lemma {:induction false} LowestGrows(m: nat, n: nat)
    requires m <= n
    ensures Lowest(m) <= Lowest(n)
  {
    if m < n { LowestGrows(m, n - 1); }
  }

  lemma NothingBefore(a: string, b: string)
    requires |a| == |b| == 0
    ensures !Alphabetical(a, b)
  {
  }

  lemma AlphabeticalByLast(a: string, b: string)
    requires |a| == |b| > 0
    ensures var k := |a| - 1;
      Alphabetical(a, b) <==> Alphabetical(a[..k], b[..k]) || (a[..k] == b[..k] && a[k] < b[k])
  {
    var n := |a| - 1;
    if Alphabetical(a, b) {
      var k :| 0 <= k < |a| && a[..k] == b[..k] && a[k] < b[k];
      if k < n {
        assert a[..n][..k] == a[..k] && b[..n][..k] == b[..k];
      }
    }
    if Alphabetical(a[..n], b[..n]) {
      var k :| 0 <= k < n && a[..n][..k] == b[..n][..k] && a[..n][k] < b[..n][k];
      assert a[..n][..k] == a[..k] && b[..n][..k] == b[..k];
    }
  }

  lemma LastDigitDecides(x: nat, d: nat, y: nat, e: nat)
    requires 1 <= d <= 26 && 1 <= e <= 26
    ensures x * 26 + d < y * 26 + e <==> x < y || (x == y && d < e)
    ensures x * 26 + d == y * 26 + e <==> x == y && d == e
  {
  }

  lemma {:induction false} SameLengthOrder(a: string, b: string)
    requires Letters(a) && Letters(b) && |a| == |b|
    ensures Alphabetical(a, b) <==> Value(a) < Value(b)
    ensures a == b <==> Value(a) == Value(b)
  {
    hide Alphabetical, Value;
    if a == "" {
      NothingBefore(a, b);
      assert a == b;
    } else {
      var k := |a| - 1;
      ValueStep(a);
      ValueStep(b);
      LastDigitDecides(Value(a[..k]), Digit(a[k]), Value(b[..k]), Digit(b[k]));
      AlphabeticalByLast(a, b);
      SameLengthOrder(a[..k], b[..k]);
      assert a == a[..k] + [a[k]] && b == b[..k] + [b[k]];
    }
  }

  /** Columns come in the order of their names. */
  lemma NamesInOrder(i: nat, j: nat)
    ensures Before(Column(i), Column(j)) <==> i < j
  {
    hide Name;
    var a, b := Column(i), Column(j);
    NameDecodes(i + 1);
    NameDecodes(j + 1);
    LengthBounds(a);
    LengthBounds(b);
    if |a| == |b| {
      SameLengthOrder(a, b);
    } else if |a| < |b| {
      LowestGrows(|a| + 1, |b|);
    } else {
      LowestGrows(|b| + 1, |a|);
    }
  }

  // ------------------------------------------------------------------ addresses

  /** A number in decimal. */
  function Decimal(n: nat): string {
    if n < 10 then [(48 + n) as char] else Decimal(n / 10) + [(48 + n % 10) as char]
  }

  function Address(column: nat, row: nat): string {
    Column(column) + Decimal(row + 1)
  }

  lemma {:induction false} DecimalIsDigits(n: nat)
    ensures Decimal(n) != "" && forall k :: 0 <= k < |Decimal(n)| ==> '0' <= Decimal(n)[k] <= '9'
  {
    if n >= 10 { DecimalIsDigits(n / 10); }
  }

  lemma {:induction false} DecimalInjective(m: nat, n: nat)
    requires Decimal(m) == Decimal(n)
    ensures m == n
  {
    DecimalIsDigits(m / 10);
    DecimalIsDigits(n / 10);
    var d, e := Decimal(m), Decimal(n);
    assert d[|d| - 1] == (48 + m % 10) as char && e[|e| - 1] == (48 + n % 10) as char;
    if m >= 10 && n >= 10 {
      assert d[..|d| - 1] == Decimal(m / 10) && e[..|e| - 1] == Decimal(n / 10);
      DecimalInjective(m / 10, n / 10);
    }
  }

  /** The letters of an address end where its digits begin. */
  lemma AddressSplits(a: string, d: string, b: string, e: string)
    requires Letters(a) && Letters(b) && a + d == b + e && d != "" && e != ""
    requires !('A' <= d[0] <= 'Z') && !('A' <= e[0] <= 'Z')
    ensures a == b && d == e
  {
    var whole := a + d;
    assert whole[|a|] == d[0] && whole[|b|] == e[0];
    assert |a| == |b|;
    assert a == whole[..|a|] && b == whole[..|b|];
    assert d == whole[|a|..] && e == whole[|b|..];
  }

  /** No two cells share an address. */
  lemma AddressesDistinct(column: nat, row: nat, column': nat, row': nat)
    requires Address(column, row) == Address(column', row')
    ensures column == column' && row == row'
  {
    hide Name, Decimal;
    NameDecodes(column + 1);
    NameDecodes(column' + 1);
    DecimalIsDigits(row + 1);
    DecimalIsDigits(row' + 1);
    AddressSplits(Column(column), Decimal(row + 1), Column(column'), Decimal(row' + 1));
    DecimalInjective(row + 1, row' + 1);
  }
}
