/** The ordering of migration versions in db/migrate.py: versions are compared as strings, which is only
    sound because discovery refuses a mixed-width set. */
module VersionOrder {

  ghost predicate Digits(s: string) {
    forall i :: 0 <= i < |s| ==> '0' <= s[i] <= '9'
  }

  ghost function Digit(c: char): int {
    c as int - '0' as int
  }

  ghost function Value(s: string): int {
    if s == "" then 0 else 10 * Value(s[..|s| - 1]) + Digit(s[|s| - 1])
  }

  /** Python's < on strings. */
  ghost predicate LexLess(a: string, b: string) {
    b != "" && (a == "" || a[0] < b[0] || (a[0] == b[0] && LexLess(a[1..], b[1..])))
  }

  ghost function Power(n: nat): (p: int)
    ensures p >= 1
  {
    if n == 0 then 1 else 10 * Power(n - 1)
  }

  lemma {:induction false} ValueBounds(s: string)
    requires Digits(s)
    ensures 0 <= Value(s) < Power(|s|)
  {
    if s != "" { ValueBounds(s[..|s| - 1]); }
  }

  lemma {:induction false} ValueFromFront(s: string)
    requires s != ""
    ensures Value(s) == Digit(s[0]) * Power(|s| - 1) + Value(s[1..])
    decreases |s|
  {
    if |s| > 1 {
      var init := s[..|s| - 1];
      ValueFromFront(init);
      assert init[1..] == s[1..][..|s| - 2];
      assert 10 * (Digit(s[0]) * Power(|s| - 2)) == Digit(s[0]) * Power(|s| - 1);
    } else {
      assert s[..0] == "";
    }
  }

  lemma LeadingDigitDecides(x: int, y: int, p: int, u: int, v: int)
    requires x < y && 0 <= u < p && 0 <= v
    ensures x * p + u < y * p + v
  {
    assert (x + 1) * p <= y * p;
  }

  /** At equal width, string order is numeric order and equal strings are equal numbers: targets and the
      sorted plan mean what the numbers say. */
  lemma {:induction false} EqualWidthOrder(a: string, b: string)
    requires Digits(a) && Digits(b) && |a| == |b|
    ensures LexLess(a, b) <==> Value(a) < Value(b)
    ensures a == b <==> Value(a) == Value(b)
    decreases |a|
  {
    if a != "" {
      EqualWidthOrder(a[1..], b[1..]);
      ValueFromFront(a);
      ValueFromFront(b);
      ValueBounds(a[1..]);
      ValueBounds(b[1..]);
      var p := Power(|a| - 1);
      if Digit(a[0]) < Digit(b[0]) {
        LeadingDigitDecides(Digit(a[0]), Digit(b[0]), p, Value(a[1..]), Value(b[1..]));
      } else if Digit(b[0]) < Digit(a[0]) {
        LeadingDigitDecides(Digit(b[0]), Digit(a[0]), p, Value(b[1..]), Value(a[1..]));
      } else {
        assert a == [a[0]] + a[1..] && b == [b[0]] + b[1..];
      }
    }
  }

  function Nines(n: nat): (s: string)
    ensures |s| == n && forall i :: 0 <= i < n ==> s[i] == '9'
  {
    seq(n, i => '9')
  }

  /** "1", "10", "100", ... */
  function OneAndZeros(n: nat): (s: string)
    requires n >= 1
    ensures |s| == n && s[0] == '1' && forall i :: 1 <= i < n ==> s[i] == '0'
  {
    seq(n, i => if i == 0 then '1' else '0')
  }

  lemma {:induction false} PowerGrows(m: nat, n: nat)
    requires m <= n
    ensures Power(m) <= Power(n)
  {
    if m < n { PowerGrows(m, n - 1); }
  }

  /** The shorter nines are the smaller number and the greater string. */
  lemma ShorterNines(m: nat, n: nat)
    requires 1 <= m < n
    ensures Digits(Nines(m)) && Digits(OneAndZeros(n))
    ensures Value(Nines(m)) < Value(OneAndZeros(n))
    ensures LexLess(OneAndZeros(n), Nines(m)) && !LexLess(Nines(m), OneAndZeros(n))
  {
    ValueBounds(Nines(m));
    ValueFromFront(OneAndZeros(n));
    ValueBounds(OneAndZeros(n)[1..]);
    PowerGrows(m, n - 1);
  }

  /** Strings of these widths are ordered as their numbers are. */
  ghost predicate OrdersAgree(m: nat, n: nat) {
    forall a, b :: Digits(a) && Digits(b) && |a| == m && |b| == n ==> (LexLess(a, b) <==> Value(a) < Value(b))
  }

  /** MIXED WIDTHS DIVERGE, all of them: the two orders agree on two widths if and only if they are one. */
  lemma OrdersAgreeIff(m: nat, n: nat)
    requires m >= 1 && n >= 1
    ensures OrdersAgree(m, n) <==> m == n
  {
    if m == n {
      forall a, b | Digits(a) && Digits(b) && |a| == m && |b| == n ensures LexLess(a, b) <==> Value(a) < Value(b) {
        EqualWidthOrder(a, b);
      }
    } else if m < n {
      ShorterNines(m, n);
    } else {
      ShorterNines(n, m);
    }
  }
}
