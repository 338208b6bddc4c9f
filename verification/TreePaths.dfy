// The strings of pkg/model/stree.go: decimal ids, materialised paths, dotted node names and their order.

module TreePaths {

  const DIGITS := "0123456789"

  /** The decimal form of an id. */
  function Decimal(n: nat): (s: string)
    ensures |s| > 0 && '/' !in s
  {
    if n < 10 then [DIGITS[n]] else Decimal(n / 10) + [DIGITS[n % 10]]
  }

  /** The number that a string of digits stands for. */
  function Value(s: string): int {
    if s == "" then 0 else 10 * Value(s[..|s| - 1]) + (s[|s| - 1] as int - '0' as int)
  }

  lemma ValueSnoc(s: string, c: char)
    ensures Value(s + [c]) == 10 * Value(s) + (c as int - '0' as int)
  {
    assert (s + [c])[..|s|] == s;
  }

  lemma DigitValue(d: nat)
    requires d < 10
    ensures '0' <= DIGITS[d] <= '9' && DIGITS[d] as int == '0' as int + d
  {
  }

  /** The decimal form stands for the id. */
  lemma {:induction false} DecimalValue(n: nat)
    ensures Value(Decimal(n)) == n
  {
    var last := DIGITS[n % 10];
    DigitValue(n % 10);
    if n >= 10 {
      DecimalValue(n / 10);
      ValueSnoc(Decimal(n / 10), last);
    } else {
      ValueSnoc("", last);
      assert Decimal(n) == "" + [last];
    }
  }

  /** The decimal form is digits, the first of which is 0 in "0" only. */
  lemma {:induction false} DecimalDigits(n: nat)
    ensures Decimal(n)[0] == '0' ==> n == 0
    ensures forall i :: 0 <= i < |Decimal(n)| ==> '0' <= Decimal(n)[i] <= '9'
  {
    DigitValue(n % 10);
    if n >= 10 {
      DecimalDigits(n / 10);
    }
  }

  lemma DigitsDiffer(i: nat, j: nat)
    requires i < 10 && j < 10 && DIGITS[i] == DIGITS[j]
    ensures i == j
  {
  }

  lemma {:induction false} DecimalInjective(m: nat, n: nat)
    requires Decimal(m) == Decimal(n)
    ensures m == n
  {
    var s, t := Decimal(m), Decimal(n);
    if m < 10 || n < 10 {
      DigitsDiffer(m, n);
    } else {
      assert s[..|s| - 1] == Decimal(m / 10) && t[..|t| - 1] == Decimal(n / 10);
      DecimalInjective(m / 10, n / 10);
      assert s[|s| - 1] == DIGITS[m % 10] && t[|t| - 1] == DIGITS[n % 10];
      DigitsDiffer(m % 10, n % 10);
    }
  }

  /** The path of the children of the row with the id, when that row's own path prefix is `path`. */
  function Under(path: string, id: nat): string {
    path + "/" + Decimal(id)
  }

  /** A path names one parent: the prefix and the id can be read back. */
  lemma UnderInjective(p: string, i: nat, q: string, j: nat)
    requires Under(p, i) == Under(q, j)
    ensures p == q && i == j
  {
    var s := Under(p, i);
    assert s[|p|] == '/' && forall k :: |p| < k < |s| ==> s[k] == Decimal(i)[k - |p| - 1];
    assert s[|q|] == '/' && forall k :: |q| < k < |s| ==> s[k] == Decimal(j)[k - |q| - 1];
    assert p == s[..|p|] == q;
    assert Decimal(i) == s[|p| + 1..] == Decimal(j);
    DecimalInjective(i, j);
  }

  /** strings.Split(s, "."). */
  function Split(s: string): (parts: seq<string>)
    ensures |parts| > 0 && forall part :: part in parts ==> '.' !in part
  {
    if s == "" then [""] else
      var rest := Split(s[1..]);
      if s[0] == '.' then [""] + rest else [[s[0]] + rest[0]] + rest[1..]
  }

  function Dotted(parts: seq<string>): string {
    if parts == [] then "" else if |parts| == 1 then parts[0] else parts[0] + "." + Dotted(parts[1..])
  }

  lemma {:induction false} DottedSplit(s: string)
    ensures Dotted(Split(s)) == s
  {
    if s != "" {
      DottedSplit(s[1..]);
      var rest := Split(s[1..]);
      assert Split(s)[1..] == if s[0] == '.' then rest else rest[1..];
      assert s == [s[0]] + s[1..];
    }
  }

  lemma {:induction false} SplitDotted(parts: seq<string>)
    requires parts != [] && forall part :: part in parts ==> '.' !in part
    ensures Split(Dotted(parts)) == parts
    decreases |Dotted(parts)|
  {
    var s := Dotted(parts);
    if parts[0] != "" {
      var less := [parts[0][1..]] + parts[1..];
      assert less[1..] == parts[1..];
      assert Dotted(less) == s[1..];
      forall part | part in less ensures '.' !in part {
        assert part == parts[0][1..] || part in parts;
        assert '.' !in parts[0];
      }
      assert s[0] == parts[0][0] && s[0] in parts[0];
      SplitDotted(less);
      assert parts[0] == [s[0]] + less[0];
      assert parts == [parts[0]] + parts[1..];
    } else if |parts| > 1 {
      assert s[1..] == Dotted(parts[1..]);
      SplitDotted(parts[1..]);
      assert parts == [""] + parts[1..];
    }
  }

  /** The order sort.Strings sorts by. */
  predicate AtMost(a: string, b: string) {
    a == "" || (b != "" && (a[0] < b[0] || (a[0] == b[0] && AtMost(a[1..], b[1..]))))
  }

  /** The strings agree up to k, where a ends or has the smaller character. */
  ghost predicate Precedes(a: string, b: string, k: int) {
    0 <= k <= |a| && k <= |b| && a[..k] == b[..k] && (k == |a| || (k < |b| && a[k] < b[k]))
  }

  lemma {:induction false} AtMostMeans(a: string, b: string)
    ensures AtMost(a, b) <==> exists k :: Precedes(a, b, k)
  {
    if a == "" {
      assert Precedes(a, b, 0);
    } else if b != "" && a[0] < b[0] {
      assert Precedes(a, b, 0);
    } else if b != "" && a[0] == b[0] {
      AtMostMeans(a[1..], b[1..]);
      PrecedesTail(a, b);
    } else {
      forall k ensures !Precedes(a, b, k) {
        assert 0 < k <= |a| && k <= |b| ==> a[..k][0] == a[0] && b[..k][0] == b[0];
      }
    }
  }

  lemma PrecedesTail(a: string, b: string)
    requires a != "" && b != "" && a[0] == b[0]
    ensures (exists k :: Precedes(a, b, k)) <==> exists k :: Precedes(a[1..], b[1..], k)
  {
    if k :| Precedes(a, b, k) {
      assert k > 0;
      assert a[1..][..k - 1] == a[..k][1..] && b[1..][..k - 1] == b[..k][1..];
      assert Precedes(a[1..], b[1..], k - 1);
    }
    if k :| Precedes(a[1..], b[1..], k) {
      assert a[..k + 1] == [a[0]] + a[1..][..k] && b[..k + 1] == [b[0]] + b[1..][..k];
      assert Precedes(a, b, k + 1);
    }
  }

  lemma {:induction false} AtMostTotal(a: string, b: string)
    ensures AtMost(a, b) || AtMost(b, a)
    ensures AtMost(a, b) && AtMost(b, a) ==> a == b
  {
    if a != "" && b != "" && a[0] == b[0] {
      AtMostTotal(a[1..], b[1..]);
      assert a == [a[0]] + a[1..] && b == [b[0]] + b[1..];
    }
  }

  lemma {:induction false} AtMostTransitive(a: string, b: string, c: string)
    requires AtMost(a, b) && AtMost(b, c)
    ensures AtMost(a, c)
  {
    if a != "" && a[0] == b[0] == c[0] {
      AtMostTransitive(a[1..], b[1..], c[1..]);
    }
  }

  ghost predicate Ascending(s: seq<string>) {
    forall i, j :: 0 <= i < j < |s| ==> AtMost(s[i], s[j])
  }

  /** No string occurs twice. */
  ghost predicate Once(s: seq<string>) {
    forall x :: multiset(s)[x] <= 1
  }

  lemma {:induction false} OnceIfDistinct(s: seq<string>)
    requires forall i, j :: 0 <= i < j < |s| ==> s[i] != s[j]
    ensures Once(s)
  {
    if s != [] {
      var n := |s| - 1;
      OnceIfDistinct(s[..n]);
      assert s == s[..n] + [s[n]] && s[n] !in s[..n];
    }
  }

  lemma AscendingWith(s: seq<string>, i: nat, x: string)
    requires Ascending(s) && i <= |s|
    requires (i > 0 ==> AtMost(s[i - 1], x)) && (forall j :: i <= j < |s| ==> AtMost(x, s[j]))
    ensures Ascending(s[..i] + [x] + s[i..])
  {
    var t := s[..i] + [x] + s[i..];
    forall j, k | 0 <= j < k < |t| ensures AtMost(t[j], t[k]) {
      if k == i && j < i - 1 {
        AtMostTransitive(s[j], s[i - 1], x);
      }
    }
  }

  /** Puts x into its place in the sorted list. */
  method Place(s: seq<string>, x: string) returns (t: seq<string>)
    requires Ascending(s)
    ensures Ascending(t) && multiset(t) == multiset(s) + multiset{x}
  {
    var i := |s|;
    while i > 0 && !AtMost(s[i - 1], x)
      invariant 0 <= i <= |s| && forall j :: i <= j < |s| ==> AtMost(x, s[j])
    {
      AtMostTotal(s[i - 1], x);
      i := i - 1;
    }
    AscendingWith(s, i, x);
    assert s == s[..i] + s[i..];
    t := s[..i] + [x] + s[i..];
  }

  /** sort.Strings: what it returns, which the two clauses fix. */
  method SortStrings(s: seq<string>) returns (t: seq<string>)
    ensures Ascending(t) && multiset(t) == multiset(s)
    ensures (forall x :: x in t <==> x in s) && (Once(s) ==> Once(t))
  {
    t := [];
    for k := 0 to |s|
      invariant Ascending(t) && multiset(t) == multiset(s[..k])
    {
      assert s[..k + 1] == s[..k] + [s[k]];
      t := Place(t, s[k]);
    }
    assert s[..|s|] == s;
    forall x ensures x in t <==> x in s {
      assert x in t <==> x in multiset(t);
    }
  }
}
