/** Python's string order, decimal formatting, and `sorted`. */
module Order {

  import opened Common

  /** Code-point order on strings: Python's `<`. */
  predicate Less(a: string, b: string) {
    b != [] && (a == [] || a[0] < b[0] || (a[0] == b[0] && Less(a[1..], b[1..])))
  }

  /** `a` and `b` agree up to `i`, where `a` ends or has the smaller character. */
  predicate DecidedAt(a: string, b: string, i: nat) {
    i < |b| && i <= |a| && a[..i] == b[..i] && (i < |a| ==> a[i] < b[i])
  }

  /** Python's `<` on strings: a proper prefix comes first, and otherwise the first difference decides. */
  lemma {:induction false} LessExact(a: string, b: string)
    ensures Less(a, b) <==> exists i: nat :: DecidedAt(a, b, i)
  {
    if Less(a, b) {
      if a == [] || a[0] < b[0] {
        assert DecidedAt(a, b, 0);
      } else {
        LessExact(a[1..], b[1..]);
        var i: nat :| DecidedAt(a[1..], b[1..], i);
        assert a[..i + 1] == [a[0]] + a[1..][..i] && b[..i + 1] == [b[0]] + b[1..][..i];
        assert DecidedAt(a, b, i + 1);
      }
    }
    if i: nat :| DecidedAt(a, b, i) && i > 0 {
      assert a[0] == a[..i][0] && b[0] == b[..i][0];
      LessExact(a[1..], b[1..]);
      assert a[1..][..i - 1] == a[..i][1..] && b[1..][..i - 1] == b[..i][1..];
      assert DecidedAt(a[1..], b[1..], i - 1);
    }
  }

  lemma {:induction false} LessTransitive(a: string, b: string, c: string)
    requires Less(a, b) && Less(b, c)
    ensures Less(a, c)
  {
    if a != [] && a[0] == b[0] && b[0] == c[0] {
      LessTransitive(a[1..], b[1..], c[1..]);
    }
  }

  lemma {:induction false} LessIrreflexive(a: string)
    ensures !Less(a, a)
  {
    if a != [] {
      LessIrreflexive(a[1..]);
    }
  }

  lemma {:induction false} LessTotal(a: string, b: string)
    ensures a == b || Less(a, b) || Less(b, a)
  {
    if a != [] && b != [] && a[0] == b[0] {
      LessTotal(a[1..], b[1..]);
      if a[1..] == b[1..] {
        assert a == [a[0]] + a[1..] && b == [b[0]] + b[1..];
      }
    }
  }

  /** A common prefix does not matter. */
  lemma {:induction false} LessSamePrefix(p: string, a: string, b: string)
    ensures Less(p + a, p + b) <==> Less(a, b)
  {
    if p == [] {
      assert p + a == a && p + b == b;
    } else {
      assert (p + a)[1..] == p[1..] + a && (p + b)[1..] == p[1..] + b;
      LessSamePrefix(p[1..], a, b);
    }
  }

  /** Between strings of one length, what follows a difference does not matter. */
  lemma {:induction false} LessExtended(a: string, b: string, x: string, y: string)
    requires |a| == |b| && Less(a, b)
    ensures Less(a + x, b + y)
  {
    assert (a + x)[0] == a[0] && (b + y)[0] == b[0];
    if a[0] == b[0] {
      assert (a + x)[1..] == a[1..] + x && (b + y)[1..] == b[1..] + y;
      LessExtended(a[1..], b[1..], x, y);
    }
  }

  // ---------- Decimal ----------

  function Digit(d: nat): (c: char)
    requires d < 10
  {
    '0' + d as char
  }

  /** `n` in exactly `w` digits: its last `w` decimal digits. */
  function Digits(n: nat, w: nat): (s: string)
    ensures |s| == w
  {
    if w == 0 then [] else Digits(n / 10, w - 1) + [Digit(n % 10)]
  }

  function Pow10(w: nat): (p: nat)
    ensures p > 0
  {
    if w == 0 then 1 else 10 * Pow10(w - 1)
  }

  /** How many digits `n` needs. */
  function Width(n: nat): (w: nat)
    ensures w > 0
  {
    if n < 10 then 1 else 1 + Width(n / 10)
  }

  /** `f"{n:0{w}d}"`: at least `w` digits, zero-padded. */
  function Padded(n: nat, w: nat): string {
    Digits(n, if Width(n) < w then w else Width(n))
  }

  lemma {:induction false} WidthBounds(n: nat)
    ensures n < Pow10(Width(n))
    ensures n > 0 ==> Pow10(Width(n) - 1) <= n
  {
    if n >= 10 {
      WidthBounds(n / 10);
    } else {
      assert Pow10(1) == 10 * Pow10(0);
    }
  }

  lemma {:induction false} Pow10Monotone(a: nat, b: nat)
    requires a <= b
    ensures Pow10(a) <= Pow10(b)
  {
    if a < b {
      Pow10Monotone(a, b - 1);
    }
  }

  lemma WidthOf(n: nat, w: nat)
    requires n < Pow10(w) && w > 0
    ensures Width(n) <= w
  {
    WidthBounds(n);
    if Width(n) > w {
      Pow10Monotone(w, Width(n) - 1);
    }
  }

  /** Fixed-width decimals order as the numbers do. */
  lemma {:induction false} DigitsLess(a: nat, b: nat, w: nat)
    requires a < b < Pow10(w)
    ensures Less(Digits(a, w), Digits(b, w))
  {
    if w > 0 {
      if a / 10 < b / 10 {
        DigitsLess(a / 10, b / 10, w - 1);
        LessExtended(Digits(a / 10, w - 1), Digits(b / 10, w - 1), [Digit(a % 10)], [Digit(b % 10)]);
      } else {
        assert a / 10 == b / 10 && a % 10 < b % 10;
        LessSamePrefix(Digits(a / 10, w - 1), [Digit(a % 10)], [Digit(b % 10)]);
      }
    }
  }

  lemma DigitsInjective(a: nat, b: nat, w: nat)
    requires a < Pow10(w) && b < Pow10(w)
    requires Digits(a, w) == Digits(b, w)
    ensures a == b
  {
    if a < b {
      DigitsLess(a, b, w);
      LessIrreflexive(Digits(a, w));
    } else if b < a {
      DigitsLess(b, a, w);
      LessIrreflexive(Digits(a, w));
    }
  }

  /** `n` needs more than `w` digits once it reaches `Pow10(w)`. */
  lemma WidthAbove(n: nat, w: nat)
    requires n >= Pow10(w)
    ensures Width(n) > w
  {
    WidthBounds(n);
    if Width(n) <= w {
      Pow10Monotone(Width(n), w);
    }
  }

  lemma {:induction false} LeadingDigit(n: nat, w: nat, d: nat)
    requires w > 0 && d < 10 && d * Pow10(w - 1) <= n < (d + 1) * Pow10(w - 1)
    ensures Digits(n, w)[0] == Digit(d)
  {
    if w == 1 {
      assert Digits(n, 1) == Digits(n / 10, 0) + [Digit(n % 10)];
    } else {
      var p := Pow10(w - 2);
      assert Pow10(w - 1) == 10 * p;
      DropLastDigit(n, d * p, (d + 1) * p) by {
        TenTimes(d, p);
        TenTimes(d + 1, p);
      }
      LeadingDigit(n / 10, w - 1, d);
    }
  }

  lemma TenTimes(d: nat, p: nat)
    ensures d * (10 * p) == 10 * (d * p)
  {
  }

  lemma DropLastDigit(n: nat, low: nat, high: nat)
    requires 10 * low <= n < 10 * high
    ensures low <= n / 10 < high
  {
  }

  lemma PaddedInjective(a: nat, b: nat, w: nat)
    requires Padded(a, w) == Padded(b, w)
    ensures a == b
  {
    var v := |Padded(a, w)|;
    WidthBounds(a);
    WidthBounds(b);
    Pow10Monotone(Width(a), v);
    Pow10Monotone(Width(b), v);
    DigitsInjective(a, b, v);
  }

  // ---------- Sorting ----------

  ghost predicate Sorted(s: seq<string>) {
    forall i, j :: 0 <= i < j < |s| ==> Less(s[i], s[j])
  }

  /** Only one increasing listing of a set exists. */
  lemma {:induction false} SortedUnique(a: seq<string>, b: seq<string>)
    requires Sorted(a) && Sorted(b)
    requires forall x :: x in a <==> x in b
    ensures a == b
  {
    assert a != [] ==> a[0] in a;
    assert b != [] ==> b[0] in b;
    if a != [] {
      var a', b' := a[1..], b[1..];
      SameLeast(a, b);
      assert a == [a[0]] + a' && b == [b[0]] + b';
      SortedNoDup(a);
      SortedNoDup(b);
      assert a[0] !in a' && b[0] !in b';
      forall x
        ensures x in a' <==> x in b'
      {
        assert x in a' <==> x in a && x != a[0];
        assert x in b' <==> x in b && x != b[0];
      }
      SortedUnique(a', b');
    }
  }

  lemma SameLeast(a: seq<string>, b: seq<string>)
    requires Sorted(a) && Sorted(b) && a != [] && b != []
    requires a[0] in b && b[0] in a
    ensures a[0] == b[0]
  {
    if a[0] != b[0] {
      var i :| 0 <= i < |a| && a[i] == b[0];
      var j :| 0 <= j < |b| && b[j] == a[0];
      assert Less(a[0], a[i]) && Less(b[0], b[j]);
      LessTransitive(a[0], b[0], a[0]);
      LessIrreflexive(a[0]);
    }
  }

  lemma SortedNoDup(s: seq<string>)
    requires Sorted(s)
    ensures NoDup(s)
  {
    forall i, j | 0 <= i < j < |s|
      ensures s[i] != s[j]
    {
      LessIrreflexive(s[i]);
    }
  }

  /** `s` with `x` put in its place. */
  function Insert(s: seq<string>, x: string): seq<string> {
    if s == [] || Less(x, s[0]) then [x] + s else [s[0]] + Insert(s[1..], x)
  }

  lemma {:induction false} InsertElements(s: seq<string>, x: string)
    ensures forall y :: y in Insert(s, x) <==> y == x || y in s
    ensures multiset(Insert(s, x)) == multiset(s) + multiset{x}
  {
    if s != [] && !Less(x, s[0]) {
      InsertElements(s[1..], x);
      assert s == [s[0]] + s[1..];
      assert multiset(s) == multiset{s[0]} + multiset(s[1..]);
    } else {
      assert multiset([x] + s) == multiset{x} + multiset(s);
    }
  }

  lemma {:induction false} InsertSorted(s: seq<string>, x: string)
    requires Sorted(s) && x !in s
    ensures Sorted(Insert(s, x))
  {
    if s == [] {
    } else if Less(x, s[0]) {
      forall j | 0 <= j < |s|
        ensures Less(x, s[j])
      {
        if j > 0 {
          LessTransitive(x, s[0], s[j]);
        }
      }
    } else {
      var t := Insert(s[1..], x);
      InsertSorted(s[1..], x);
      InsertElements(s[1..], x);
      LessTotal(x, s[0]);
      forall j | 0 <= j < |t|
        ensures Less(s[0], t[j])
      {
        assert t[j] in t;
        assert s == [s[0]] + s[1..];
      }
    }
  }

  ghost predicate Lists(r: seq<string>, names: set<string>) {
    Sorted(r) && forall x :: x in r <==> x in names
  }

  lemma {:induction false} ListingExists(names: set<string>)
    ensures exists r :: Lists(r, names)
    decreases names
  {
    if names == {} {
      assert Lists([], names);
    } else {
      var x :| x in names;
      ListingExists(names - {x});
      var r :| Lists(r, names - {x});
      InsertSorted(r, x);
      InsertElements(r, x);
      assert Lists(Insert(r, x), names);
    }
  }

  /** The increasing listing of a set. */
  ghost function Listing(names: set<string>): (r: seq<string>)
    ensures Lists(r, names)
  {
    ListingExists(names);
    var r :| Lists(r, names);
    r
  }

  /** `sorted` of a set. */
  method SortSet(s: set<string>) returns (r: seq<string>)
    ensures Sorted(r)
    ensures forall x :: x in r <==> x in s
  {
    r := [];
    var rest := s;
    while rest != {}
      invariant rest <= s
      invariant Sorted(r)
      invariant forall x :: x in r <==> x in s && x !in rest
      decreases rest
    {
      var x :| x in rest;
      InsertSorted(r, x);
      InsertElements(r, x);
      r := Insert(r, x);
      rest := rest - {x};
    }
  }
}
