/** `Message.generate_id`: "M", the clock in milliseconds, and a counter padded to six digits. */
module MessageIds {

  import opened Order

  function MakeId(ms: nat, counter: nat): string {
    "M" + Padded(ms, 1) + Padded(counter, 6)
  }

  /** A millisecond clock between 2001-09-09 and 2286-11-20 prints as thirteen digits. */
  predicate Clock(ms: nat) {
    1_000_000_000_000 <= ms < 10_000_000_000_000
  }

  lemma ClockDigits(ms: nat)
    requires Clock(ms)
    ensures Padded(ms, 1) == Digits(ms, 13) && ms < Pow10(13)
  {
    assert Pow10(13) == 10_000_000_000_000 && Pow10(12) == 1_000_000_000_000;
    WidthOf(ms, 13);
    WidthBounds(ms);
    if Width(ms) < 13 {
      Pow10Monotone(Width(ms), 12);
    }
  }

  /** Distinct counters give distinct ids, whatever the clock does between them; and the id fixes the clock too. */
  lemma IdInjective(ms1: nat, c1: nat, ms2: nat, c2: nat)
    requires Clock(ms1) && Clock(ms2)
    ensures MakeId(ms1, c1) == MakeId(ms2, c2) <==> ms1 == ms2 && c1 == c2
  {
    if MakeId(ms1, c1) == MakeId(ms2, c2) {
      var a, b := MakeId(ms1, c1), MakeId(ms2, c2);
      ClockDigits(ms1);
      ClockDigits(ms2);
      assert a[1..14] == Digits(ms1, 13) && b[1..14] == Digits(ms2, 13);
      assert a[14..] == Padded(c1, 6) && b[14..] == Padded(c2, 6);
      DigitsInjective(ms1, ms2, 13);
      PaddedInjective(c1, c2, 6);
    }
  }

  lemma CounterDigits(c: nat)
    requires c <= 999_999
    ensures Padded(c, 6) == Digits(c, 6) && c < Pow10(6)
  {
    assert Pow10(6) == 1_000_000;
    WidthOf(c, 6);
  }

  lemma IdParts(ms: nat, c: nat)
    requires Clock(ms)
    ensures MakeId(ms, c) == "M" + (Digits(ms, 13) + Padded(c, 6))
  {
    ClockDigits(ms);
  }

  /** A later millisecond makes a greater id, whatever the counters. */
  lemma LaterClockLess(ms1: nat, c1: nat, ms2: nat, c2: nat)
    requires Clock(ms1) && Clock(ms2) && ms1 < ms2
    ensures Less(MakeId(ms1, c1), MakeId(ms2, c2))
  {
    IdParts(ms1, c1);
    IdParts(ms2, c2);
    ClockDigits(ms2);
    DigitsLess(ms1, ms2, 13);
    LessExtended(Digits(ms1, 13), Digits(ms2, 13), Padded(c1, 6), Padded(c2, 6));
    LessSamePrefix("M", Digits(ms1, 13) + Padded(c1, 6), Digits(ms2, 13) + Padded(c2, 6));
  }

  /** Within one millisecond ids order as their padded counters do. */
  lemma SameClockLess(ms: nat, c1: nat, c2: nat)
    requires Clock(ms)
    ensures Less(MakeId(ms, c1), MakeId(ms, c2)) <==> Less(Padded(c1, 6), Padded(c2, 6))
  {
    IdParts(ms, c1);
    IdParts(ms, c2);
    LessSamePrefix(Digits(ms, 13), Padded(c1, 6), Padded(c2, 6));
    LessSamePrefix("M", Digits(ms, 13) + Padded(c1, 6), Digits(ms, 13) + Padded(c2, 6));
  }

  /** Creation order is string order while the clock does not go back and the counter has six digits. */
  lemma CreationOrder(ms1: nat, c1: nat, ms2: nat, c2: nat)
    requires Clock(ms1) && Clock(ms2) && ms1 <= ms2
    requires c1 < c2 <= 999_999
    ensures Less(MakeId(ms1, c1), MakeId(ms2, c2))
  {
    if ms1 < ms2 {
      LaterClockLess(ms1, c1, ms2, c2);
    } else {
      CounterDigits(c1);
      CounterDigits(c2);
      DigitsLess(c1, c2, 6);
      SameClockLess(ms1, c1, c2);
    }
  }

  /** From the millionth message on it can break: within one millisecond, the first counter with one more digit
      makes an id that sorts before its predecessor's. */
  lemma NewWidthSortsFirst(ms: nat, w: nat)
    requires Clock(ms) && w >= 6
    ensures Less(MakeId(ms, Pow10(w)), MakeId(ms, Pow10(w) - 1))
  {
    hide Digits, Padded, Less, MakeId, Width;
    PaddedPower(w);
    PaddedBelowPower(w);
    FirstCharDecides(Padded(Pow10(w), 6), Padded(Pow10(w) - 1, 6));
    SameClockLess(ms, Pow10(w), Pow10(w) - 1);
  }

  /** The counter gains a digit beyond the sixth. */
  ghost predicate GainsDigit(c: nat) {
    exists w: nat :: w >= 6 && c == Pow10(w)
  }

  /** Exactly when the next id sorts after this one, for a clock that does not go back: always, unless the clock
      stands still while the counter gains a digit. */
  lemma NextIdSortsAfter(ms1: nat, ms2: nat, c: nat)
    requires Clock(ms1) && Clock(ms2) && ms1 <= ms2
    ensures Less(MakeId(ms1, c), MakeId(ms2, c + 1)) <==> ms1 < ms2 || !GainsDigit(c + 1)
  {
    hide Digits, Padded, Less, MakeId, Width;
    if ms1 < ms2 {
      LaterClockLess(ms1, c, ms2, c + 1);
    } else if GainsDigit(c + 1) {
      var w: nat :| w >= 6 && c + 1 == Pow10(w);
      NewWidthSortsFirst(ms1, w);
      var a, b := MakeId(ms1, c), MakeId(ms1, c + 1);
      if Less(a, b) {
        LessTransitive(a, b, a);
        LessIrreflexive(a);
      }
    } else {
      SameWidthLess(c);
      SameClockLess(ms1, c, c + 1);
    }
  }

  /** No counter after `k` up to `c` gained a digit. */
  ghost predicate SameWidth(k: nat, c: nat) {
    forall j: nat :: k < j <= c ==> !GainsDigit(j)
  }

  /** Within one millisecond ids sort in creation order while no counter gains a digit. */
  lemma {:induction false} SameWidthOrder(ms: nat, k: nat, c: nat)
    requires Clock(ms) && k < c && SameWidth(k, c)
    ensures Less(MakeId(ms, k), MakeId(ms, c))
    decreases c
  {
    hide GainsDigit, Less, MakeId;
    NextIdSortsAfter(ms, ms, c - 1);
    if k < c - 1 {
      SameWidthOrder(ms, k, c - 1);
      LessTransitive(MakeId(ms, k), MakeId(ms, c - 1), MakeId(ms, c));
    }
  }

  /** Up to 999999 no counter gains a digit. */
  lemma SixDigits(c: nat)
    requires c <= 999_999
    ensures !GainsDigit(c)
  {
    if GainsDigit(c) {
      var w: nat :| w >= 6 && c == Pow10(w);
      assert Pow10(6) == 1_000_000;
      Pow10Monotone(6, w);
    }
  }

  lemma SameWidthLess(c: nat)
    requires !GainsDigit(c + 1)
    ensures Less(Padded(c, 6), Padded(c + 1, 6))
  {
    hide Digits, Less;
    var v := |Padded(c, 6)|;
    WidthBounds(c);
    Pow10Monotone(Width(c), v);
    assert c + 1 != Pow10(v);
    WidthOf(c + 1, v);
    if v > 6 {
      WidthAbove(c + 1, v - 1);
    }
    DigitsLess(c, c + 1, v);
  }

  lemma FirstCharDecides(a: string, b: string)
    requires a != [] && b != [] && a[0] < b[0]
    ensures Less(a, b)
  {
  }

  lemma PaddedPower(w: nat)
    requires w >= 6
    ensures |Padded(Pow10(w), 6)| > 0 && Padded(Pow10(w), 6)[0] == '1'
  {
    hide Digits, Width;
    var c := Pow10(w);
    assert Pow10(w + 1) == 10 * c;
    WidthAbove(c, w);
    WidthOf(c, w + 1);
    LeadingDigit(c, w + 1, 1);
  }

  lemma PaddedBelowPower(w: nat)
    requires w >= 6
    ensures |Padded(Pow10(w) - 1, 6)| > 0 && Padded(Pow10(w) - 1, 6)[0] == '9'
  {
    hide Digits, Width;
    var c := Pow10(w) - 1;
    assert Pow10(w) == 10 * Pow10(w - 1);
    WidthAbove(c, w - 1);
    WidthOf(c, w);
    LeadingDigit(c, w, 9);
  }

  /** The class-level counter. */
  class IdGenerator {
    var counter: nat

    constructor ()
      ensures counter == 0
    {
      counter := 0;
    }

    method GenerateId(ms: nat) returns (id: string)
      modifies this
      ensures counter == old(counter) + 1
      ensures id == MakeId(ms, counter)
    {
      counter := counter + 1;
      id := "M" + Padded(ms, 1) + Padded(counter, 6);
    }
  }
}
