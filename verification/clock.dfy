/**
  Wall-clock readings and the `'%Y%m%d%H%M%S'` stamp the pipeline puts into
  every artifact name. A stamp keeps the reading only to the second, so two
  readings inside the same second give the same stamp, and readings in
  different seconds never do.
 */
module Clock {
  import opened Text

  /** A `datetime` reading (calendar fields plus microseconds). */
  datatype DateTime = DateTime(year: nat, month: nat, day: nat,
                               hour: nat, minute: nat, second: nat, micro: nat)
  {
    /** Field ranges of a `datetime`; years are taken to be four-digit. */
    predicate Valid() {
      && 1000 <= year <= 9999 && 1 <= month <= 12 && 1 <= day <= 31
      && hour < 24 && minute < 60 && second < 60 && micro < 1000000
    }

    /** The reading cut down to whole seconds: all that a stamp keeps. */
    function ToSecond(): DateTime {
      this.(micro := 0)
    }

    /** A number that orders readings chronologically (mixed radix over the fields). */
    function Instant(): int {
      (((((year * 13 + month) * 32 + day) * 24 + hour) * 60 + minute) * 60 + second) * 1000000 + micro
    }
  }

  /** `t.strftime('%Y%m%d%H%M%S')`. */
  function Stamp(t: DateTime): (r: string)
    ensures |r| == 14
    ensures forall i :: 0 <= i < |r| ==> IsDigit(r[i])
  {
    Digits(t.year, 4) + Digits(t.month, 2) + Digits(t.day, 2)
    + Digits(t.hour, 2) + Digits(t.minute, 2) + Digits(t.second, 2)
  }

  /** Reads a 14-digit stamp back into a reading with no microseconds. */
  function ParseStamp(s: string): DateTime
    requires |s| == 14 && forall i :: 0 <= i < |s| ==> IsDigit(s[i])
  {
    DateTime(Value(s[0..4]), Value(s[4..6]), Value(s[6..8]),
             Value(s[8..10]), Value(s[10..12]), Value(s[12..14]), 0)
  }

  /** The stamp of a valid reading reads back as that reading cut to the second. */
  lemma ParseStampOfStamp(t: DateTime)
    requires t.Valid()
    ensures ParseStamp(Stamp(t)) == t.ToSecond()
  {
    var s := Stamp(t);
    assert s[0..4] == Digits(t.year, 4);
    assert s[4..6] == Digits(t.month, 2);
    assert s[6..8] == Digits(t.day, 2);
    assert s[8..10] == Digits(t.hour, 2);
    assert s[10..12] == Digits(t.minute, 2);
    assert s[12..14] == Digits(t.second, 2);
    assert Pow10(2) == 100 && Pow10(4) == 10000;
    ValueDigits(t.year, 4);
    ValueDigits(t.month, 2);
    ValueDigits(t.day, 2);
    ValueDigits(t.hour, 2);
    ValueDigits(t.minute, 2);
    ValueDigits(t.second, 2);
  }

  /** Two valid readings share a stamp exactly when they fall in the same second. */
  lemma StampCollision(a: DateTime, b: DateTime)
    requires a.Valid() && b.Valid()
    ensures Stamp(a) == Stamp(b) <==> a.ToSecond() == b.ToSecond()
  {
    if Stamp(a) == Stamp(b) {
      ParseStampOfStamp(a);
      ParseStampOfStamp(b);
    }
  }
}
