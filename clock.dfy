/** The session screen's `format(sec)`: a second count shown as minutes and seconds, `MM:SS`. */
module Clock {
  import opened Text

  /**
   * `"%02d".format(n)`: the decimal digits of `n`, with a zero in front when there is
   * only one; a wider number keeps all its digits.
   */
  function Pad2(n: nat): (r: string)
    ensures |r| >= 2 && AllDigits(r) && Value(r) == n
    ensures |r| == 2 <==> n < 100
    ensures r[0] == '0' <==> n < 10
    ensures n >= 10 ==> r == Decimal(n)
  {
    if n < 10 then
      ValueLeadingZeros("0", Decimal(n));
      "0" + Decimal(n)
    else
      Decimal(n)
  }

  /**
   * `format(sec)`: whole minutes, a colon, then the seconds left over, each field
   * padded to two digits. Reading the two fields back gives minutes `m` and seconds
   * `s < 60` with `m * 60 + s == sec`; the minutes field grows past two digits from
   * 100 minutes on.
   */
  function Format(sec: nat): (r: string)
    ensures |r| >= 5 && r[|r| - 3] == ':'
    ensures AllDigits(r[..|r| - 3]) && AllDigits(r[|r| - 2..])
    ensures Value(r[|r| - 2..]) < 60
    ensures ReadClock(r) == sec
    ensures sec < 6000 <==> |r| == 5
    ensures r[0] == '0' <==> sec < 600
  {
    var mm, ss := Pad2(sec / 60), Pad2(sec % 60);
    ClockSplit(sec);
    Fields(mm, ss, sec / 60, sec % 60);
    mm + ":" + ss
  }

  /** Whole minutes and the seconds left over. */
  lemma ClockSplit(sec: nat)
    ensures sec / 60 * 60 + sec % 60 == sec && sec % 60 < 60
    ensures sec < 600 <==> sec / 60 < 10
    ensures sec < 6000 <==> sec / 60 < 100
  {
  }

  /** Joining a padded minutes field `mm` and a two-digit seconds field `ss` with a colon, and reading them back. */
  lemma Fields(mm: string, ss: string, m: nat, s: nat)
    requires |mm| >= 2 && AllDigits(mm) && Value(mm) == m
    requires (|mm| == 2 <==> m < 100) && (mm[0] == '0' <==> m < 10)
    requires |ss| == 2 && AllDigits(ss) && Value(ss) == s && s < 60
    ensures var r := mm + ":" + ss;
      && |r| >= 5 && r[|r| - 3] == ':'
      && AllDigits(r[..|r| - 3]) && AllDigits(r[|r| - 2..])
      && Value(r[|r| - 2..]) < 60
      && ReadClock(r) == m * 60 + s
      && (m < 100 <==> |r| == 5)
      && (r[0] == '0' <==> m < 10)
  {
    var r := mm + ":" + ss;
    assert r[..|r| - 3] == mm;
    assert r[|r| - 2..] == ss;
    assert r[0] == mm[0];
  }

  /** Reads a displayed `MM:SS` text back as a number of seconds. */
  function ReadClock(r: string): nat
    requires |r| >= 5 && AllDigits(r[..|r| - 3]) && AllDigits(r[|r| - 2..])
  {
    Value(r[..|r| - 3]) * 60 + Value(r[|r| - 2..])
  }

  /** The display for zero, three and five seconds, for one minute five and for ten minutes. */
  lemma FormatExamples()
    ensures Format(0) == "00:00" && Format(3) == "00:03" && Format(5) == "00:05"
    ensures Format(65) == "01:05"
    ensures Format(600) == "10:00"
  {
    assert Decimal(0) == "0" && Decimal(1) == "1" && Decimal(3) == "3" && Decimal(5) == "5";
    assert Decimal(10) == "10";
  }
}
