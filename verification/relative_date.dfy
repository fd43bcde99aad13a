/** `FormatRelativeDate`: how long ago something happened, as a short
    English phrase. The clock read and the date parsing are outside the
    model: the input is the whole number of minutes elapsed. */
module RelativeDate {
  import opened Seqs

  /** The character of a decimal digit. */
  function Digit(d: nat): (c: char)
    requires d < 10
    ensures '0' <= c <= '9'
  {
    (('0' as int) + d) as char
  }

  predicate IsDigits(s: string) {
    forall i :: 0 <= i < |s| ==> '0' <= s[i] <= '9'
  }

  /** A non-negative integer in decimal, as a template literal prints it. */
  function Decimal(n: nat): (s: string)
    ensures |s| >= 1 && IsDigits(s)
  {
    if n < 10 then [Digit(n)] else Decimal(n / 10) + [Digit(n % 10)]
  }

  /** The value of a string of decimal digits. */
  function ParseDecimal(s: string): nat
    requires IsDigits(s)
  {
    if |s| == 0 then 0 else 10 * ParseDecimal(DropLast(s)) + ((Last(s) as int) - ('0' as int))
  }

  /** Printing a count and reading it back gives the count. */
  lemma {:induction false} DecimalRoundTrip(n: nat)
    ensures ParseDecimal(Decimal(n)) == n
  {
    if n >= 10 {
      DecimalRoundTrip(n / 10);
      assert DropLast(Decimal(n)) == Decimal(n / 10);
    }
  }

  /** `Math.round(m / d)`: the nearest integer, halves rounded up. */
  function RoundDiv(m: int, d: int): (r: int)
    requires d > 0
    ensures 2 * d * r - d <= 2 * m < 2 * d * r + d
  {
    (2 * m + d) / (2 * d)
  }

  /** The bucket an elapsed time falls into, with the count it shows. */
  datatype Elapsed = Seconds | OneMinute | Minutes(n: nat) | Hours(n: nat) | Days(n: nat)

  /** The source's case split over the elapsed minutes `m`. The cases are
      exhaustive and exclusive; note that exactly 60 minutes reads as the
      singular minute, while 1 minute falls into the plural case. */
  function Classify(m: int): (e: Elapsed)
    ensures e.Seconds? <==> m < 1
    ensures e.OneMinute? <==> m == 60
    ensures e.Minutes? <==> 1 <= m < 60
    ensures e.Hours? <==> 60 < m < 1440
    ensures e.Days? <==> 1440 <= m
    ensures e.Minutes? ==> e.n == m
    ensures e.Hours? ==> 1 <= e.n <= 24 && 60 * e.n - 30 <= m < 60 * e.n + 30
    ensures e.Days? ==> 1 <= e.n && 1440 * e.n - 720 <= m < 1440 * e.n + 720
  {
    if m < 1 then Seconds
    else if m == 60 then OneMinute
    else if m < 60 then Minutes(m)
    else if m < 1440 then Hours(RoundDiv(m, 60))
    else Days(RoundDiv(m, 1440))
  }

  /** The phrase shown for a bucket. */
  function Phrase(e: Elapsed): (s: string) {
    match e
    case Seconds => "seconds ago"
    case OneMinute => "1 minute ago"
    case Minutes(n) => Decimal(n) + " minutes ago"
    case Hours(n) => Decimal(n) + " hours ago"
    case Days(n) => Decimal(n) + " days ago"
  }

  /** `FormatRelativeDate`, given the whole minutes elapsed: the phrase for
      each range of elapsed minutes, with hours and days rounded to nearest. */
  function FormatRelativeDate(m: int): (r: string)
    ensures m < 1 ==> r == "seconds ago"
    ensures m == 60 ==> r == "1 minute ago"
    ensures 1 <= m < 60 ==> r == Decimal(m) + " minutes ago"
    ensures 60 < m < 1440 ==>
              exists h :: 1 <= h <= 24 && 60 * h - 30 <= m < 60 * h + 30
                          && r == Decimal(h) + " hours ago"
    ensures 1440 <= m ==>
              exists d :: 1 <= d && 1440 * d - 720 <= m < 1440 * d + 720
                          && r == Decimal(d) + " days ago"
  {
    var e := Classify(m);
    if e.Hours? || e.Days? then
      assert Phrase(e) == Decimal(e.n) + (if e.Hours? then " hours ago" else " days ago");
      Phrase(e)
    else
      Phrase(e)
  }

  /** Only the singular bucket reads "1 minute ago". */
  lemma SingularPhraseOnlyForOneMinute(e: Elapsed)
    ensures Phrase(e) == "1 minute ago" <==> e.OneMinute?
  {
    var one := "1 minute ago";
    match e
    case Seconds =>
      assert Phrase(e)[0] != one[0];
    case OneMinute =>
    case Minutes(n) =>
      assert |Phrase(e)| > |one|;
    case Hours(n) =>
      var d := Decimal(n);
      if |Phrase(e)| == |one| {
        assert Phrase(e)[2] == " hours ago"[0] != one[2];
      }
    case Days(n) =>
      var d := Decimal(n);
      if |Phrase(e)| == |one| {
        assert Phrase(e)[3] == " days ago"[0] != one[3];
      }
  }

  /** As written, the singular phrase is shown for sixty minutes and for no
      other input, and one minute reads "1 minutes ago". */
  lemma SingularMinuteMisplaced(m: int)
    ensures FormatRelativeDate(m) == "1 minute ago" <==> m == 60
    ensures FormatRelativeDate(1) == "1 minutes ago"
  {
    SingularPhraseOnlyForOneMinute(Classify(m));
    assert Decimal(1) == "1";
  }

  /** The evidently intended split, testing for one minute rather than sixty. */
  function ClassifyIntended(m: int): (e: Elapsed)
    ensures e.Seconds? <==> m < 1
    ensures e.OneMinute? <==> m == 1
    ensures e.Minutes? <==> 1 < m < 60
    ensures e.Hours? <==> 60 <= m < 1440
    ensures e.Days? <==> 1440 <= m
    ensures e.Minutes? ==> 2 <= e.n == m
    ensures e.Hours? ==> 1 <= e.n <= 24 && 60 * e.n - 30 <= m < 60 * e.n + 30
    ensures e.Days? ==> 1 <= e.n && 1440 * e.n - 720 <= m < 1440 * e.n + 720
  {
    if m < 1 then Seconds
    else if m == 1 then OneMinute
    else if m < 60 then Minutes(m)
    else if m < 1440 then Hours(RoundDiv(m, 60))
    else Days(RoundDiv(m, 1440))
  }

  /** With the intended split the singular phrase means exactly one minute,
      and the intended and written splits differ only at 1 and 60 minutes. */
  lemma IntendedSingularMinute(m: int)
    ensures Phrase(ClassifyIntended(m)) == "1 minute ago" <==> m == 1
    ensures m != 1 && m != 60 ==> ClassifyIntended(m) == Classify(m)
    ensures ClassifyIntended(60) == Hours(1)
  {
    SingularPhraseOnlyForOneMinute(ClassifyIntended(m));
  }
}
