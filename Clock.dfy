/**
 * The minutes-and-seconds split that both time formatters of the player
 * perform, and a reader for the "minutes:seconds" text they produce.
 */
module Clock {
  import opened Options
  import opened Doubles
  import opened Numerals

  /** `Int(time) / 60`: the whole minutes in `n` seconds, counted toward zero */
  function Minutes(n: int): (m: int)
    ensures n >= 0 ==> m * 60 <= n < m * 60 + 60
    ensures n <= 0 ==> m * 60 - 60 < n <= m * 60
  {
    QuotRem(n, 60);
    Quot(n, 60)
  }

  /** `Int(time) % 60`: what is left of `n` seconds after whole minutes, with the
      sign of `n` */
  function Seconds(n: int): (s: int)
    ensures -60 < s < 60 && (n - s) % 60 == 0
    ensures n >= 0 ==> 0 <= s
    ensures n <= 0 ==> s <= 0
  {
    QuotRem(n, 60);
    Rem(n, 60)
  }

  /** `m` minutes and `s` seconds make up `n` seconds: the seconds are below 60
      in size, and neither field has the opposite sign to `n`. */
  predicate IsClockSplit(n: int, m: int, s: int) {
    && m * 60 + s == n
    && -60 < s < 60
    && (n >= 0 ==> 0 <= m && 0 <= s)
    && (n <= 0 ==> m <= 0 && s <= 0)
  }

  /** `Int(time) / 60` and `Int(time) % 60` are such a split. */
  lemma ClockFields(n: int)
    ensures IsClockSplit(n, Minutes(n), Seconds(n))
  {
    QuotRem(n, 60);
  }

  /** There is only one such split, so it names minutes and seconds exactly. */
  lemma ClockSplitUnique(n: int, m: int, s: int, m': int, s': int)
    requires IsClockSplit(n, m, s) && IsClockSplit(n, m', s')
    ensures m == m' && s == s'
  {
  }

  /** Splits `s` at the first `sep`. */
  function SplitAt(s: string, sep: char): (r: Option<(string, string)>)
    ensures r.Some? ==> sep !in r.value.0 && s == r.value.0 + [sep] + r.value.1
    ensures r.None? ==> sep !in s
  {
    if s == [] then None
    else if s[0] == sep then Some(([], s[1..]))
    else match SplitAt(s[1..], sep)
      case None => None
      case Some((a, b)) => Some(([s[0]] + a, b))
  }

  lemma {:induction false} SplitAtJoin(a: string, sep: char, b: string)
    requires sep !in a
    ensures SplitAt(a + [sep] + b, sep) == Some((a, b))
  {
    if a != [] {
      var s := a + [sep] + b;
      assert s[0] == a[0] && a[0] != sep;
      assert s[1..] == a[1..] + [sep] + b;
      SplitAtJoin(a[1..], sep, b);
      assert [a[0]] + a[1..] == a;
    } else {
      assert a + [sep] + b == [sep] + b;
    }
  }

  /** Reads "minutes:seconds" text back into its two fields; `None` when the
      text is not two integers around a colon. */
  function ReadClock(s: string): Option<(int, int)>
  {
    match SplitAt(s, ':')
    case None => None
    case Some((m, sec)) =>
      match (ParseInt(m), ParseInt(sec))
      case (Some(a), Some(b)) => Some((a, b))
      case _ => None
  }

  predicate NoColon(s: string) {
    ':' !in s
  }

  lemma NumeralHasNoColon(s: string)
    requires AllNumeral(s)
    ensures NoColon(s)
  {
  }

  /** Two rendered integers joined by a colon read back as those integers. */
  lemma ReadClockJoined(a: int, wa: nat, b: int, wb: nat)
    ensures ReadClock(Format(a, wa) + ":" + Format(b, wb)) == Some((a, b))
  {
    FormatRoundTrip(a, wa);
    FormatRoundTrip(b, wb);
    NumeralHasNoColon(Format(a, wa));
    SplitAtJoin(Format(a, wa), ':', Format(b, wb));
  }

  /** Text made only of numeral characters and a colon */
  predicate ClockChars(s: string) {
    forall i :: 0 <= i < |s| ==> s[i] == ':' || IsNumeralChar(s[i])
  }

  lemma JoinedClockChars(a: string, b: string)
    requires AllNumeral(a) && AllNumeral(b)
    ensures ClockChars(a + ":" + b)
  {
    var s := a + ":" + b;
    forall i | 0 <= i < |s|
      ensures s[i] == ':' || IsNumeralChar(s[i])
    {
      if i < |a| {
        assert s[i] == a[i];
      } else if i > |a| {
        assert s[i] == b[i - |a| - 1];
      }
    }
  }
}
