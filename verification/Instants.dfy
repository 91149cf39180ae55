/**
 Zulu instants at second resolution as text, read as numbers: the order of the
 text is the order of time.
 */
module Instants {
  import opened Prelude
  import opened Decimal
  import opened Sorting

  /** The layout of a stamp, with some character between the hour, the minute and the second. */
  predicate IsStamp(s: string, colon: char) {
    && |s| == 20
    && AllDigits(s[..4]) && s[4] == '-' && AllDigits(s[5..7]) && s[7] == '-' && AllDigits(s[8..10]) && s[10] == 'T'
    && AllDigits(s[11..13]) && s[13] == colon && AllDigits(s[14..16]) && s[16] == colon && AllDigits(s[17..19])
    && s[19] == 'Z'
  }

  /** `2026-06-28T10:00:00Z`. */
  predicate IsInstant(s: string) { IsStamp(s, ':') }

  datatype Moment = Moment(year: nat, month: nat, day: nat, hour: nat, minute: nat, second: nat)

  function MomentOf(s: string, colon: char): Moment
    requires IsStamp(s, colon)
  {
    Moment(Value(s[..4]), Value(s[5..7]), Value(s[8..10]), Value(s[11..13]), Value(s[14..16]), Value(s[17..19]))
  }

  predicate EarlierMoment(a: Moment, b: Moment) {
    if a.year != b.year then a.year < b.year
    else if a.month != b.month then a.month < b.month
    else if a.day != b.day then a.day < b.day
    else if a.hour != b.hour then a.hour < b.hour
    else if a.minute != b.minute then a.minute < b.minute
    else a.second < b.second
  }

  /** By the year first, then the month, and so on down to the second, each read as a number. */
  predicate Earlier(a: string, b: string) {
    IsInstant(a) && IsInstant(b) && EarlierMoment(MomentOf(a, ':'), MomentOf(b, ':'))
  }

  /** Numbers of one width order like their text. */
  lemma {:induction false} DigitsOrder(a: string, b: string)
    requires AllDigits(a) && AllDigits(b) && |a| == |b|
    ensures StringLe(a, b) <==> Value(a) <= Value(b)
    ensures a == b <==> Value(a) == Value(b)
    decreases |a|
  {
    if a != [] {
      var n := |a| - 1;
      DigitsOrder(a[..n], b[..n]);
      HeadDecides(a[..n], b[..n], [a[n]], [b[n]]);
      assert a == a[..n] + [a[n]] && b == b[..n] + [b[n]];
      assert [a[n]][1..] == [] && [b[n]][1..] == [];
    }
  }

  /** One number of a stamp and what follows it. */
  lemma FieldDecides(a: string, b: string, from: nat, to: nat)
    requires from <= to <= |a| == |b| && AllDigits(a[from..to]) && AllDigits(b[from..to])
    ensures StringLe(a[from..], b[from..]) <==>
      if Value(a[from..to]) == Value(b[from..to]) then StringLe(a[to..], b[to..])
      else Value(a[from..to]) < Value(b[from..to])
  {
    DigitsOrder(a[from..to], b[from..to]);
    HeadDecides(a[from..to], b[from..to], a[to..], b[to..]);
    assert a[from..] == a[from..to] + a[to..] && b[from..] == b[from..to] + b[to..];
  }

  lemma MarkIsSkipped(a: string, b: string, at: nat)
    requires at < |a| == |b| && a[at] == b[at]
    ensures StringLe(a[at..], b[at..]) <==> StringLe(a[at + 1..], b[at + 1..])
  {
    assert a[at..][1..] == a[at + 1..] && b[at..][1..] == b[at + 1..];
  }

  /** The order of stamps is the order of time. */
  lemma StampsOrderLikeTime(a: string, b: string, colon: char)
    requires IsStamp(a, colon) && IsStamp(b, colon)
    ensures StringLe(a, b) <==> !EarlierMoment(MomentOf(b, colon), MomentOf(a, colon))
  {
    assert a[0..] == a && b[0..] == b && a[0..4] == a[..4] && b[0..4] == b[..4];
    FieldDecides(a, b, 0, 4);
    MarkIsSkipped(a, b, 4);
    FieldDecides(a, b, 5, 7);
    MarkIsSkipped(a, b, 7);
    FieldDecides(a, b, 8, 10);
    MarkIsSkipped(a, b, 10);
    TimesOrderLikeTime(a, b, colon);
  }

  lemma TimesOrderLikeTime(a: string, b: string, colon: char)
    requires IsStamp(a, colon) && IsStamp(b, colon)
    ensures StringLe(a[11..], b[11..]) <==>
      var x, y := MomentOf(a, colon), MomentOf(b, colon);
      if x.hour != y.hour then x.hour < y.hour
      else if x.minute != y.minute then x.minute < y.minute
      else x.second <= y.second
  {
    FieldDecides(a, b, 11, 13);
    MarkIsSkipped(a, b, 13);
    FieldDecides(a, b, 14, 16);
    MarkIsSkipped(a, b, 16);
    FieldDecides(a, b, 17, 19);
    MarkIsSkipped(a, b, 19);
    assert a[20..] == [] && b[20..] == [];
  }

  /** Two stamps of one moment are one stamp. */
  lemma OneStampAMoment(a: string, b: string, colon: char)
    requires IsStamp(a, colon) && IsStamp(b, colon) && MomentOf(a, colon) == MomentOf(b, colon)
    ensures a == b
  {
    StampsOrderLikeTime(a, b, colon);
    StampsOrderLikeTime(b, a, colon);
    StringAntisymmetric(a, b);
  }

  /** Of two instants one is earlier or they are the same, and the text says which. */
  lemma InstantsOrderLikeTime(a: string, b: string)
    requires IsInstant(a) && IsInstant(b)
    ensures StringLe(a, b) && a != b <==> Earlier(a, b)
    ensures a == b || Earlier(a, b) || Earlier(b, a)
  {
    StampsOrderLikeTime(a, b, ':');
    StampsOrderLikeTime(b, a, ':');
    StringTotal(a, b);
    if MomentOf(a, ':') == MomentOf(b, ':') {
      OneStampAMoment(a, b, ':');
    } else if StringLe(a, b) && StringLe(b, a) {
      StringAntisymmetric(a, b);
    }
  }

  // ----- instants in file names -----

  /** `replace(':', "-")`. */
  function Dashed(s: string): string {
    seq(|s|, i requires 0 <= i < |s| => if s[i] == ':' then '-' else s[i])
  }

  /** A dashed instant reads the same. */
  lemma DashedReadsTheSame(s: string)
    requires IsInstant(s)
    ensures IsStamp(Dashed(s), '-') && MomentOf(Dashed(s), '-') == MomentOf(s, ':')
  {
    DashedDigits(s, 0, 4);
    DashedDigits(s, 5, 7);
    DashedDigits(s, 8, 10);
    DashedDigits(s, 11, 13);
    DashedDigits(s, 14, 16);
    DashedDigits(s, 17, 19);
    assert s[0..4] == s[..4] && Dashed(s)[0..4] == Dashed(s)[..4];
  }

  lemma DashedDigits(s: string, from: nat, to: nat)
    requires from <= to <= |s| && AllDigits(s[from..to])
    ensures |Dashed(s)| == |s| && Dashed(s)[from..to] == s[from..to]
  {
    forall i | from <= i < to ensures Dashed(s)[i] == s[i] {
      assert s[from..to][i - from] == s[i];
    }
  }

  /** Dashed instants order like time. */
  lemma DashedOrderLikeTime(a: string, b: string)
    requires IsInstant(a) && IsInstant(b)
    ensures |Dashed(a)| == |Dashed(b)|
    ensures StringLe(Dashed(a), Dashed(b)) && Dashed(a) != Dashed(b) <==> Earlier(a, b)
    ensures Dashed(a) == Dashed(b) <==> a == b
  {
    DashedReadsTheSame(a);
    DashedReadsTheSame(b);
    StampsOrderLikeTime(Dashed(a), Dashed(b), '-');
    StampsOrderLikeTime(Dashed(b), Dashed(a), '-');
    StringTotal(Dashed(a), Dashed(b));
    InstantsOrderLikeTime(a, b);
    if MomentOf(a, ':') == MomentOf(b, ':') {
      OneStampAMoment(a, b, ':');
    }
  }
}
