/** The remaining-time label of a task (`getDiff` in the page's `Tasks`
    component): a signed count of minutes until the deadline, split into days,
    hours and minutes, and printed with the zero day and hour parts left out. */
module Remaining {
  import opened Wrappers
  import Arith
  import Decimal

  const MinutesPerHour := 60
  const MinutesPerDay := 1440

  const Lead := "　　残り"
  const DayMark := "日と"
  const HourMark := "時間"
  const MinuteMark := "分"

  datatype Breakdown = Breakdown(day: int, hour: int, minute: int)

  /** The minute count a breakdown stands for. */
  function Total(b: Breakdown): int {
    b.day * MinutesPerDay + b.hour * MinutesPerHour + b.minute
  }

  /** The breakdown `getDiff` arrives at: whole days and hours of a count that is not
      negative; a negative count is left whole in the minutes, since neither guard fires. */
  function RemainingSpec(a: int): Breakdown {
    if a < 0 then Breakdown(0, 0, a)
    else Breakdown(a / MinutesPerDay, a % MinutesPerDay / MinutesPerHour, a % MinutesPerHour)
  }

  /** The label: the lead text, the day part only when `day > 0`, the hour part only
      when `hour > 0`, and the minute part always. */
  function LabelText(b: Breakdown): string {
    Lead + DayPart(b.day, HourMinuteParts(b.hour, b.minute))
  }

  /** The day part if `d > 0`, then `hm`. */
  function DayPart(d: int, hm: string): string {
    (if d > 0 then Decimal.IntToString(d) + DayMark else "") + hm
  }

  /** The hour part if `h > 0`, then the minute part. */
  function HourMinuteParts(h: int, m: int): string {
    (if h > 0 then Decimal.IntToString(h) + HourMark else "") + (Decimal.IntToString(m) + MinuteMark)
  }

  /** `getDiff(a)`: two guarded division steps on a working copy of the minute count. */
  method GetDiff(a: int) returns (text: string)
    ensures text == LabelText(RemainingSpec(a))
  {
    var b := a;
    var day, hour, minute := 0, 0, 0;
    if b >= MinutesPerDay {
      day := b / MinutesPerDay;
      b := b % MinutesPerDay;
    }
    if b >= MinutesPerHour {
      hour := b / MinutesPerHour;
      b := b % MinutesPerHour;
    }
    minute := b;
    if a >= 0 {
      DayRemainderMinutes(a);
    }
    text := LabelText(Breakdown(day, hour, minute));
  }

  /** The remainder of a day splits into fewer than 24 hours and the count's own minutes. */
  lemma DayRemainderMinutes(a: int)
    requires a >= 0
    ensures a % MinutesPerDay % MinutesPerHour == a % MinutesPerHour
    ensures a % MinutesPerDay / MinutesPerHour < 24
  {
    var q, r := a / MinutesPerDay, a % MinutesPerDay;
    var h, m := r / MinutesPerHour, r % MinutesPerHour;
    assert a == MinutesPerHour * (24 * q + h) + m;
    Arith.DivModUnique(a, MinutesPerHour, 24 * q + h, m);
  }

  /** The decomposition is exact for every minute count, negative ones included. */
  lemma RemainingExact(a: int)
    ensures Total(RemainingSpec(a)) == a
  {
    if a >= 0 {
      DayRemainderMinutes(a);
      var r := a % MinutesPerDay;
      assert r == r / MinutesPerHour * MinutesPerHour + r % MinutesPerHour;
    }
  }

  /** For a count that is not negative: whole days, under 24 hours, under 60 minutes. */
  lemma RemainingBounds(a: int)
    requires a >= 0
    ensures RemainingSpec(a).day == a / MinutesPerDay >= 0
    ensures 0 <= RemainingSpec(a).hour < 24
    ensures 0 <= RemainingSpec(a).minute < 60
  {
    DayRemainderMinutes(a);
  }

  /** A negative count passes both guards untouched: no days, no hours, all minutes. */
  lemma RemainingNegative(a: int)
    requires a < 0
    ensures RemainingSpec(a) == Breakdown(0, 0, a)
    ensures LabelText(RemainingSpec(a)) == Lead + Decimal.IntToString(a) + MinuteMark
  {
  }

  /** For a count that is not negative, the breakdown is the only one that is exact
      and within the bounds, so `RemainingSpec` is the usual days/hours/minutes split. */
  lemma RemainingUnique(a: int, b: Breakdown)
    requires a >= 0 && Total(b) == a
    requires b.day >= 0 && 0 <= b.hour < 24 && 0 <= b.minute < 60
    ensures b == RemainingSpec(a)
  {
    var r := b.hour * MinutesPerHour + b.minute;
    Arith.DivModUnique(a, MinutesPerDay, b.day, r);
    Arith.DivModUnique(r, MinutesPerHour, b.hour, b.minute);
    DayRemainderMinutes(a);
  }

  /** The label of the breakdown `getDiff` gives, for two counts the page shows in its
      examples: an hour and a half, and a day and an hour. */
  lemma LabelExamples()
    ensures LabelText(RemainingSpec(90)) == Lead + "1時間30分"
    ensures LabelText(RemainingSpec(1500)) == Lead + "1日と1時間0分"
  {
    assert RemainingSpec(90) == Breakdown(0, 1, 30);
    assert RemainingSpec(1500) == Breakdown(1, 1, 0);
  }

  /** Each marker appears exactly when its part does: the day part is in the label if and
      only if `day > 0`, the hour part if and only if `hour > 0`; the minute part always is. */
  lemma LabelMarks(b: Breakdown)
    ensures ('日' in LabelText(b)) <==> b.day > 0
    ensures ('時' in LabelText(b)) <==> b.hour > 0
    ensures '分' in LabelText(b)
  {
    var d := Decimal.IntToString(b.day);
    var h := Decimal.IntToString(b.hour);
    var m := Decimal.IntToString(b.minute);
    assert '日' !in d && '日' !in h && '日' !in m;
    assert '時' !in d && '時' !in h && '時' !in m;
    assert '日' !in Lead && '時' !in Lead;
    assert MinuteMark[0] == '分';
  }

  predicate StartsWith(s: string, p: string) {
    |p| <= |s| && s[..|p|] == p
  }

  /** Reads a label back into the breakdown it was printed from. */
  function ParseLabel(s: string): Option<Breakdown> {
    if StartsWith(s, Lead) then ParseParts(s[|Lead|..], 0, Breakdown(0, 0, 0)) else None
  }

  /** Reads the parts after the lead text into `acc`. At `stage` 0 a day, hour or minute
      part may come next, at 1 an hour or minute part, at 2 only the minute part, which
      must end the text. */
  function ParseParts(s: string, stage: nat, acc: Breakdown): Option<Breakdown>
    decreases |s|
  {
    match Decimal.ReadInt(s)
    case None => None
    case Some((n, rest)) =>
      if stage < 1 && n > 0 && StartsWith(rest, DayMark) then
        ParseParts(rest[|DayMark|..], 1, acc.(day := n))
      else if stage < 2 && n > 0 && StartsWith(rest, HourMark) then
        ParseParts(rest[|HourMark|..], 2, acc.(hour := n))
      else if rest == MinuteMark then Some(acc.(minute := n))
      else None
  }

  lemma ParseMinutePart(m: int, stage: nat, acc: Breakdown)
    ensures ParseParts(Decimal.IntToString(m) + MinuteMark, stage, acc) == Some(acc.(minute := m))
  {
    Decimal.ReadIntToString(m, MinuteMark);
  }

  lemma ParseHourPart(h: int, m: int, stage: nat, acc: Breakdown)
    requires h > 0 && stage < 2
    ensures ParseParts(Decimal.IntToString(h) + HourMark + (Decimal.IntToString(m) + MinuteMark), stage, acc)
         == Some(acc.(hour := h, minute := m))
  {
    var tail := Decimal.IntToString(m) + MinuteMark;
    var rest := HourMark + tail;
    assert Decimal.IntToString(h) + HourMark + tail == Decimal.IntToString(h) + rest;
    Decimal.ReadIntToString(h, rest);
    assert rest[..|HourMark|] == HourMark && rest[|HourMark|..] == tail;
    assert rest[0] != DayMark[0];
    ParseMinutePart(m, 2, acc.(hour := h));
  }

  lemma ParseHourMinuteParts(h: int, m: int, stage: nat, acc: Breakdown)
    requires h >= 0 && stage < 2
    ensures ParseParts(HourMinuteParts(h, m), stage, acc)
         == Some(acc.(hour := if h > 0 then h else acc.hour, minute := m))
  {
    if h > 0 {
      ParseHourPart(h, m, stage, acc);
    } else {
      assert HourMinuteParts(h, m) == Decimal.IntToString(m) + MinuteMark;
      ParseMinutePart(m, stage, acc);
    }
  }

  lemma ParseDayPart(d: int, hm: string, acc: Breakdown)
    requires d > 0
    ensures ParseParts(DayPart(d, hm), 0, acc) == ParseParts(hm, 1, acc.(day := d))
  {
    var rest := DayMark + hm;
    assert DayPart(d, hm) == Decimal.IntToString(d) + rest;
    Decimal.ReadIntToString(d, rest);
    assert rest[..|DayMark|] == DayMark && rest[|DayMark|..] == hm;
  }

  lemma ParseAfterLead(x: string)
    ensures ParseLabel(Lead + x) == ParseParts(x, 0, Breakdown(0, 0, 0))
  {
    assert (Lead + x)[..|Lead|] == Lead && (Lead + x)[|Lead|..] == x;
  }

  /** Every breakdown with no negative day or hour count (every one `getDiff` arrives at)
      is read back from its label unchanged. */
  lemma ParseLabelText(b: Breakdown)
    requires b.day >= 0 && b.hour >= 0
    ensures ParseLabel(LabelText(b)) == Some(b)
  {
    var hm := HourMinuteParts(b.hour, b.minute);
    var zero := Breakdown(0, 0, 0);
    assert LabelText(b) == Lead + DayPart(b.day, hm);
    ParseAfterLead(DayPart(b.day, hm));
    assert ParseLabel(LabelText(b)) == ParseParts(DayPart(b.day, hm), 0, zero);
    if b.day > 0 {
      ParseDayPart(b.day, hm, zero);
      ParseHourMinuteParts(b.hour, b.minute, 1, zero.(day := b.day));
    } else {
      assert DayPart(b.day, hm) == hm;
      ParseHourMinuteParts(b.hour, b.minute, 0, zero);
    }
  }

  /** The label never shows two different minute counts alike: it determines the count. */
  lemma LabelDeterminesCount(a1: int, a2: int)
    requires LabelText(RemainingSpec(a1)) == LabelText(RemainingSpec(a2))
    ensures a1 == a2
  {
    if a1 >= 0 { RemainingBounds(a1); }
    if a2 >= 0 { RemainingBounds(a2); }
    ParseLabelText(RemainingSpec(a1));
    ParseLabelText(RemainingSpec(a2));
    RemainingExact(a1);
    RemainingExact(a2);
  }
}
