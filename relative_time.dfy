/** The relative-age label `BookmarkList.formatDate` shows under each bookmark,
    given the difference `now - created_at` in milliseconds. */
module RelativeTime {
  import opened BookmarkTypes
  import opened JsStrings

  const MsPerMinute: int := 60000
  const MsPerHour: int := 3600000
  const MsPerDay: int := 86400000

  /** Which branch of `formatDate` a difference falls into. */
  datatype Age = JustNow | MinutesAgo(minutes: nat) | HoursAgo(hours: nat) | DaysAgo(days: nat) | OlderThanAWeek

  /** The cascade of `formatDate`. Minutes, hours and days are each
      `Math.floor(diffMs / unit)`; Dafny's `/` with a positive divisor floors,
      for negative differences too. */
  function Classify(diffMs: int): (a: Age)
    ensures a == JustNow <==> diffMs < MsPerMinute
    ensures a.MinutesAgo? <==> MsPerMinute <= diffMs < MsPerHour
    ensures a.HoursAgo? <==> MsPerHour <= diffMs < MsPerDay
    ensures a.DaysAgo? <==> MsPerDay <= diffMs < 7 * MsPerDay
    ensures a == OlderThanAWeek <==> 7 * MsPerDay <= diffMs
    ensures a.MinutesAgo? ==> 1 <= a.minutes < 60 && a.minutes * MsPerMinute <= diffMs < (a.minutes + 1) * MsPerMinute
    ensures a.HoursAgo? ==> 1 <= a.hours < 24 && a.hours * MsPerHour <= diffMs < (a.hours + 1) * MsPerHour
    ensures a.DaysAgo? ==> 1 <= a.days < 7 && a.days * MsPerDay <= diffMs < (a.days + 1) * MsPerDay
    ensures a.MinutesAgo? ==> a.minutes == diffMs / MsPerMinute
    ensures a.HoursAgo? ==> a.hours == diffMs / MsPerHour
    ensures a.DaysAgo? ==> a.days == diffMs / MsPerDay
  {
    var diffMins := diffMs / MsPerMinute;
    var diffHours := diffMs / MsPerHour;
    var diffDays := diffMs / MsPerDay;
    if diffMins < 1 then JustNow
    else if diffMins < 60 then MinutesAgo(diffMins)
    else if diffHours < 24 then HoursAgo(diffHours)
    else if diffDays < 7 then DaysAgo(diffDays)
    else OlderThanAWeek
  }

  /** The text for each branch; `None` for the `toLocaleDateString` branch,
      which this model does not render. */
  function Label(a: Age): (r: Option<string>)
    ensures r.None? <==> a == OlderThanAWeek
    ensures a.MinutesAgo? || a.HoursAgo? || a.DaysAgo? ==>
      r.Some? && |r.value| >= 6 && r.value[|r.value| - 4..] == " ago" && IsDigit(r.value[0])
  {
    match a
    case JustNow => Some("Just now")
    case MinutesAgo(m) =>
      var s := NatToDecimal(m) + "m ago";
      assert s[|s| - 4..] == " ago";
      Some(s)
    case HoursAgo(h) =>
      var s := NatToDecimal(h) + "h ago";
      assert s[|s| - 4..] == " ago";
      Some(s)
    case DaysAgo(d) =>
      var s := NatToDecimal(d) + "d ago";
      assert s[|s| - 4..] == " ago";
      Some(s)
    case OlderThanAWeek => None
  }

  /** `formatDate`, with the clock reading taken as the difference `diffMs`:
      the count printed in each label is the floor of the difference in that
      label's unit. */
  function FormatDate(diffMs: int): (r: Option<string>)
    ensures r == Some("Just now") <==> diffMs < MsPerMinute
    ensures MsPerMinute <= diffMs < MsPerHour ==> r == Some(NatToDecimal(diffMs / MsPerMinute) + "m ago")
    ensures MsPerHour <= diffMs < MsPerDay ==> r == Some(NatToDecimal(diffMs / MsPerHour) + "h ago")
    ensures MsPerDay <= diffMs < 7 * MsPerDay ==> r == Some(NatToDecimal(diffMs / MsPerDay) + "d ago")
    ensures r.None? <==> 7 * MsPerDay <= diffMs
  {
    var a := Classify(diffMs);
    assert a != JustNow ==> Label(a) != Some("Just now") by {
      if a != JustNow && a != OlderThanAWeek {
        var s := Label(a).value;
        assert s[|s| - 1] == 'o' && "Just now"[7] == 'w';
      }
    }
    Label(a)
  }

  predicate AllDigits(s: string) {
    forall i :: 0 <= i < |s| ==> IsDigit(s[i])
  }

  /** The bucket named by a unit letter and a count. */
  function AgeOf(unit: char, n: nat): Option<Age> {
    if unit == 'm' then Some(MinutesAgo(n))
    else if unit == 'h' then Some(HoursAgo(n))
    else if unit == 'd' then Some(DaysAgo(n))
    else None
  }

  /** Reads a label back: "Just now", or a run of digits followed by
      "m ago", "h ago" or "d ago". */
  function ParseLabel(s: string): Option<Age> {
    if s == "Just now" then Some(JustNow)
    else if |s| < 6 || s[|s| - 4..] != " ago" || !AllDigits(s[..|s| - 5]) then None
    else AgeOf(s[|s| - 5], ParseDecimal(s[..|s| - 5]))
  }

  lemma UnitLabelParses(n: nat, unit: char)
    requires unit == 'm' || unit == 'h' || unit == 'd'
    ensures ParseLabel(NatToDecimal(n) + [unit] + " ago") == AgeOf(unit, n)
  {
    var d := NatToDecimal(n);
    var s := d + [unit] + " ago";
    assert s[|s| - 1] == 'o' && "Just now"[7] == 'w';
    assert s[|s| - 4..] == " ago";
    assert s[..|s| - 5] == d;
    assert s[|s| - 5] == unit;
    DecimalRoundTrip(n);
  }

  /** Every label `formatDate` renders names its branch and its count
      unambiguously: reading it back gives the bucket it came from. */
  lemma LabelRoundTrip(a: Age)
    requires a != OlderThanAWeek
    ensures Label(a).Some? && ParseLabel(Label(a).value) == Some(a)
  {
    match a
    case JustNow =>
    case MinutesAgo(m) =>
      assert NatToDecimal(m) + "m ago" == NatToDecimal(m) + ['m'] + " ago";
      UnitLabelParses(m, 'm');
    case HoursAgo(h) =>
      assert NatToDecimal(h) + "h ago" == NatToDecimal(h) + ['h'] + " ago";
      UnitLabelParses(h, 'h');
    case DaysAgo(d) =>
      assert NatToDecimal(d) + "d ago" == NatToDecimal(d) + ['d'] + " ago";
      UnitLabelParses(d, 'd');
  }

  /** `formatDate`: anything less than a minute old, including a creation
      time in the future, reads "Just now"; up to an hour the label reads back
      as the whole minutes elapsed, up to a day as the whole hours, up to a
      week as the whole days; from a week on the locale date is shown. */
  lemma FormatDateDecodes(diffMs: int)
    ensures FormatDate(diffMs) == Some("Just now") <==> diffMs < MsPerMinute
    ensures FormatDate(diffMs).None? <==> 7 * MsPerDay <= diffMs
    ensures MsPerMinute <= diffMs < MsPerHour ==>
      FormatDate(diffMs).Some? && ParseLabel(FormatDate(diffMs).value) == Some(MinutesAgo(diffMs / MsPerMinute))
    ensures MsPerHour <= diffMs < MsPerDay ==>
      FormatDate(diffMs).Some? && ParseLabel(FormatDate(diffMs).value) == Some(HoursAgo(diffMs / MsPerHour))
    ensures MsPerDay <= diffMs < 7 * MsPerDay ==>
      FormatDate(diffMs).Some? && ParseLabel(FormatDate(diffMs).value) == Some(DaysAgo(diffMs / MsPerDay))
  {
    var a := Classify(diffMs);
    if a != OlderThanAWeek {
      LabelRoundTrip(a);
      if a != JustNow {
        assert ParseLabel(Label(a).value) != Some(JustNow);
      }
    }
  }
}
