/** The `chartData` mapping of src/components/WeatherChart.tsx: the first
    24 forecast hours, each labelled on a 12-hour clock ("12AM", "1PM", ...)
    and paired with the temperature at the same index. */
module WeatherChart {
  import opened Text
  import opened Wrappers

  /** What `Date.getHours` returns: an hour of the day. */
  type Hour = h: int | 0 <= h < 24

  function Period(h: Hour): string {
    if h >= 12 then "PM" else "AM"
  }

  function DisplayHour(h: Hour): (d: nat)
    ensures 1 <= d <= 12
  {
    if h == 0 then 12 else if h > 12 then h - 12 else h
  }

  /** `${displayHour}${period}` */
  function HourLabel(h: Hour): string {
    NatToString(DisplayHour(h)) + Period(h)
  }

  /** The 24-hour clock hour a display hour and period stand for. */
  function To24(display: nat, period: string): int {
    if period == "AM" then (if display == 12 then 0 else display)
    else (if display == 12 then 12 else display + 12)
  }

  /** The period is PM exactly from noon on; the display hour is 12 at
      midnight, the hour itself from 1 to 12, and twelve less after noon. */
  lemma ClockConversion(h: Hour)
    ensures Period(h) == "PM" <==> h >= 12
    ensures Period(h) == "AM" || Period(h) == "PM"
    ensures h == 0 ==> DisplayHour(h) == 12
    ensures 1 <= h <= 12 ==> DisplayHour(h) == h
    ensures h > 12 ==> DisplayHour(h) == h - 12
  {
  }

  /** No information is lost: display hour and period give the hour back. */
  lemma To24Inverts(h: Hour)
    ensures To24(DisplayHour(h), Period(h)) == h
  {
  }

  /** Reads a label back: the last two characters are the period, the rest
      the display hour's digits. */
  function ParseLabel(text: string): Option<int> {
    if |text| < 3 then None
    else
      var digits := text[..|text| - 2];
      var period := text[|text| - 2..];
      if (period == "AM" || period == "PM") && forall i :: 0 <= i < |digits| ==> '0' <= digits[i] <= '9' then
        Some(To24(DecimalValue(digits), period))
      else None
  }

  /** Labels are unambiguous: reading one gives back its hour, so two
      hours never share a label. */
  lemma LabelRoundTrip(h: Hour)
    ensures ParseLabel(HourLabel(h)) == Some(h)
  {
    var digits := NatToString(DisplayHour(h));
    var text := HourLabel(h);
    assert text[..|text| - 2] == digits;
    assert text[|text| - 2..] == Period(h);
    DecimalRoundTrip(DisplayHour(h));
  }

  lemma LabelsDistinct(h1: Hour, h2: Hour)
    requires HourLabel(h1) == HourLabel(h2)
    ensures h1 == h2
  {
    LabelRoundTrip(h1);
    LabelRoundTrip(h2);
  }

  /** Midnight and noon. */
  lemma MidnightAndNoon()
    ensures HourLabel(0) == "12AM" && HourLabel(12) == "12PM"
    ensures HourLabel(13) == "1PM"
  {
    assert NatToString(12) == "12";
    assert NatToString(1) == "1";
  }

  /** One chart entry: the hour label, the temperature at the same index
      (absent past the end of the temperature list) and the raw time. */
  datatype ChartPoint<T> = ChartPoint(time: string, temp: Option<T>, fullTime: string)

  function Min(x: int, y: int): int {
    if x <= y then x else y
  }

  /** `hourlyData.time.slice(0, 24).map(...)`, with the hour of each time
      string supplied by `hourOf`. */
  function ChartData<T>(times: seq<string>, temps: seq<T>, hourOf: string -> Hour): (r: seq<ChartPoint<T>>)
    ensures |r| == Min(24, |times|)
    ensures forall i :: 0 <= i < |r| ==> r[i].fullTime == times[i]
    ensures forall i :: 0 <= i < |r| ==> r[i].temp == (if i < |temps| then Some(temps[i]) else None)
    ensures forall i :: 0 <= i < |r| ==> r[i].time == HourLabel(hourOf(times[i]))
  {
    var shown := if |times| <= 24 then times else times[..24];
    seq(|shown|, i requires 0 <= i < |shown| =>
      ChartPoint(HourLabel(hourOf(shown[i])), if i < |temps| then Some(temps[i]) else None, shown[i]))
  }

  /** Every chart text is a display hour from 1 to 12 followed by AM or PM. */
  lemma ChartLabelsWellFormed<T>(times: seq<string>, temps: seq<T>, hourOf: string -> Hour, i: nat)
    requires i < |ChartData(times, temps, hourOf)|
    ensures var text := ChartData(times, temps, hourOf)[i].time;
      exists d: nat, p: string :: 1 <= d <= 12 && (p == "AM" || p == "PM") && text == NatToString(d) + p
  {
    var h := hourOf(times[i]);
    assert ChartData(times, temps, hourOf)[i].time == NatToString(DisplayHour(h)) + Period(h);
  }
}
