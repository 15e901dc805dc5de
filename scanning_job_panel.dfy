/**
 * scanomatic/ui_server_data/js/src/components/ScanningJobPanelBody.jsx: the body of a scanning
 * job's panel. It formats durations, works out how far a running job has come, and decides which
 * buttons and table rows the panel shows. The clock (`new Date()`) is the parameter `now`, in
 * milliseconds; a `Date` property is its time value in milliseconds, and `null` is None.
 */
module ScanningJobPanel {
  import opened Wrappers
  import opened JsNumbers

  /** A `Duration`: whole days, hours and minutes. */
  datatype Duration = Duration(days: int, hours: int, minutes: int)

  const MsPerMinute: int := 60000
  const MsPerHour: int := 3600000
  const MsPerDay: int := 86400000

  // ---------------------------------------------------------------------------------------
  // duration2milliseconds
  // ---------------------------------------------------------------------------------------

  /** `duration2milliseconds`: 0 without a duration, else `setUTCHours(days * 24 + hours, minutes)` on the epoch. */
  function DurationMs(duration: Option<Duration>): int {
    match duration
    case None => 0
    case Some(d) => (d.days * 24 + d.hours) * MsPerHour + d.minutes * MsPerMinute
  }

  /** A duration written the usual way: hours below 24, minutes below 60. */
  predicate Normal(d: Duration) {
    d.days >= 0 && 0 <= d.hours < 24 && 0 <= d.minutes < 60
  }

  /** The days, hours and minutes in a number of milliseconds. */
  function FromMs(ms: int): (d: Duration)
    requires ms >= 0
    ensures Normal(d)
  {
    Duration(ms / MsPerDay, (ms / MsPerHour) % 24, (ms / MsPerMinute) % 60)
  }

  /** A normal duration comes back from its milliseconds: nothing is lost in the conversion. */
  lemma DurationMsRoundTrip(d: Duration)
    requires Normal(d)
    ensures DurationMs(Some(d)) >= 0 && FromMs(DurationMs(Some(d))) == d
  {
    var ms := DurationMs(Some(d));
    var totalMinutes := d.days * 1440 + d.hours * 60 + d.minutes;
    var totalHours := d.days * 24 + d.hours;
    assert ms == totalMinutes * MsPerMinute;
    assert ms / MsPerMinute == totalMinutes;
    assert totalMinutes % 60 == d.minutes && totalMinutes / 60 == totalHours;
    assert ms == totalHours * MsPerHour + d.minutes * MsPerMinute;
    assert ms / MsPerHour == totalHours;
    assert totalHours % 24 == d.hours;
    assert ms == d.days * MsPerDay + (d.hours * 60 + d.minutes) * MsPerMinute;
    assert ms / MsPerDay == d.days;
  }

  // ---------------------------------------------------------------------------------------
  // getProgress
  // ---------------------------------------------------------------------------------------

  /** A JavaScript number as `getProgress` can produce it. */
  datatype Number = Finite(value: real) | NaN | NegativeInfinity

  function Min(a: real, b: real): real {
    if a <= b then a else b
  }

  /**
   * `getProgress`: the share of the duration elapsed since the start, capped at 1, in percent.
   * A missing start reads as the epoch (`new Date(null)`). With a zero duration the quotient is
   * +Infinity, NaN or -Infinity, and `Math.min` with 1 turns +Infinity into 1.
   */
  function Progress(duration: Option<Duration>, startTime: Option<int>, now: int): (p: Number)
    ensures p.Finite? ==> p.value <= 100.0
    ensures DurationMs(duration) > 0 && now - startTime.GetOr(0) >= DurationMs(duration) ==> p == Finite(100.0)
    ensures DurationMs(duration) > 0 && now >= startTime.GetOr(0) ==> p.Finite? && p.value >= 0.0
  {
    var total := DurationMs(duration);
    var elapsed := now - startTime.GetOr(0);
    if total == 0 then
      (if elapsed > 0 then Finite(100.0) else if elapsed == 0 then NaN else NegativeInfinity)
    else
      Finite(Min(1.0, elapsed as real / total as real) * 100.0)
  }

  /** With a positive duration the progress never goes down as the clock advances. */
  lemma ProgressMonotone(duration: Option<Duration>, startTime: Option<int>, now1: int, now2: int)
    requires DurationMs(duration) > 0 && now1 <= now2
    ensures Progress(duration, startTime, now1).Finite? && Progress(duration, startTime, now2).Finite?
    ensures Progress(duration, startTime, now1).value <= Progress(duration, startTime, now2).value
  {
    var total := DurationMs(duration) as real;
    var e1 := (now1 - startTime.GetOr(0)) as real;
    var e2 := (now2 - startTime.GetOr(0)) as real;
    assert e2 / total - e1 / total == (e2 - e1) / total;
    assert (e2 - e1) / total >= 0.0;
  }

  // ---------------------------------------------------------------------------------------
  // renderDuration
  // ---------------------------------------------------------------------------------------

  /** `Array.prototype.join(sep)`. */
  function Join(ws: seq<string>, sep: string): (s: string)
    ensures |ws| == 0 ==> s == ""
    ensures |ws| > 0 && |ws[0]| > 0 ==> |s| > 0
  {
    if |ws| == 0 then "" else if |ws| == 1 then ws[0] else ws[0] + sep + Join(ws[1..], sep)
  }

  /** The string `renderDuration` pushes for one part: `${n} unit` when n is positive, nothing otherwise. */
  function Part(n: int, unit: string): seq<string> {
    if n > 0 then [JsString(n) + " " + unit] else []
  }

  /** The strings `renderDuration` pushes, in the order days, hours, minutes. */
  function Parts(d: Duration): seq<string> {
    Part(d.days, "days") + Part(d.hours, "hours") + Part(d.minutes, "minutes")
  }

  /** `renderDuration`: the positive parts joined by single spaces; the empty text when none is positive. */
  function RenderDuration(d: Duration): (s: string)
    ensures s == "" <==> d.days <= 0 && d.hours <= 0 && d.minutes <= 0
  {
    Join(Parts(d), " ")
  }

  /** The words of one part: its numeral and its unit. */
  function Words(n: int, unit: string): seq<string> {
    if n > 0 then [Decimal(n), unit] else []
  }

  /** The words of the rendered text. */
  function Tokens(d: Duration): seq<string> {
    Words(d.days, "days") + Words(d.hours, "hours") + Words(d.minutes, "minutes")
  }

  /** Joining two non-empty lists joins each, with the separator between them. */
  lemma {:induction false} JoinAppend(a: seq<string>, b: seq<string>, sep: string)
    requires |a| > 0 && |b| > 0
    ensures Join(a + b, sep) == Join(a, sep) + sep + Join(b, sep)
  {
    if |a| == 1 {
      assert (a + b)[1..] == b;
    } else {
      assert (a + b)[1..] == a[1..] + b;
      JoinAppend(a[1..], b, sep);
    }
  }

  /** Two lists of strings join to the same text and are empty together. */
  predicate JoinAlike(a: seq<string>, b: seq<string>) {
    Join(a, " ") == Join(b, " ") && (|a| == 0 <==> |b| == 0)
  }

  /** Concatenations of lists that join alike join alike. */
  lemma JoinTwo(a1: seq<string>, a2: seq<string>, b1: seq<string>, b2: seq<string>)
    requires JoinAlike(a1, b1) && JoinAlike(a2, b2)
    ensures JoinAlike(a1 + a2, b1 + b2)
  {
    if |a1| == 0 {
      assert a1 + a2 == a2 && b1 + b2 == b2;
    } else if |a2| == 0 {
      assert a1 + a2 == a1 && b1 + b2 == b1;
    } else {
      JoinAppend(a1, a2, " ");
      JoinAppend(b1, b2, " ");
    }
  }

  /** A part and its words join to the same text, and one is empty exactly when the other is. */
  lemma PartWords(n: int, unit: string)
    ensures JoinAlike(Words(n, unit), Part(n, unit))
  {
    if n > 0 {
      assert Words(n, unit)[1..] == [unit];
    }
  }

  /** The rendered text is the words joined by single spaces. */
  lemma RenderTokens(d: Duration)
    ensures RenderDuration(d) == Join(Tokens(d), " ")
  {
    var wd, wh, wm := Words(d.days, "days"), Words(d.hours, "hours"), Words(d.minutes, "minutes");
    var pd, ph, pm := Part(d.days, "days"), Part(d.hours, "hours"), Part(d.minutes, "minutes");
    PartWords(d.days, "days");
    PartWords(d.hours, "hours");
    PartWords(d.minutes, "minutes");
    JoinTwo(wd, wh, pd, ph);
    JoinTwo(wd + wh, wm, pd + ph, pm);
  }

  /** The position of the first space. */
  function IndexOfSpace(s: string): (i: nat)
    requires ' ' in s
    ensures i < |s| && s[i] == ' '
  {
    if s[0] == ' ' then 0 else 1 + IndexOfSpace(s[1..])
  }

  /** A space with none before it is the first space. */
  lemma {:induction false} FirstSpace(s: string, j: nat)
    requires j < |s| && s[j] == ' ' && ' ' !in s[..j]
    ensures IndexOfSpace(s) == j
  {
    if j > 0 {
      assert s[..j][0] == s[0];
      assert s[1..][..j - 1] == s[1..j];
      assert s[1..j] == s[..j][1..];
      FirstSpace(s[1..], j - 1);
    }
  }

  /** `String.prototype.split(' ')`: the pieces between the spaces, always at least one. */
  function Split(s: string): (ws: seq<string>)
    ensures |ws| >= 1
    decreases |s|
  {
    if ' ' in s then
      var i := IndexOfSpace(s);
      [s[..i]] + Split(s[i + 1..])
    else [s]
  }

  /** None of the words holds a space. */
  predicate NoSpaces(ws: seq<string>) {
    forall k :: 0 <= k < |ws| ==> ' ' !in ws[k]
  }

  /** Splitting at the spaces undoes joining words that have none. */
  lemma {:induction false} SplitJoin(ws: seq<string>)
    requires |ws| >= 1 && NoSpaces(ws)
    ensures Split(Join(ws, " ")) == ws
  {
    if |ws| > 1 {
      var rest := Join(ws[1..], " ");
      var s := ws[0] + " " + rest;
      assert s[..|ws[0]|] == ws[0];
      FirstSpace(s, |ws[0]|);
      assert s[|ws[0]| + 1..] == rest;
      SplitJoin(ws[1..]);
    }
  }

  predicate IsUnit(unit: string) {
    unit == "days" || unit == "hours" || unit == "minutes"
  }

  /** The duration with the named unit set to n. */
  function SetUnit(acc: Duration, unit: string, n: int): Duration
    requires IsUnit(unit)
  {
    if unit == "days" then acc.(days := n) else if unit == "hours" then acc.(hours := n) else acc.(minutes := n)
  }

  /** The duration the words describe, starting from `acc`; None for words `renderDuration` does not write. */
  function ReadTokens(ts: seq<string>, acc: Duration): Option<Duration>
    decreases |ts|
  {
    if |ts| == 0 then Some(acc)
    else if |ts| == 1 || ts[0] == "" || !AllDigits(ts[0]) || !IsUnit(ts[1]) then None
    else ReadTokens(ts[2..], SetUnit(acc, ts[1], DecimalValue(ts[0])))
  }

  /** Reads a rendered duration back; the empty text is the zero duration. */
  function ReadDuration(s: string): Option<Duration> {
    if s == "" then Some(Duration(0, 0, 0)) else ReadTokens(Split(s), Duration(0, 0, 0))
  }

  /** The words of one part set that unit of the duration read so far; no words set nothing. */
  lemma ReadWords(n: int, unit: string, rest: seq<string>, acc: Duration)
    requires IsUnit(unit)
    ensures NoSpaces(Words(n, unit))
    ensures ReadTokens(Words(n, unit) + rest, acc) == ReadTokens(rest, if n <= 0 then acc else SetUnit(acc, unit, n))
  {
    var ts := Words(n, unit) + rest;
    if n > 0 {
      assert ts[0] == Decimal(n) && ts[1] == unit && ts[2..] == rest;
      DecimalRoundTrip(n);
    } else {
      assert ts == rest;
    }
  }

  /** The rendered text splits into its words. */
  lemma SplitRender(d: Duration)
    requires RenderDuration(d) != ""
    ensures Split(RenderDuration(d)) == Tokens(d)
  {
    var wd, wh, wm := Words(d.days, "days"), Words(d.hours, "hours"), Words(d.minutes, "minutes");
    ReadWords(d.days, "days", [], Duration(0, 0, 0));
    ReadWords(d.hours, "hours", [], Duration(0, 0, 0));
    ReadWords(d.minutes, "minutes", [], Duration(0, 0, 0));
    assert NoSpaces(wd + wh + wm);
    RenderTokens(d);
    SplitJoin(Tokens(d));
  }

  /** The words of a duration without negative parts read as that duration. */
  lemma ReadTokensOf(d: Duration)
    requires d.days >= 0 && d.hours >= 0 && d.minutes >= 0
    ensures ReadTokens(Tokens(d), Duration(0, 0, 0)) == Some(d)
  {
    var wd, wh, wm := Words(d.days, "days"), Words(d.hours, "hours"), Words(d.minutes, "minutes");
    ReadWords(d.days, "days", wh + wm, Duration(0, 0, 0));
    ReadWords(d.hours, "hours", wm, Duration(d.days, 0, 0));
    ReadWords(d.minutes, "minutes", [], Duration(d.days, d.hours, 0));
    assert Tokens(d) == wd + (wh + wm);
    assert wm + [] == wm;
  }

  /** Reading back what `renderDuration` writes gives the duration, for durations without negative parts. */
  lemma RenderDurationRoundTrip(d: Duration)
    requires d.days >= 0 && d.hours >= 0 && d.minutes >= 0
    ensures ReadDuration(RenderDuration(d)) == Some(d)
  {
    if RenderDuration(d) != "" {
      SplitRender(d);
      ReadTokensOf(d);
    }
  }

  // ---------------------------------------------------------------------------------------
  // ScanningJobPanelBody
  // ---------------------------------------------------------------------------------------

  /** The scanner the job uses, as the panel reads it. */
  datatype Scanner = Scanner(name: string, owned: bool, power: bool)

  /** The properties of the panel that decide what it shows. */
  datatype JobProps = JobProps(
    status: string,
    disableStart: bool,
    duration: Duration,
    interval: Duration,
    identifier: string,
    scanner: Option<Scanner>,
    startTime: Option<int>,
    endTime: Option<int>,
    terminationTime: Option<int>,
    terminationMessage: Option<string>)

  datatype StartButton = NoStartButton | StartDisabled | StartEnabled

  datatype ScannerRow = NoScannerRow | ScannerStatus(scannerName: string, online: bool, occupied: bool) | RetrievingStatus

  datatype EndRow = NoEndRow | StoppedAt(time: int) | EndedAt(endTime: Option<int>) | WillEndAt(endTime: Option<int>)

  /** The links of a completed job to compilation and analysis. */
  datatype JobLinks = JobLinks(compile: string, analysis: string)

  /** What the panel renders. */
  datatype Panel = Panel(
    progress: Option<Number>,
    start: StartButton,
    remove: bool,
    stop: bool,
    durationText: string,
    frequencyText: string,
    scannerRow: ScannerRow,
    startedRow: Option<int>,
    endRow: EndRow,
    reason: Option<string>,
    links: Option<JobLinks>)

  /** A JavaScript string is truthy when it is not empty. */
  predicate Truthy(s: Option<string>) {
    s.Some? && s.value != ""
  }

  /** The first if/else chain of the component, the part that decides the Start button. */
  function StartButtonOf(props: JobProps): StartButton {
    if props.status == "Running" || props.status == "Completed" then NoStartButton
    else if props.disableStart || props.scanner.None? || props.scanner.value.owned || !props.scanner.value.power then StartDisabled
    else StartEnabled
  }

  function FrequencyText(props: JobProps): string {
    if props.status == "Running" then "Scanning every " + RenderDuration(props.interval)
    else if props.status == "Completed" then "Scanned every " + RenderDuration(props.interval)
    else "Scan every " + RenderDuration(props.interval)
  }

  function ScannerRowOf(props: JobProps): ScannerRow {
    if props.status == "Completed" then NoScannerRow
    else if props.scanner.Some? then
      ScannerStatus(props.scanner.value.name, props.scanner.value.power, props.scanner.value.owned)
    else RetrievingStatus
  }

  function EndRowOf(props: JobProps): EndRow {
    if props.startTime.None? then NoEndRow
    else if props.terminationTime.Some? then StoppedAt(props.terminationTime.value)
    else if props.status == "Completed" then EndedAt(props.endTime)
    else WillEndAt(props.endTime)
  }

  /** `ScanningJobPanelBody(props)` at time `now`. */
  function PanelBody(props: JobProps, now: int): Panel {
    Panel(
      if props.status == "Running" then Some(Progress(Some(props.duration), props.startTime, now)) else None,
      StartButtonOf(props),
      props.status == "Planned",
      props.status == "Running",
      RenderDuration(props.duration),
      FrequencyText(props),
      ScannerRowOf(props),
      props.startTime,
      EndRowOf(props),
      if Truthy(props.terminationMessage) then props.terminationMessage else None,
      if props.status == "Completed" then
        Some(JobLinks("/compile?projectdirectory=root/" + props.identifier,
                      "/analysis?compilationfile=root/" + props.identifier + "/" + props.identifier + ".project.compilation"))
      else None)
  }

  /** The Start button is there unless the job runs or is done, and it can be pressed only with a free, powered scanner. */
  lemma StartButtonRule(props: JobProps, now: int)
    ensures var p := PanelBody(props, now);
      (p.start != NoStartButton <==> props.status != "Running" && props.status != "Completed") &&
      (p.start == StartEnabled <==> (props.status != "Running" && props.status != "Completed" && !props.disableStart &&
                                     props.scanner.Some? && !props.scanner.value.owned && props.scanner.value.power))
  {
  }

  /** Remove is offered only for planned jobs and Stop only for running ones, which alone show a progress bar; links only for completed jobs. */
  lemma ButtonsByStatus(props: JobProps, now: int)
    ensures var p := PanelBody(props, now);
      (p.remove <==> props.status == "Planned") && (p.stop <==> props.status == "Running") &&
      !(p.remove && p.stop) && !(p.stop && p.start != NoStartButton) &&
      (p.progress.Some? <==> p.stop) && (p.links.Some? <==> props.status == "Completed")
  {
  }

  /** The progress bar never shows more than 100 percent. */
  lemma ProgressBarBound(props: JobProps, now: int)
    ensures var p := PanelBody(props, now); p.progress.Some? && p.progress.value.Finite? ==> p.progress.value.value <= 100.0
  {
  }

  /** With a start time the end row is Stopped, Ended or Will end, in that order of precedence; without one there is none. */
  lemma EndRowRule(props: JobProps, now: int)
    ensures var p := PanelBody(props, now);
      (p.endRow == NoEndRow <==> props.startTime.None?) &&
      (p.endRow.StoppedAt? <==> props.startTime.Some? && props.terminationTime.Some?) &&
      (p.endRow.EndedAt? <==> props.startTime.Some? && props.terminationTime.None? && props.status == "Completed") &&
      (p.endRow.WillEndAt? <==> props.startTime.Some? && props.terminationTime.None? && props.status != "Completed")
  {
  }

  /** A completed job shows no scanner row; otherwise the row shows the scanner's state, or waits for it. */
  lemma ScannerRowRule(props: JobProps, now: int)
    ensures var p := PanelBody(props, now);
      (p.scannerRow == NoScannerRow <==> props.status == "Completed") &&
      (p.scannerRow == RetrievingStatus <==> props.status != "Completed" && props.scanner.None?) &&
      (p.scannerRow.ScannerStatus? ==> p.scannerRow.online == props.scanner.value.power && p.scannerRow.occupied == props.scanner.value.owned)
  {
  }

  /** The reason row appears exactly for a non-empty termination message. */
  lemma ReasonRowRule(props: JobProps, now: int)
    ensures var p := PanelBody(props, now);
      (p.reason.Some? <==> Truthy(props.terminationMessage)) && (p.reason.Some? ==> p.reason == props.terminationMessage)
  {
  }
}
