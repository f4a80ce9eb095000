/** The landing page's live activity feed (src/app/live-stats.tsx): each
    recent command is shown with how long ago it ran, in whole seconds,
    minutes or hours, and the feed is left out while there is nothing to
    show. The clock is a parameter. */
module LiveStats {
  import opened Text

  /** Shown for a command without a usable timestamp. */
  const Dash: string := "—"

  const Suffix: string := " ago"

  /** Whole seconds from `ts` to `now` (both in milliseconds), rounded
      down, negative for a timestamp in the future. */
  function ElapsedSeconds(ts: int, now: int): (d: int)
    ensures d * 1000 <= now - ts < d * 1000 + 1000
  {
    (now - ts) / 1000
  }

  /** `timeSince(ts)` at time `now`. */
  function TimeSince(ts: int, now: int): (s: string)
    ensures ts == 0 <==> s == Dash
  {
    if ts == 0 then Dash
    else
      var diff := ElapsedSeconds(ts, now);
      if diff < 60 then DecimalText(diff) + "s" + Suffix
      else if diff < 3600 then DecimalText(diff / 60) + "m" + Suffix
      else DecimalText(diff / 3600) + "h" + Suffix
  }

  /** Reads an age label back: the count and the unit letter. */
  function ReadAge(s: string): Option<(int, char)> {
    if |s| >= 6 && s[|s| - 4..] == Suffix then
      var body := s[..|s| - 4];
      match ParseDecimal(body[..|body| - 1])
      case Some(n) => Some((n, body[|body| - 1]))
      case None => None
    else None
  }

  lemma ReadAgeOf(n: int, unit: char)
    ensures ReadAge(DecimalText(n) + [unit] + Suffix) == Some((n, unit))
  {
    var s := DecimalText(n) + [unit] + Suffix;
    var body := s[..|s| - 4];
    assert s[|s| - 4..] == Suffix;
    assert body == DecimalText(n) + [unit];
    assert body[..|body| - 1] == DecimalText(n);
    DecimalRoundTrip(n);
  }

  /** A label of a real timestamp reads back as a count and a unit: seconds
      below a minute (negative ones included), else whole minutes below an
      hour, else whole hours, each the elapsed time rounded down. */
  lemma TimeSinceReadsBack(ts: int, now: int)
    requires ts != 0
    ensures var age := ReadAge(TimeSince(ts, now));
      var d := ElapsedSeconds(ts, now);
      age.Some? &&
      (d < 60 ==> age.value == (d, 's')) &&
      (60 <= d < 3600 ==> (age.value.1 == 'm' && 1 <= age.value.0 < 60 &&
                           age.value.0 * 60 <= d < age.value.0 * 60 + 60)) &&
      (3600 <= d ==> (age.value.1 == 'h' && 1 <= age.value.0 &&
                      age.value.0 * 3600 <= d < age.value.0 * 3600 + 3600))
  {
    var d := ElapsedSeconds(ts, now);
    if d < 60 {
      assert TimeSince(ts, now) == DecimalText(d) + ['s'] + Suffix;
      ReadAgeOf(d, 's');
    } else if d < 3600 {
      assert TimeSince(ts, now) == DecimalText(d / 60) + ['m'] + Suffix;
      ReadAgeOf(d / 60, 'm');
    } else {
      assert TimeSince(ts, now) == DecimalText(d / 3600) + ['h'] + Suffix;
      ReadAgeOf(d / 3600, 'h');
    }
  }

  /** `Number(ts)` for the timestamps the backend sends: a decimal integer,
      anything else reading as no number, which the label treats like 0. */
  function TimestampOf(text: string): (ts: int)
    ensures ParseDecimal(text).None? ==> ts == 0
    ensures ParseDecimal(text).Some? ==> ts == ParseDecimal(text).value
  {
    ParseDecimal(text).OrElse(0)
  }

  datatype RecentCommand = RecentCommand(command: string, ts: string)

  datatype Metrics = Metrics(recentCommands: seq<RecentCommand>)

  datatype FeedRow = FeedRow(time: string, command: string)

  /** `LiveActivityFeed`: nothing without metrics or without recent
      commands, otherwise one row per command in order. */
  function Feed(m: Option<Metrics>, now: int): (rows: Option<seq<FeedRow>>)
    ensures rows.None? <==> m.None? || |m.value.recentCommands| == 0
    ensures rows.Some? ==> |rows.value| == |m.value.recentCommands|
    ensures rows.Some? ==> forall i :: 0 <= i < |rows.value| ==>
      rows.value[i].command == m.value.recentCommands[i].command &&
      rows.value[i].time == TimeSince(TimestampOf(m.value.recentCommands[i].ts), now)
  {
    if m.None? || |m.value.recentCommands| == 0 then None
    else
      var recent := m.value.recentCommands;
      Some(seq(|recent|, i requires 0 <= i < |recent| =>
        FeedRow(TimeSince(TimestampOf(recent[i].ts), now), recent[i].command)))
  }
}
