/** The operations dashboard (src/app/ops/security-client.tsx): it polls the
    backend for the latest command log and statistics, shows the alerted
    entries, the recent log and the command frequencies, and flashes the
    screen once for each new alert at the head of the log. */
module SecurityDashboard {
  import opened Text

  datatype LogEntry = LogEntry(
    id: string,
    ts: int,
    ip: string,
    sessionId: string,
    command: string,
    mode: string,
    alert: Option<string>,
    severity: Option<string>)

  datatype CommandCount = CommandCount(command: string, count: int)

  datatype Stats = Stats(total: int, lastMinute: int, topCommands: seq<CommandCount>)

  const EmptyStats: Stats := Stats(0, 0, [])

  /** Entries shown in the alerts panel and in the command log. */
  const AlertRowLimit: nat := 4
  const LogRowLimit: nat := 10

  /** How long the screen flashes, in milliseconds. */
  const FlashMs: int := 800

  datatype Status = Idle | Syncing | Offline | Live

  // ---------------------------------------------------------------------
  // Derivations made while rendering
  // ---------------------------------------------------------------------

  /** An entry raises an alert when its `alert` is a non-empty string. */
  predicate Alerted(e: LogEntry) {
    e.alert.Some? && e.alert.value != ""
  }

  /** `logs.filter((e) => e.alert)`: the alerted entries in log order. */
  function AlertedEntries(logs: seq<LogEntry>): (r: seq<LogEntry>)
    ensures |r| <= |logs|
    ensures forall e :: e in r ==> e in logs && Alerted(e)
    ensures forall e :: e in logs && Alerted(e) ==> e in r
    decreases |logs|
  {
    if |logs| == 0 then []
    else if Alerted(logs[0]) then [logs[0]] + AlertedEntries(logs[1..])
    else AlertedEntries(logs[1..])
  }

  /** The alerted entries keep log order: those of a log made of two parts
      are those of the first part followed by those of the second, and a
      single entry contributes itself exactly when it raises an alert. */
  lemma {:induction false} AlertedEntriesAppend(a: seq<LogEntry>, b: seq<LogEntry>)
    ensures AlertedEntries(a + b) == AlertedEntries(a) + AlertedEntries(b)
    ensures |a| == 1 ==> AlertedEntries(a) == if Alerted(a[0]) then a else []
    decreases |a|
  {
    if |a| == 0 {
      assert a + b == b;
    } else {
      assert (a + b)[0] == a[0] && (a + b)[1..] == a[1..] + b;
      AlertedEntriesAppend(a[1..], b);
      if |a| == 1 {
        assert a[1..] == [];
      }
    }
  }

  /** The positions of the alerted entries. */
  ghost function AlertPositions(logs: seq<LogEntry>): set<nat> {
    set i: nat | i < |logs| && Alerted(logs[i])
  }

  /** The alert counter shows the number of positions in the log whose
      entry raises an alert. */
  lemma {:induction false} AlertCount(logs: seq<LogEntry>)
    ensures |AlertedEntries(logs)| == |AlertPositions(logs)|
    decreases |logs|
  {
    if |logs| > 0 {
      var tail := logs[1..];
      AlertCount(tail);
      var shifted := Shift(AlertPositions(tail));
      ShiftCard(AlertPositions(tail));
      forall i: nat ensures i in AlertPositions(logs) <==> (i == 0 && Alerted(logs[0])) || i in shifted {
        if i > 0 && i < |logs| {
          assert tail[i - 1] == logs[i];
          assert i in shifted <==> i - 1 in AlertPositions(tail);
        }
      }
      if Alerted(logs[0]) {
        assert AlertPositions(logs) == {0} + shifted;
      } else {
        assert AlertPositions(logs) == shifted;
      }
    } else {
      assert AlertPositions(logs) == {};
    }
  }

  /** Every position moved up by one. */
  ghost function Shift(s: set<nat>): (r: set<nat>)
    ensures forall i: nat :: i in r <==> i > 0 && i - 1 in s
  {
    set i | i in s :: i + 1
  }

  lemma {:induction false} ShiftCard(s: set<nat>)
    ensures |Shift(s)| == |s|
    decreases |s|
  {
    if s != {} {
      var x :| x in s;
      ShiftCard(s - {x});
      assert Shift(s) == Shift(s - {x}) + {x + 1};
    } else {
      assert Shift(s) == {};
    }
  }

  /** The first `n` elements, or all of them when there are fewer
      (`slice(0, n)`). */
  function Take<T>(s: seq<T>, n: nat): (r: seq<T>)
    ensures |r| == Min(n, |s|)
    ensures r == s[..|r|]
  {
    if |s| <= n then s else s[..n]
  }

  /** The alerts panel: the first four alerted entries. */
  function AlertRows(logs: seq<LogEntry>): (rows: seq<LogEntry>)
    ensures |rows| == Min(AlertRowLimit, |AlertedEntries(logs)|)
    ensures rows == AlertedEntries(logs)[..|rows|]
    ensures forall e :: e in rows ==> e in logs && Alerted(e)
  {
    Take(AlertedEntries(logs), AlertRowLimit)
  }

  /** The command log: the first ten entries. */
  function LogRows(logs: seq<LogEntry>): (rows: seq<LogEntry>)
    ensures |rows| == Min(LogRowLimit, |logs|)
    ensures rows == logs[..|rows|]
  {
    Take(logs, LogRowLimit)
  }

  /** "No active alerts" is shown when no entry raises an alert. */
  predicate NoAlertsNotice(logs: seq<LogEntry>) {
    !exists i :: 0 <= i < |logs| && Alerted(logs[i])
  }

  /** "Waiting for attacker activity" is shown for an empty log. */
  predicate WaitingNotice(logs: seq<LogEntry>) {
    |logs| == 0
  }

  /** The alerts notice appears exactly when the alerts panel is empty, and
      the waiting notice exactly when the command log is. */
  lemma NoticesMatchRows(logs: seq<LogEntry>)
    ensures NoAlertsNotice(logs) <==> AlertRows(logs) == []
    ensures WaitingNotice(logs) <==> LogRows(logs) == []
  {
    if !NoAlertsNotice(logs) {
      var i :| 0 <= i < |logs| && Alerted(logs[i]);
      assert logs[i] in AlertedEntries(logs);
    }
    if AlertedEntries(logs) != [] {
      var e := AlertedEntries(logs)[0];
      assert e in logs && Alerted(e);
      var i :| 0 <= i < |logs| && logs[i] == e;
    }
  }

  /** `logs.find((e) => e.alert)?.id ?? null`: the id of the first alerted
      entry. */
  function LatestAlert(logs: seq<LogEntry>): (r: Option<string>)
    ensures r.None? <==> NoAlertsNotice(logs)
    ensures r.Some? ==> exists i :: 0 <= i < |logs| && Alerted(logs[i]) && logs[i].id == r.value &&
                                  (forall j :: 0 <= j < i ==> !Alerted(logs[j]))
    decreases |logs|
  {
    if |logs| == 0 then None
    else if Alerted(logs[0]) then Some(logs[0].id)
    else
      var r := LatestAlert(logs[1..]);
      assert NoAlertsNotice(logs[1..]) ==> NoAlertsNotice(logs) by {
        if !NoAlertsNotice(logs) {
          var i :| 0 <= i < |logs| && Alerted(logs[i]);
          assert logs[1..][i - 1] == logs[i];
        }
      }
      assert r.Some? ==> !NoAlertsNotice(logs) by {
        if r.Some? {
          var i :| 0 <= i < |logs[1..]| && Alerted(logs[1..][i]);
          assert logs[i + 1] == logs[1..][i];
        }
      }
      if r.Some? then
        var i :| 0 <= i < |logs[1..]| && Alerted(logs[1..][i]) && logs[1..][i].id == r.value &&
                 (forall j :: 0 <= j < i ==> !Alerted(logs[1..][j]));
        assert logs[i + 1] == logs[1..][i];
        assert forall j :: 0 <= j < i + 1 ==> !Alerted(logs[j]) by {
          forall j | 0 <= j < i + 1 ensures !Alerted(logs[j]) {
            if j > 0 { assert logs[j] == logs[1..][j - 1]; }
          }
        }
        r
      else r
  }

  /** The alert the dashboard remembers is the head of the alerts panel. */
  lemma {:induction false} LatestAlertHeadsPanel(logs: seq<LogEntry>)
    ensures LatestAlert(logs) == if AlertedEntries(logs) == [] then None else Some(AlertedEntries(logs)[0].id)
    decreases |logs|
  {
    if |logs| > 0 && !Alerted(logs[0]) {
      LatestAlertHeadsPanel(logs[1..]);
    }
  }

  /** The severity suffix of an alert's class: missing means "low". */
  function SeveritySuffix(e: LogEntry): string {
    e.severity.OrElse("low")
  }

  /** `s.toUpperCase()` over ASCII letters. */
  function Upper(s: string): (r: string)
    ensures |r| == |s|
    ensures forall i :: 0 <= i < |s| ==>
      r[i] == if 'a' <= s[i] <= 'z' then (s[i] as int - 32) as char else s[i]
    decreases |s|
  {
    if |s| == 0 then ""
    else
      var c := s[0];
      [if 'a' <= c <= 'z' then (c as int - 32) as char else c] + Upper(s[1..])
  }

  /** Upper-casing twice is upper-casing once. */
  lemma UpperIdempotent(s: string)
    ensures Upper(Upper(s)) == Upper(s)
  {
  }

  /** The severity label: upper-cased, "LOW" when missing. */
  function SeverityLabel(e: LogEntry): (text: string)
    ensures e.severity.None? ==> text == "LOW"
    ensures e.severity.Some? ==> text == Upper(e.severity.value)
  {
    match e.severity
    case Some(s) => Upper(s)
    case None => "LOW"
  }

  /** The label always spells the class's severity in capitals, missing
      severities included. */
  lemma LabelMatchesClass(e: LogEntry)
    ensures SeverityLabel(e) == Upper(SeveritySuffix(e))
  {
    if e.severity.None? {
      assert Upper("low") == "LOW";
    }
  }

  /** `stats.topCommands[0]?.count || 1`: the first count, or 1 when there
      is none or it is zero. */
  function MaxCount(top: seq<CommandCount>): (m: int)
    ensures m != 0
    ensures |top| > 0 && top[0].count != 0 ==> m == top[0].count
    ensures |top| == 0 || top[0].count == 0 ==> m == 1
  {
    if |top| > 0 && top[0].count != 0 then top[0].count else 1
  }

  /** The root class: the flash class is added while flashing. */
  function ShellClass(flash: bool): (c: string)
    ensures StartsWith(c, "sec-shell ")
    ensures flash <==> |c| > |"sec-shell "|
    ensures flash ==> c == "sec-shell sec-flash"
    ensures !flash ==> c == "sec-shell "
  {
    "sec-shell " + (if flash then "sec-flash" else "")
  }

  // ---------------------------------------------------------------------
  // The flash rule
  // ---------------------------------------------------------------------

  /** A fetched log makes the screen flash when its latest alert id is
      non-empty and differs from the one remembered. */
  predicate Fires(remembered: Option<string>, latest: Option<string>) {
    latest.Some? && latest.value != "" && latest != remembered
  }

  /** The id remembered after a fetch. */
  function Remember(remembered: Option<string>, latest: Option<string>): (r: Option<string>)
    ensures Fires(remembered, latest) ==> r == latest
    ensures !Fires(remembered, latest) ==> r == remembered
  {
    if Fires(remembered, latest) then latest else remembered
  }

  /** Polling the same log again never flashes a second time. */
  lemma RepollIsQuiet(remembered: Option<string>, logs: seq<LogEntry>)
    ensures !Fires(Remember(remembered, LatestAlert(logs)), LatestAlert(logs))
  {
  }

  /** Only a change of the head alert can flash: two logs whose first
      alerted entries share an id flash together or not at all. */
  lemma FlashFollowsHead(remembered: Option<string>, l1: seq<LogEntry>, l2: seq<LogEntry>)
    requires LatestAlert(l1) == LatestAlert(l2)
    ensures Fires(remembered, LatestAlert(l1)) == Fires(remembered, LatestAlert(l2))
    ensures Remember(remembered, LatestAlert(l1)) == Remember(remembered, LatestAlert(l2))
  {
  }

  // ---------------------------------------------------------------------
  // The component
  // ---------------------------------------------------------------------

  /** The result of one poll: both requests were answered and ok, with
      these bodies (the log body may lack its `logs` field); or both were
      answered and one answer is not ok (`Failed`); or a request or a body
      read was rejected (`Rejected`), which `fetchData` does not catch, so
      the poll ends with the status it set at its start. */
  datatype Poll =
    | Rejected
    | Failed
    | Fetched(logs: Option<seq<LogEntry>>, stats: Stats)

  class Dashboard {
    var logs: seq<LogEntry>
    var stats: Stats
    var status: Status
    var flash: bool
    /** `lastAlertRef.current`. */
    var lastAlert: Option<string>

    constructor ()
      ensures logs == [] && stats == EmptyStats && status == Idle
      ensures !flash && lastAlert == None
    {
      logs := [];
      stats := EmptyStats;
      status := Idle;
      flash := false;
      lastAlert := None;
    }

    /** `fetchData` before the requests return. */
    method BeginFetch()
      modifies this`status
      ensures status == Syncing
    {
      status := Syncing;
    }

    /** The end of `fetchData`. A rejected request throws out of it and
        changes nothing, leaving the status `BeginFetch` set. A non-ok answer
        marks the dashboard offline and keeps what it showed. A success
        replaces the
        log (an absent list is empty) and the statistics, flashes on a new
        head alert and marks the dashboard live. `startsTimer` says whether
        an 800 ms timer to end the flash was started. */
    method FinishFetch(poll: Poll) returns (startsTimer: bool)
      modifies this`logs, this`stats, this`status, this`flash, this`lastAlert
      ensures poll.Rejected? ==>
        status == old(status) && !startsTimer &&
        logs == old(logs) && stats == old(stats) && flash == old(flash) && lastAlert == old(lastAlert)
      ensures poll.Failed? ==>
        status == Offline && !startsTimer &&
        logs == old(logs) && stats == old(stats) && flash == old(flash) && lastAlert == old(lastAlert)
      ensures poll.Fetched? ==>
        status == Live && logs == poll.logs.OrElse([]) && stats == poll.stats &&
        startsTimer == Fires(old(lastAlert), LatestAlert(logs)) &&
        lastAlert == Remember(old(lastAlert), LatestAlert(logs)) &&
        flash == (old(flash) || startsTimer)
    {
      startsTimer := false;
      if poll.Rejected? {
        return;
      }
      if poll.Failed? {
        status := Offline;
        return;
      }
      logs := poll.logs.OrElse([]);
      stats := poll.stats;
      var latest := LatestAlert(logs);
      if latest.Some? && latest.value != "" && latest != lastAlert {
        lastAlert := latest;
        flash := true;
        startsTimer := true;
      }
      status := Live;
    }

    /** The flash timer firing. */
    method FlashTimeout()
      modifies this`flash
      ensures !flash
    {
      flash := false;
    }
  }
}
