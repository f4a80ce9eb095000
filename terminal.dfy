/** The streaming terminal (src/app/terminal/terminal-client.tsx): a
    transcript of command, output and system entries; a send guard with a
    one-second cooldown; a reader that cuts the backend's event stream into
    blank-line separated frames and queues the text of every "data: "
    frame; and a typing tick that moves the queued text into the last output
    entry one character at a time. Timers, the network and fresh entry ids
    are inputs: each timer callback and each stream event is a method the
    caller invokes. */
module Terminal {
  import opened Text

  datatype Kind = Command | Output | System

  datatype Entry = Entry(id: string, kind: Kind, text: string)

  const CooldownMs: int := 1000
  const DataPrefix: string := "data: "
  const FrameSeparator: string := "\n\n"

  const IntroText: string := "Connected to bhoolbhulaiya honeypot. Streaming mode engaged."
  const ProcessingText: string := "Processing..."
  const RateLimitText: string := "Rate limit hit. Cooling down..."
  const CoolingDownError: string := "Cooling down. Try again shortly."
  const UnreachableError: string := "Honeypot backend is not reachable."
  const ConnectionFailedText: string := "Connection failed. Check backend status and GROQ_API_KEY."
  const KillSwitchText: string := "Kill switch activated. Session reset."

  // ---------------------------------------------------------------------
  // The transcript
  // ---------------------------------------------------------------------

  /** All transcript text, entry after entry. */
  function Texts(entries: seq<Entry>): string
    decreases |entries|
  {
    if |entries| == 0 then "" else Texts(entries[..|entries| - 1]) + entries[|entries| - 1].text
  }

  /** The text of the trailing output entry, empty when the transcript does
      not end in one. */
  function TrailingOutput(entries: seq<Entry>): string {
    if |entries| > 0 && entries[|entries| - 1].kind == Output then entries[|entries| - 1].text else ""
  }

  /** `updateLastOutput(nextChar)` as a reducer of the previous transcript;
      `freshId` is the id a new output entry would get. The character is
      appended to a trailing output entry, keeping its id, or else starts a
      new output entry; earlier entries are untouched. */
  function WithOutputChar(prev: seq<Entry>, c: char, freshId: string): (r: seq<Entry>)
    ensures |r| > 0 && r[|r| - 1].kind == Output
    ensures TrailingOutput(r) == TrailingOutput(prev) + [c]
    ensures |r| == |prev| + (if TrailingOutput(prev) == "" && (|prev| == 0 || prev[|prev| - 1].kind != Output) then 1 else 0)
    ensures |r| == |prev| ==> r[..|r| - 1] == prev[..|prev| - 1] && r[|r| - 1].id == prev[|prev| - 1].id
    ensures |r| == |prev| + 1 ==> r[..|prev|] == prev && r[|prev|] == Entry(freshId, Output, [c])
  {
    if |prev| == 0 || prev[|prev| - 1].kind != Output then
      prev + [Entry(freshId, Output, [c])]
    else
      var last := prev[|prev| - 1];
      prev[..|prev| - 1] + [last.(text := last.text + [c])]
  }

  /** Typing one character adds exactly that character to the transcript. */
  lemma TypingAppendsChar(prev: seq<Entry>, c: char, freshId: string)
    ensures Texts(WithOutputChar(prev, c, freshId)) == Texts(prev) + [c]
  {
    var r := WithOutputChar(prev, c, freshId);
    if |prev| == 0 || prev[|prev| - 1].kind != Output {
      assert r[..|r| - 1] == prev;
    } else {
      var last := prev[|prev| - 1];
      assert r[..|r| - 1] == prev[..|prev| - 1];
      assert Texts(prev) == Texts(prev[..|prev| - 1]) + last.text;
    }
  }

  // ---------------------------------------------------------------------
  // The event stream
  // ---------------------------------------------------------------------

  /** The text a frame contributes: what follows "data: " in a frame that
      begins with it (`part.replace("data: ", "")`), none otherwise. */
  function FramePayload(frame: string): (r: Option<string>)
    ensures r.Some? <==> StartsWith(frame, DataPrefix)
    ensures r.Some? ==> frame == DataPrefix + r.value
  {
    if StartsWith(frame, DataPrefix) then
      var t := ReplaceFirst(frame, DataPrefix, "");
      assert t == frame[|DataPrefix|..];
      Some(t)
    else None
  }

  /** A frame carries text `t` exactly when it is "data: " followed by `t`. */
  lemma PayloadIff(frame: string, t: string)
    ensures FramePayload(frame) == Some(t) <==> frame == DataPrefix + t
  {
    if frame == DataPrefix + t {
      assert StartsWith(frame, DataPrefix);
      assert FramePayload(frame).value == frame[|DataPrefix|..] == t;
    }
  }

  /** The text one frame contributes to the output: its payload, or
      nothing. */
  function FrameText(frame: string): string {
    if StartsWith(frame, DataPrefix) then frame[|DataPrefix|..] else ""
  }

  /** What a frame adds to the output is its payload when it has one. */
  lemma FrameTextIsPayload(frame: string)
    ensures FrameText(frame) == FramePayload(frame).OrElse("")
  {
  }

  /** Some frame carries a payload, even an empty one, so queueing it
      schedules a tick. */
  predicate HasPayloadFrame(frames: seq<string>) {
    exists j :: 0 <= j < |frames| && StartsWith(frames[j], DataPrefix)
  }

  /** The text the frames contribute, in order. */
  function Payloads(frames: seq<string>): string
    decreases |frames|
  {
    if |frames| == 0 then "" else Payloads(frames[..|frames| - 1]) + FrameText(frames[|frames| - 1])
  }

  /** One read of the stream: the buffer plus the new chunk, cut at every
      blank line; all pieces but the last are complete frames, the last is
      kept for the next read. Each cut is at the leftmost blank line, so a
      frame never ends in a newline that starts the blank line after it. */
  function Feed(buffer: string, chunk: string): (r: (seq<string>, string))
    ensures Join(r.0 + [r.1], FrameSeparator) == buffer + chunk
    ensures forall f :: f in r.0 ==> !Contains(f, FrameSeparator)
    ensures forall j :: 0 <= j < |r.0| ==> !Contains(r.0[j] + "\n", FrameSeparator)
    ensures !Contains(r.1, FrameSeparator)
  {
    var parts := Split(buffer + chunk, FrameSeparator);
    JoinSplit(buffer + chunk, FrameSeparator);
    SplitPiecesFree(buffer + chunk, FrameSeparator);
    SplitLeftmost(buffer + chunk, FrameSeparator);
    assert FrameSeparator[..|FrameSeparator| - 1] == "\n";
    assert parts == parts[..|parts| - 1] + [parts[|parts| - 1]];
    (parts[..|parts| - 1], parts[|parts| - 1])
  }

  /** Cutting the next read onto frames already cut keeps the whole text:
      the frames so far, joined by blank lines, and then the kept buffer,
      are everything received. */
  lemma {:induction false} FeedKeepsText(frames: seq<string>, buffer: string, chunk: string)
    ensures Join(frames + Feed(buffer, chunk).0 + [Feed(buffer, chunk).1], FrameSeparator) ==
      Join(frames + [buffer], FrameSeparator) + chunk
  {
    var cut, rest := Feed(buffer, chunk).0, Feed(buffer, chunk).1;
    if |frames| > 0 {
      assert frames + cut + [rest] == frames + (cut + [rest]);
      JoinAppend(frames, cut + [rest], FrameSeparator);
      JoinAppend(frames, [buffer], FrameSeparator);
      assert Join([buffer], FrameSeparator) == buffer;
    } else {
      assert frames + cut + [rest] == cut + [rest];
      assert frames + [buffer] == [buffer];
    }
  }

  /** The component's rendered state: every `useState` value. Each setter
      call replaces one field. */
  datatype Screen = Screen(
    entries: seq<Entry>,
    command: string,
    sessionId: Option<string>,
    busy: bool,
    cooldown: bool,
    cooldownUntil: int,
    error: Option<string>)

  const InitialScreen: Screen :=
    Screen([Entry("intro", System, IntroText)], "", None, false, false, 0, None)

  datatype SendOutcome =
    | Ignored
    | Deferred(payload: string)
    | Dispatched(payload: string)

  /** The terminal component: its rendered state and its refs. */
  class TerminalClient {
    var screen: Screen
    /** Text received but not yet typed. */
    var queue: string
    /** Whether a typing tick is scheduled. */
    var typing: bool
    var streamDone: bool
    var lastSent: int
    /** The reader's unfinished frame. */
    var buffer: string

    /** All text queued since the last reset, and the part of it typed. */
    ghost var enqueued: string
    ghost var typed: string
    /** The frames cut from the current stream so far. */
    ghost var frames: seq<string>

    /** Typed text followed by the queue is all queued text, and queued
        text always has a tick scheduled. */
    ghost predicate Valid()
      reads this
    {
      typed + queue == enqueued && (queue != "" ==> typing)
    }

    constructor ()
      ensures screen == InitialScreen
      ensures queue == "" && !typing && !streamDone && lastSent == 0 && buffer == ""
      ensures Valid()
    {
      screen := InitialScreen;
      queue := "";
      typing := false;
      streamDone := false;
      lastSent := 0;
      buffer := "";
      enqueued := "";
      typed := "";
      frames := [];
    }

    /** `pumpTyping()`: schedule a tick unless one is pending. */
    method PumpTyping()
      modifies this`typing
      requires typed + queue == enqueued
      ensures typing
      ensures Valid()
    {
      if !typing {
        typing := true;
      }
    }

    /** `enqueueText(text)`: queue the text and make sure a tick runs. */
    method EnqueueText(text: string)
      modifies this`queue, this`enqueued, this`typing
      requires Valid()
      ensures queue == old(queue) + text && enqueued == old(enqueued) + text && typing
      ensures Valid()
    {
      queue := queue + text;
      enqueued := enqueued + text;
      PumpTyping();
    }

    /** One typing tick. With text queued it moves the first character into
        the transcript and schedules the next tick; with none it stops, and
        clears `busy` once the stream has ended. */
    method Tick(freshId: string)
      modifies this`queue, this`typed, this`typing, this`screen
      requires Valid()
      ensures old(queue) == "" ==>
        !typing && queue == "" && typed == old(typed) &&
        screen == old(screen).(busy := old(screen).busy && !streamDone)
      ensures old(queue) != "" ==>
        queue == old(queue)[1..] && typed == old(typed) + [old(queue)[0]] && typing &&
        screen == old(screen).(entries := WithOutputChar(old(screen).entries, old(queue)[0], freshId))
      ensures Valid()
    {
      if |queue| == 0 {
        typing := false;
        if streamDone {
          screen := screen.(busy := false);
        }
        return;
      }
      var c := queue[0];
      assert typed + queue == (typed + [c]) + queue[1..];
      queue := queue[1..];
      typed := typed + [c];
      screen := screen.(entries := WithOutputChar(screen.entries, c, freshId));
      typing := true;
    }

    /** `handleSend(forcedCommand)` up to the request: the trimmed command
        (the forced one, else the input box) is dropped when empty or while
        busy, and otherwise attempted. */
    method Send(forced: Option<string>, now: int, freshId: string) returns (outcome: SendOutcome)
      modifies this`screen, this`lastSent, this`streamDone, this`buffer, this`frames
      ensures var payload := Trim(forced.OrElse(old(screen).command));
        (payload == "" || old(screen).busy) ==>
          outcome == Ignored && screen == old(screen) && lastSent == old(lastSent) &&
          streamDone == old(streamDone) && buffer == old(buffer) && frames == old(frames)
      ensures var payload := Trim(forced.OrElse(old(screen).command));
        (payload != "" && !old(screen).busy && now - old(lastSent) < CooldownMs) ==>
          outcome == Deferred(payload) &&
          screen == old(screen).(cooldown := true, cooldownUntil := now + CooldownMs,
            entries := old(screen).entries + [Entry(freshId, System, ProcessingText)]) &&
          lastSent == old(lastSent) && streamDone == old(streamDone) &&
          buffer == old(buffer) && frames == old(frames)
      ensures var payload := Trim(forced.OrElse(old(screen).command));
        (payload != "" && !old(screen).busy && now - old(lastSent) >= CooldownMs) ==>
          outcome == Dispatched(payload) &&
          screen == old(screen).(command := "", busy := true, error := None,
            entries := old(screen).entries + [Entry(freshId, Command, "$ " + payload)]) &&
          lastSent == now && !streamDone && buffer == "" && frames == []
    {
      var payload := Trim(forced.OrElse(screen.command));
      if payload == "" || screen.busy {
        return Ignored;
      }
      outcome := Attempt(payload, now, freshId);
    }

    /** The rest of `handleSend` once the guard has passed: within a second
        of the last send the command is deferred, with a notice and the
        cooldown set; otherwise it is sent, which opens a new stream. */
    method Attempt(payload: string, now: int, freshId: string) returns (outcome: SendOutcome)
      modifies this`screen, this`lastSent, this`streamDone, this`buffer, this`frames
      ensures now - old(lastSent) < CooldownMs ==>
        outcome == Deferred(payload) &&
        screen == old(screen).(cooldown := true, cooldownUntil := now + CooldownMs,
          entries := old(screen).entries + [Entry(freshId, System, ProcessingText)]) &&
        lastSent == old(lastSent) && streamDone == old(streamDone) &&
        buffer == old(buffer) && frames == old(frames)
      ensures now - old(lastSent) >= CooldownMs ==>
        outcome == Dispatched(payload) &&
        screen == old(screen).(command := "", busy := true, error := None,
          entries := old(screen).entries + [Entry(freshId, Command, "$ " + payload)]) &&
        lastSent == now && !streamDone && buffer == "" && frames == []
    {
      if now - lastSent < CooldownMs {
        screen := screen.(cooldown := true, cooldownUntil := now + CooldownMs,
          entries := screen.entries + [Entry(freshId, System, ProcessingText)]);
        return Deferred(payload);
      }
      lastSent := now;
      screen := screen.(command := "", busy := true, error := None,
        entries := screen.entries + [Entry(freshId, Command, "$ " + payload)]);
      streamDone := false;
      buffer := "";
      frames := [];
      return Dispatched(payload);
    }

    /** The deferred retry as written, a second later: the cooldown flag
        drops and the command is sent again by the `handleSend` of the render
        that deferred it, whose `busy` was false. So the busy guard is not
        consulted, and a retry that falls due while another command is
        streaming opens a second stream. */
    method RetryAsWritten(payload: string, now: int, freshId: string) returns (outcome: SendOutcome)
      modifies this`screen, this`lastSent, this`streamDone, this`buffer, this`frames
      ensures Trim(payload) == "" ==>
        outcome == Ignored && screen == old(screen).(cooldown := false) &&
        lastSent == old(lastSent) && streamDone == old(streamDone) &&
        buffer == old(buffer) && frames == old(frames)
      ensures Trim(payload) != "" && now - old(lastSent) < CooldownMs ==>
        outcome == Deferred(Trim(payload)) &&
        screen == old(screen).(cooldown := true, cooldownUntil := now + CooldownMs,
          entries := old(screen).entries + [Entry(freshId, System, ProcessingText)]) &&
        lastSent == old(lastSent) && streamDone == old(streamDone) &&
        buffer == old(buffer) && frames == old(frames)
      ensures Trim(payload) != "" && now - old(lastSent) >= CooldownMs ==>
        outcome == Dispatched(Trim(payload)) &&
        screen == old(screen).(cooldown := false, command := "", busy := true, error := None,
          entries := old(screen).entries + [Entry(freshId, Command, "$ " + Trim(payload))]) &&
        lastSent == now && !streamDone && buffer == "" && frames == []
    {
      screen := screen.(cooldown := false);
      var p := Trim(payload);
      if p == "" {
        return Ignored;
      }
      outcome := Attempt(p, now, freshId);
    }

    /** The retry as evidently intended: the current `busy` is consulted, so
        a retry does nothing while the terminal is busy. Only the kill
        switch, which clears `busy` without stopping a running stream, lets
        a later send open a second one. */
    method Retry(payload: string, now: int, freshId: string) returns (outcome: SendOutcome)
      modifies this`screen, this`lastSent, this`streamDone, this`buffer, this`frames
      ensures Trim(payload) == "" || old(screen).busy ==>
        outcome == Ignored && screen == old(screen).(cooldown := false) &&
        lastSent == old(lastSent) && streamDone == old(streamDone) &&
        buffer == old(buffer) && frames == old(frames)
      ensures Trim(payload) != "" && !old(screen).busy && now - old(lastSent) < CooldownMs ==>
        outcome == Deferred(Trim(payload)) &&
        screen == old(screen).(cooldown := true, cooldownUntil := now + CooldownMs,
          entries := old(screen).entries + [Entry(freshId, System, ProcessingText)]) &&
        lastSent == old(lastSent) && streamDone == old(streamDone) &&
        buffer == old(buffer) && frames == old(frames)
      ensures Trim(payload) != "" && !old(screen).busy && now - old(lastSent) >= CooldownMs ==>
        outcome == Dispatched(Trim(payload)) &&
        screen == old(screen).(cooldown := false, command := "", busy := true, error := None,
          entries := old(screen).entries + [Entry(freshId, Command, "$ " + Trim(payload))]) &&
        lastSent == now && !streamDone && buffer == "" && frames == []
    {
      screen := screen.(cooldown := false);
      outcome := Send(Some(payload), now, freshId);
    }

    /** A 429 answer: the cooldown starts again, a notice is shown, and the
        send ends with the cooling-down error. */
    method RateLimited(now: int, freshId: string)
      modifies this`screen
      ensures screen == old(screen).(cooldown := true, cooldownUntil := now + CooldownMs,
        entries := old(screen).entries + [Entry(freshId, System, RateLimitText)],
        busy := false, error := Some(CoolingDownError))
    {
      screen := screen.(cooldown := true, cooldownUntil := now + CooldownMs,
        entries := screen.entries + [Entry(freshId, System, RateLimitText)]);
      screen := screen.(busy := false, error := Some(CoolingDownError));
    }

    /** Any other failed request: the send ends with the unreachable error
        and a connection notice. */
    method BackendFailed(freshId: string)
      modifies this`screen
      ensures screen == old(screen).(busy := false, error := Some(UnreachableError),
        entries := old(screen).entries + [Entry(freshId, System, ConnectionFailedText)])
    {
      screen := screen.(busy := false, error := Some(UnreachableError));
      screen := screen.(entries := screen.entries + [Entry(freshId, System, ConnectionFailedText)]);
    }

    /** One chunk of the decoded stream: cut the buffer plus the chunk into
        frames, keep the unfinished tail, and queue the text of each "data: "
        frame in order. */
    method ReceiveChunk(chunk: string)
      modifies this`queue, this`enqueued, this`typing, this`buffer, this`frames
      requires Valid()
      ensures frames == old(frames) + Feed(old(buffer), chunk).0
      ensures buffer == Feed(old(buffer), chunk).1
      ensures queue == old(queue) + Payloads(Feed(old(buffer), chunk).0)
      ensures typing == (old(typing) || HasPayloadFrame(Feed(old(buffer), chunk).0))
      ensures Valid()
    {
      var cut, rest := Feed(buffer, chunk).0, Feed(buffer, chunk).1;
      var j := 0;
      while j < |cut|
        modifies this`queue, this`enqueued, this`typing
        invariant 0 <= j <= |cut|
        invariant queue == old(queue) + Payloads(cut[..j])
        invariant typing == (old(typing) || HasPayloadFrame(cut[..j]))
        invariant Valid()
      {
        PrefixStep(cut, j);
        ghost var done := Payloads(cut[..j]);
        var payload := FramePayload(cut[j]);
        if payload.Some? {
          EnqueueText(payload.value);
          AppendAssoc(old(queue), done, payload.value);
          assert queue == old(queue) + Payloads(cut[..j + 1]);
        } else {
          assert Payloads(cut[..j + 1]) == done + "" == done;
        }
        j := j + 1;
      }
      assert cut[..|cut|] == cut;
      buffer := rest;
      frames := frames + cut;
    }

    /** The whole stream, chunk after chunk: the frames cut, joined by blank
        lines and followed by the kept buffer, are exactly the text
        received, and the queue has grown by the text of the frames. */
    method ReceiveStream(chunks: seq<string>)
      modifies this`queue, this`enqueued, this`typing, this`buffer, this`frames
      requires Valid() && frames == [] && buffer == ""
      ensures Join(frames + [buffer], FrameSeparator) == Concat(chunks)
      ensures forall f :: f in frames ==> !Contains(f, FrameSeparator)
      ensures forall j :: 0 <= j < |frames| ==> !Contains(frames[j] + "\n", FrameSeparator)
      ensures !Contains(buffer, FrameSeparator)
      ensures frames + [buffer] == Split(Concat(chunks), FrameSeparator)
      ensures queue == old(queue) + Payloads(frames)
      ensures typing == (old(typing) || HasPayloadFrame(frames))
      ensures Valid()
    {
      var i := 0;
      assert Join([""], FrameSeparator) == "";
      while i < |chunks|
        invariant 0 <= i <= |chunks|
        invariant Valid()
        invariant Join(frames + [buffer], FrameSeparator) == Concat(chunks[..i])
        invariant forall f :: f in frames ==> !Contains(f, FrameSeparator)
        invariant forall j :: 0 <= j < |frames| ==> !Contains(frames[j] + "\n", FrameSeparator)
        invariant !Contains(buffer, FrameSeparator)
        invariant queue == old(queue) + Payloads(frames)
        invariant typing == (old(typing) || HasPayloadFrame(frames))
      {
        ghost var before, kept := frames, buffer;
        HasPayloadFrameAppend(before, Feed(kept, chunks[i]).0);
        StreamStep(before, kept, chunks, i);
        ReceiveChunk(chunks[i]);
        AppendAssoc(old(queue), Payloads(before), Payloads(Feed(kept, chunks[i]).0));
        i := i + 1;
      }
      assert chunks[..|chunks|] == chunks;
      FramesAreSplit(frames, buffer);
    }

    /** End of stream: a leftover "data: " frame is queued by the same rule,
        a non-empty session header becomes the session, and typing is told
        the stream is done. */
    method FinishStream(sessionHeader: Option<string>)
      modifies this`queue, this`enqueued, this`typing, this`screen, this`streamDone
      requires Valid()
      ensures queue == old(queue) + FramePayload(buffer).OrElse("")
      ensures sessionHeader.Some? && sessionHeader.value != "" ==>
        screen == old(screen).(sessionId := sessionHeader)
      ensures !(sessionHeader.Some? && sessionHeader.value != "") ==> screen == old(screen)
      ensures streamDone && typing
      ensures Valid()
    {
      var leftover := FramePayload(buffer);
      if leftover.Some? {
        EnqueueText(leftover.value);
      }
      if sessionHeader.Some? && sessionHeader.value != "" {
        screen := screen.(sessionId := sessionHeader);
      }
      streamDone := true;
      PumpTyping();
    }

    /** The cooldown interval's check: once the clock reaches the deadline
        the cooldown ends. */
    method CooldownCheck(now: int)
      modifies this`screen
      ensures old(screen).cooldownUntil != 0 && now >= old(screen).cooldownUntil ==>
        screen == old(screen).(cooldown := false, cooldownUntil := 0)
      ensures !(old(screen).cooldownUntil != 0 && now >= old(screen).cooldownUntil) ==>
        screen == old(screen)
    {
      if screen.cooldownUntil != 0 && now >= screen.cooldownUntil {
        screen := screen.(cooldown := false, cooldownUntil := 0);
      }
    }

    /** Ctrl+Shift+X. With a session, the reset request is awaited first;
        when it fails (`resetFailed`) the handler throws and nothing is
        reset. Otherwise the transcript becomes a single notice and the
        queue, the stream flag, the session, busy, the cooldown and the error
        are cleared. The input box, the last send time and a scheduled tick
        are left as they are. */
    method KillSwitch(freshId: string, resetFailed: bool)
      modifies this`queue, this`streamDone, this`screen, this`enqueued
      requires Valid()
      ensures var session := old(screen).sessionId;
        session.Some? && session.value != "" && resetFailed ==>
          screen == old(screen) && queue == old(queue) && streamDone == old(streamDone)
      ensures var session := old(screen).sessionId;
        !(session.Some? && session.value != "" && resetFailed) ==>
          screen == Screen([Entry(freshId, System, KillSwitchText)], old(screen).command,
            None, false, false, 0, None) &&
          queue == "" && !streamDone
      ensures Valid()
    {
      if screen.sessionId.Some? && screen.sessionId.value != "" && resetFailed {
        return;
      }
      queue := "";
      streamDone := false;
      screen := Screen([Entry(freshId, System, KillSwitchText)], screen.command, None, false, false, 0, None);
      enqueued := typed;
    }
  }

  /** One more frame of a run adds its payload, if any, to the text and
      counts as a payload frame exactly when it has one. */
  lemma PrefixStep(frames: seq<string>, j: nat)
    requires j < |frames|
    ensures Payloads(frames[..j + 1]) == Payloads(frames[..j]) + FramePayload(frames[j]).OrElse("")
    ensures HasPayloadFrame(frames[..j + 1]) <==>
      HasPayloadFrame(frames[..j]) || FramePayload(frames[j]).Some?
  {
    HasPayloadFrameSnoc(frames, j);
    assert frames[..j + 1][..j] == frames[..j];
    FrameTextIsPayload(frames[j]);
  }

  /** A prefix one frame longer has a payload frame exactly when the
      shorter one does or the new frame is one. */
  lemma HasPayloadFrameSnoc(frames: seq<string>, j: nat)
    requires j < |frames|
    ensures HasPayloadFrame(frames[..j + 1]) <==>
      HasPayloadFrame(frames[..j]) || StartsWith(frames[j], DataPrefix)
  {
    var longer := frames[..j + 1];
    if HasPayloadFrame(longer) {
      var k :| 0 <= k < |longer| && StartsWith(longer[k], DataPrefix);
      if k < j { assert frames[..j][k] == longer[k]; }
    }
    if HasPayloadFrame(frames[..j]) {
      var k :| 0 <= k < j && StartsWith(frames[..j][k], DataPrefix);
      assert longer[k] == frames[..j][k];
    }
    if StartsWith(frames[j], DataPrefix) {
      assert longer[j] == frames[j];
    }
  }

  /** Frames and a kept buffer with the properties a read keeps are the
      pieces `split("\n\n")` makes of their joined text. */
  lemma FramesAreSplit(frames: seq<string>, buffer: string)
    requires forall f :: f in frames ==> !Contains(f, FrameSeparator)
    requires forall j :: 0 <= j < |frames| ==> !Contains(frames[j] + "\n", FrameSeparator)
    requires !Contains(buffer, FrameSeparator)
    ensures frames + [buffer] == Split(Join(frames + [buffer], FrameSeparator), FrameSeparator)
  {
    PiecesFree(frames, buffer);
    PiecesLeftmost(frames, buffer);
    SplitUnique(frames + [buffer], FrameSeparator);
  }

  lemma PiecesFree(frames: seq<string>, buffer: string)
    requires forall f :: f in frames ==> !Contains(f, FrameSeparator)
    requires !Contains(buffer, FrameSeparator)
    ensures forall p :: p in frames + [buffer] ==> !Contains(p, FrameSeparator)
  {
  }

  lemma PiecesLeftmost(frames: seq<string>, buffer: string)
    requires forall j :: 0 <= j < |frames| ==> !Contains(frames[j] + "\n", FrameSeparator)
    ensures var ps := frames + [buffer];
      forall j :: 0 <= j < |ps| - 1 ==> !Contains(ps[j] + FrameSeparator[..|FrameSeparator| - 1], FrameSeparator)
  {
    assert FrameSeparator[..|FrameSeparator| - 1] == "\n";
    var ps := frames + [buffer];
    forall j | 0 <= j < |ps| - 1
      ensures !Contains(ps[j] + FrameSeparator[..|FrameSeparator| - 1], FrameSeparator)
    {
      assert ps[j] == frames[j];
    }
  }

  /** Two runs of frames have a payload frame exactly when one of them
      does. */
  lemma HasPayloadFrameAppend(xs: seq<string>, ys: seq<string>)
    ensures HasPayloadFrame(xs + ys) <==> HasPayloadFrame(xs) || HasPayloadFrame(ys)
  {
    if HasPayloadFrame(xs + ys) {
      var k :| 0 <= k < |xs + ys| && StartsWith((xs + ys)[k], DataPrefix);
      if k >= |xs| { assert ys[k - |xs|] == (xs + ys)[k]; }
    }
    if HasPayloadFrame(xs) {
      var k :| 0 <= k < |xs| && StartsWith(xs[k], DataPrefix);
      assert (xs + ys)[k] == xs[k];
    }
    if HasPayloadFrame(ys) {
      var k :| 0 <= k < |ys| && StartsWith(ys[k], DataPrefix);
      assert (xs + ys)[|xs| + k] == ys[k];
    }
  }

  /** The payloads of two runs of frames, one after the other. */
  lemma {:induction false} PayloadsAppend(xs: seq<string>, ys: seq<string>)
    ensures Payloads(xs + ys) == Payloads(xs) + Payloads(ys)
    decreases |ys|
  {
    if |ys| == 0 {
      assert xs + ys == xs;
      assert Payloads(ys) == "";
      assert Payloads(xs) + "" == Payloads(xs);
    } else {
      var front, last := ys[..|ys| - 1], ys[|ys| - 1];
      assert (xs + ys)[..|xs + ys| - 1] == xs + front && (xs + ys)[|xs + ys| - 1] == last;
      PayloadsAppend(xs, front);
      calc {
        Payloads(xs + ys);
        Payloads(xs + front) + FrameText(last);
        (Payloads(xs) + Payloads(front)) + FrameText(last);
        Payloads(xs) + (Payloads(front) + FrameText(last));
        Payloads(xs) + Payloads(ys);
      }
    }
  }

  /** One read keeps the stream's whole text and its payloads: the frames
      so far plus the read's frames and buffer join to the chunks up to and
      including this one. */
  lemma StreamStep(frames: seq<string>, buffer: string, chunks: seq<string>, i: nat)
    requires i < |chunks|
    requires Join(frames + [buffer], FrameSeparator) == Concat(chunks[..i])
    ensures Join(frames + Feed(buffer, chunks[i]).0 + [Feed(buffer, chunks[i]).1], FrameSeparator) ==
      Concat(chunks[..i + 1])
    ensures Payloads(frames + Feed(buffer, chunks[i]).0) == Payloads(frames) + Payloads(Feed(buffer, chunks[i]).0)
  {
    FeedKeepsText(frames, buffer, chunks[i]);
    ConcatSnoc(chunks, i);
    PayloadsAppend(frames, Feed(buffer, chunks[i]).0);
  }

  lemma ConcatSnoc(parts: seq<string>, i: nat)
    requires i < |parts|
    ensures Concat(parts[..i + 1]) == Concat(parts[..i]) + parts[i]
  {
    ConcatAt(parts[..i + 1], i);
    assert parts[..i + 1][..i] == parts[..i];
    assert parts[..i + 1][i + 1..] == [];
  }
}
