/** The dashboard's live stream: a client that keeps one event source open,
    reconnects with exponential backoff, and can be closed at any time, also by
    one of its own callbacks. */
module LiveUpdates {
  import opened Prelude

  datatype LiveState = Connecting | Live | Off

  datatype ReadyState = StillConnecting | IsOpen | IsClosed

  /** What the stream does to the outside world, in order. */
  datatype Effect =
    | Connect(source: nat)
    | CloseSource(source: nat)
    | Report(state: LiveState)
    | Deliver(run: string)
    | SetTimer(delay: nat)
    | ClearTimer
    | CloseCalled

  /** `connected` counts the sources opened so far, which also numbers them. */
  datatype Stream = Stream(
    source: Option<nat>,
    timer: bool,
    attempts: nat,
    closed: bool,
    connected: nat,
    log: seq<Effect>)

  /** What happens to the stream.  A `closes` flag says that the callback made
      during the event calls `close()`. */
  datatype Event =
    | TimerFires(closesInReport: bool, closesInConnect: bool)
    | SourceOpens(source: nat, closes: bool)
    | SourceFails(source: nat, readyState: ReadyState, closes: bool)
    | RunArrives(source: nat, parsed: Option<string>, closes: bool)
    | CloseIsCalled

  datatype Backoff = Backoff(baseMs: nat, capMs: nat)

  function Pow2(n: nat): (p: nat)
    ensures p > 0
  {
    if n == 0 then 1 else 2 * Pow2(n - 1)
  }

  function ReconnectDelay(b: Backoff, attempt: nat): nat {
    var delay := b.baseMs * Pow2(attempt);
    if delay < b.capMs then delay else b.capMs
  }

  // ----- The state machine --------------------------------------------------

  function Emit(s: Stream, e: Effect): Stream {
    s.(log := s.log + [e])
  }

  function Close(s: Stream): Stream {
    var s1 := Emit(s.(closed := true), CloseCalled);
    var s2 := if s1.timer then Emit(s1.(timer := false), ClearTimer) else s1;
    if s2.source.Some? then Emit(s2.(source := None), CloseSource(s2.source.value)) else s2
  }

  function CloseIf(closes: bool, s: Stream): Stream {
    if closes then Close(s) else s
  }

  function Open(s: Stream, closesInReport: bool, closesInConnect: bool): Stream {
    var s1 := s.(timer := false);
    if s1.closed then s1
    else
      var s2 := CloseIf(closesInReport, Emit(s1, Report(Connecting)));
      var s3 := CloseIf(closesInConnect, Emit(s2.(connected := s2.connected + 1), Connect(s2.connected)));
      s3.(source := Some(s2.connected))
  }

  function Start(): Stream {
    Open(Stream(None, false, 0, false, 0, []), false, false)
  }

  predicate Ignores(s: Stream, source: nat) {
    s.closed || s.source != Some(source)
  }

  function Reopen(s: Stream, b: Backoff): Stream {
    Emit(s.(timer := true), SetTimer(ReconnectDelay(b, s.attempts))).(attempts := s.attempts + 1)
  }

  function Fail(s: Stream, b: Backoff, source: nat, readyState: ReadyState, closes: bool): Stream {
    match readyState
    case StillConnecting => CloseIf(closes, Emit(s, Report(Connecting)))
    case IsOpen => s
    case IsClosed =>
      Reopen(CloseIf(closes, Emit(Emit(s, CloseSource(source)).(source := None), Report(Off))), b)
  }

  function Step(s: Stream, b: Backoff, e: Event): Stream {
    match e
    case TimerFires(inReport, inConnect) => if s.timer then Open(s, inReport, inConnect) else s
    case SourceOpens(k, closes) =>
      if Ignores(s, k) then s else CloseIf(closes, Emit(s.(attempts := 0), Report(Live)))
    case SourceFails(k, readyState, closes) => if Ignores(s, k) then s else Fail(s, b, k, readyState, closes)
    case RunArrives(k, parsed, closes) =>
      if Ignores(s, k) || parsed.None? then s else CloseIf(closes, Emit(s, Deliver(parsed.value)))
    case CloseIsCalled => Close(s)
  }

  function After(b: Backoff, run: seq<Event>): Stream {
    if run == [] then Start() else Step(After(b, run[..|run| - 1]), b, run[|run| - 1])
  }

  // ----- What the log says --------------------------------------------------

  function LastReport(log: seq<Effect>): Option<LiveState> {
    if log == [] then None
    else if log[|log| - 1].Report? then Some(log[|log| - 1].state)
    else LastReport(log[..|log| - 1])
  }

  /** How often the stream went off since it was last live. */
  function FailuresSinceLive(log: seq<Effect>): nat {
    if log == [] || log[|log| - 1] == Report(Live) then 0
    else FailuresSinceLive(log[..|log| - 1]) + if log[|log| - 1] == Report(Off) then 1 else 0
  }

  predicate IsCallback(e: Effect) {
    e.Connect? || e.Report? || e.Deliver?
  }

  predicate WasClosed(log: seq<Effect>) {
    log != [] && (log[|log| - 1] == CloseCalled || WasClosed(log[..|log| - 1]))
  }

  function ClosedSources(log: seq<Effect>): set<nat> {
    if log == [] then {}
    else
      var e := log[|log| - 1];
      ClosedSources(log[..|log| - 1]) + if e.CloseSource? then {e.source} else {}
  }

  /** No callback is made once `close()` has been called. */
  predicate Silent(log: seq<Effect>) {
    log == [] || (Silent(log[..|log| - 1]) && SilentStep(log[..|log| - 1], log[|log| - 1]))
  }

  predicate SilentStep(log: seq<Effect>, e: Effect) {
    WasClosed(log) ==> !IsCallback(e)
  }

  /** The k-th wait in a row is the base doubled k - 1 times, capped. */
  predicate BacksOff(b: Backoff, log: seq<Effect>) {
    log == [] || (BacksOff(b, log[..|log| - 1]) && BackoffIs(b, log[..|log| - 1], log[|log| - 1]))
  }

  predicate BackoffIs(b: Backoff, log: seq<Effect>, e: Effect) {
    e.SetTimer? ==> FailuresSinceLive(log) > 0 && e.delay == ReconnectDelay(b, FailuresSinceLive(log) - 1)
  }

  /** Whenever a source is opened, every earlier one has been closed. */
  predicate OneAtATime(log: seq<Effect>) {
    log == [] || (OneAtATime(log[..|log| - 1]) && OpensAlone(log[..|log| - 1], log[|log| - 1]))
  }

  predicate OpensAlone(log: seq<Effect>, e: Effect) {
    e.Connect? ==> forall k: nat :: k < e.source ==> k in ClosedSources(log)
  }

  /** What one more effect changes. */
  lemma EmitExtends(b: Backoff, log: seq<Effect>, e: Effect)
    ensures LastReport(log + [e]) == if e.Report? then Some(e.state) else LastReport(log)
    ensures FailuresSinceLive(log + [e]) ==
      if e == Report(Live) then 0 else FailuresSinceLive(log) + if e == Report(Off) then 1 else 0
    ensures WasClosed(log + [e]) <==> WasClosed(log) || e == CloseCalled
    ensures ClosedSources(log + [e]) == ClosedSources(log) + if e.CloseSource? then {e.source} else {}
    ensures BacksOff(b, log + [e]) <==> BacksOff(b, log) && BackoffIs(b, log, e)
    ensures OneAtATime(log + [e]) <==> OneAtATime(log) && OpensAlone(log, e)
    ensures Silent(log + [e]) <==> Silent(log) && SilentStep(log, e)
  {
    assert (log + [e])[..|log|] == log;
  }

  lemma {:induction false} WasClosedMeans(log: seq<Effect>)
    ensures WasClosed(log) <==> exists i :: 0 <= i < |log| && log[i] == CloseCalled
  {
    if log != [] {
      WasClosedMeans(log[..|log| - 1]);
    }
  }

  /** `Silent`, said of positions. */
  lemma {:induction false} SilentMeans(log: seq<Effect>)
    ensures Silent(log) <==> forall i, j :: 0 <= i < j < |log| && log[i] == CloseCalled ==> !IsCallback(log[j])
  {
    if log != [] {
      var n := |log| - 1;
      SilentMeans(log[..n]);
      WasClosedMeans(log[..n]);
    }
  }

  /** `BacksOff`, said of positions. */
  lemma {:induction false} BacksOffMeans(b: Backoff, log: seq<Effect>)
    ensures BacksOff(b, log) <==> forall i :: 0 <= i < |log| ==> BackoffIs(b, log[..i], log[i])
  {
    if log != [] {
      var n := |log| - 1;
      BacksOffMeans(b, log[..n]);
      assert forall i :: 0 <= i < n ==> log[..n][..i] == log[..i] && log[..n][i] == log[i];
    }
  }

  lemma {:induction false} ClosedSourcesMeans(log: seq<Effect>, k: nat)
    ensures k in ClosedSources(log) <==> exists i :: 0 <= i < |log| && log[i] == CloseSource(k)
  {
    if log != [] {
      ClosedSourcesMeans(log[..|log| - 1], k);
    }
  }

  /** `OneAtATime`, said of positions. */
  lemma {:induction false} OneAtATimeMeans(log: seq<Effect>)
    ensures OneAtATime(log) <==> forall i :: 0 <= i < |log| ==> OpensAlone(log[..i], log[i])
  {
    if log != [] {
      var n := |log| - 1;
      OneAtATimeMeans(log[..n]);
      assert forall i :: 0 <= i < n ==> log[..n][..i] == log[..i] && log[..n][i] == log[i];
    }
  }

  // ----- What every step keeps ----------------------------------------------

  /** While not closed, either a source is current or a reopen is pending; the
      last report is `Off` exactly while one is pending. */
  ghost predicate ReportsTruly(s: Stream) {
    && (s.source.Some? <==> !s.timer)
    && LastReport(s.log).Some?
    && (LastReport(s.log) == Some(Off) <==> s.timer)
  }

  /** Every source that is not current has been closed, and the current has not. */
  ghost predicate OthersClosed(s: Stream) {
    && (forall k: nat :: k < s.connected ==> s.source == Some(k) || k in ClosedSources(s.log))
    && (s.source.Some? ==> s.source.value < s.connected && s.source.value !in ClosedSources(s.log))
    && (forall k: nat :: k in ClosedSources(s.log) ==> k < s.connected)
  }

  /** What holds in the middle of a step as well. */
  ghost predicate LogIsSound(s: Stream, b: Backoff) {
    && (s.closed <==> WasClosed(s.log))
    && BacksOff(b, s.log) && OneAtATime(s.log) && OthersClosed(s)
  }

  ghost predicate Inv(s: Stream, b: Backoff) {
    && LogIsSound(s, b)
    && (!s.closed ==> ReportsTruly(s))
    && s.attempts == FailuresSinceLive(s.log)
  }

  /** Effects that are no callback leave the reports and the silence as they were. */
  ghost predicate Quiet(before: seq<Effect>, log: seq<Effect>) {
    && FailuresSinceLive(log) == FailuresSinceLive(before)
    && LastReport(log) == LastReport(before)
    && (Silent(before) ==> Silent(log))
    && before <= log
  }

  lemma MarkClosed(s: Stream, b: Backoff)
    requires LogIsSound(s, b)
    ensures LogIsSound(Emit(s.(closed := true), CloseCalled), b)
    ensures Quiet(s.log, s.log + [CloseCalled])
  {
    EmitExtends(b, s.log, CloseCalled);
  }

  lemma TimerKeeps(s: Stream, b: Backoff, e: Effect)
    requires LogIsSound(s, b)
    requires e.ClearTimer? || (e.SetTimer? && BackoffIs(b, s.log, e))
    ensures LogIsSound(Emit(s, e), b)
    ensures Quiet(s.log, s.log + [e])
  {
    EmitExtends(b, s.log, e);
  }

  lemma CloseSourceKeeps(s: Stream, b: Backoff)
    requires LogIsSound(s, b) && s.source.Some?
    ensures LogIsSound(Emit(s, CloseSource(s.source.value)).(source := None), b)
    ensures Quiet(s.log, s.log + [CloseSource(s.source.value)])
  {
    EmitExtends(b, s.log, CloseSource(s.source.value));
  }

  lemma ReportKeeps(s: Stream, b: Backoff, e: Effect)
    requires LogIsSound(s, b) && (e.Report? || e.Deliver?)
    ensures LogIsSound(Emit(s, e), b)
    ensures !s.closed && Silent(s.log) ==> Silent(s.log + [e])
    ensures LastReport(s.log + [e]) == if e.Report? then Some(e.state) else LastReport(s.log)
    ensures FailuresSinceLive(s.log + [e]) ==
      if e == Report(Live) then 0 else FailuresSinceLive(s.log) + if e == Report(Off) then 1 else 0
  {
    EmitExtends(b, s.log, e);
  }

  lemma ClearTimerKeeps(s: Stream, b: Backoff)
    requires LogIsSound(s, b)
    ensures
      var after := if s.timer then Emit(s.(timer := false), ClearTimer) else s;
      LogIsSound(after, b) && Quiet(s.log, after.log)
  {
    if s.timer {
      TimerKeeps(s.(timer := false), b, ClearTimer);
    }
  }

  lemma CloseKeeps(s: Stream, b: Backoff)
    requires LogIsSound(s, b)
    ensures LogIsSound(Close(s), b) && Quiet(s.log, Close(s).log)
    ensures Close(s).closed && !Close(s).timer && Close(s).source.None? && Close(s).attempts == s.attempts
    ensures Close(s).connected == s.connected
  {
    var s1 := Emit(s.(closed := true), CloseCalled);
    MarkClosed(s, b);
    var s2 := if s1.timer then Emit(s1.(timer := false), ClearTimer) else s1;
    ClearTimerKeeps(s1, b);
    if s2.source.Some? {
      CloseSourceKeeps(s2, b);
    }
  }

  lemma CloseIfKeeps(s: Stream, b: Backoff, closes: bool)
    requires LogIsSound(s, b)
    ensures LogIsSound(CloseIf(closes, s), b) && Quiet(s.log, CloseIf(closes, s).log)
    ensures CloseIf(closes, s).attempts == s.attempts && CloseIf(closes, s).connected == s.connected
    ensures CloseIf(closes, s).closed <==> s.closed || closes
    ensures CloseIf(closes, s).source == if closes then None else s.source
    ensures CloseIf(closes, s).timer <==> s.timer && !closes
  {
    if closes {
      CloseKeeps(s, b);
    }
  }

  /** A reopen whose own report of `Connecting` closes the stream. */
  predicate ClosesWhileReopening(s: Stream, e: Event) {
    e.TimerFires? && s.timer && !s.closed && e.closesInReport
  }

  lemma OpenKeeps(s: Stream, b: Backoff, inReport: bool, inConnect: bool)
    requires LogIsSound(s, b) && s.attempts == FailuresSinceLive(s.log) && (!s.closed ==> s.source.None?)
    ensures
      var after := Open(s, inReport, inConnect);
      && Inv(after, b)
      && (s.closed ==> after.log == s.log)
      && (!s.closed && Silent(s.log) ==> (Silent(after.log) <==> !inReport))
      && (!s.closed ==> after.source.Some?)
      && (after.closed <==> s.closed || inReport || inConnect)
  {
    var s1 := s.(timer := false);
    if !s.closed {
      var reported := Emit(s1, Report(Connecting));
      EmitExtends(b, s1.log, Report(Connecting));
      CloseKeeps(reported, b);
      var s2 := CloseIf(inReport, reported);
      assert LogIsSound(s2, b) && s2.source.None?;
      var connected := Emit(s2.(connected := s2.connected + 1), Connect(s2.connected));
      EmitExtends(b, s2.log, Connect(s2.connected));
      ConnectKeeps(s2, b, connected, inConnect);
    }
  }

  lemma ConnectKeeps(s: Stream, b: Backoff, connected: Stream, inConnect: bool)
    requires LogIsSound(s, b) && s.source.None? && !s.timer && s.attempts == FailuresSinceLive(s.log)
    requires !s.closed ==> LastReport(s.log) == Some(Connecting)
    requires connected == Emit(s.(connected := s.connected + 1), Connect(s.connected))
    ensures
      var after := CloseIf(inConnect, connected).(source := Some(s.connected));
      && Inv(after, b)
      && (Silent(s.log) ==> (Silent(after.log) <==> !s.closed))
      && (after.closed <==> s.closed || inConnect)
  {
    EmitExtends(b, s.log, Connect(s.connected));
    var closing := Emit(connected.(closed := true), CloseCalled);
    EmitExtends(b, connected.log, CloseCalled);
    assert Close(connected) == closing;
  }

  /** A report or delivery, whose callback may close the stream. */
  lemma CallbackKeeps(s: Stream, b: Backoff, e: Effect, closes: bool)
    requires LogIsSound(s, b) && !s.closed && s.source.Some? && !s.timer
    requires e == Report(Live) || e == Report(Connecting) || e.Deliver?
    requires s.attempts == if e == Report(Live) then 0 else FailuresSinceLive(s.log)
    requires e.Deliver? ==> LastReport(s.log).Some? && LastReport(s.log) != Some(Off)
    ensures Keeps(s, CloseIf(closes, Emit(s, e)), b, true, false)
  {
    ReportKeeps(s, b, e);
    CloseIfKeeps(Emit(s, e), b, closes);
  }

  /** What one event does: the invariant, whether it keeps the silence, and
      whether it leaves a source open behind `close()`. */
  ghost predicate Keeps(s: Stream, after: Stream, b: Backoff, silently: bool, leaks: bool) {
    && Inv(after, b)
    && s.log <= after.log
    && (Silent(s.log) ==> (Silent(after.log) <==> silently))
    && ((after.closed && after.source.Some?) <==> leaks)
  }

  lemma ReopenKeeps(s: Stream, b: Backoff)
    requires LogIsSound(s, b) && s.source.None?
    requires FailuresSinceLive(s.log) == s.attempts + 1 && LastReport(s.log) == Some(Off)
    ensures Inv(Reopen(s, b), b) && Quiet(s.log, Reopen(s, b).log)
  {
    TimerKeeps(s, b, SetTimer(ReconnectDelay(b, s.attempts)));
  }

  lemma ReportOffKeeps(s: Stream, b: Backoff, closes: bool)
    requires LogIsSound(s, b) && !s.closed && s.source.None? && s.attempts == FailuresSinceLive(s.log)
    ensures
      var after := CloseIf(closes, Emit(s, Report(Off)));
      && LogIsSound(after, b) && after.source.None? && after.attempts == s.attempts
      && FailuresSinceLive(after.log) == s.attempts + 1 && LastReport(after.log) == Some(Off)
      && (Silent(s.log) ==> Silent(after.log)) && s.log <= after.log
  {
    ReportKeeps(s, b, Report(Off));
    CloseIfKeeps(Emit(s, Report(Off)), b, closes);
  }

  /** With the failure reported, the reopen is scheduled. */
  lemma FailEnds(s: Stream, off: Stream, b: Backoff)
    requires LogIsSound(off, b) && off.source.None? && s.log <= off.log
    requires FailuresSinceLive(off.log) == off.attempts + 1 && LastReport(off.log) == Some(Off)
    requires Silent(s.log) ==> Silent(off.log)
    ensures Keeps(s, Reopen(off, b), b, true, false)
  {
    ReopenKeeps(off, b);
    if Silent(Reopen(off, b).log) {
      SilentPrefix(s.log, Reopen(off, b).log);
    }
  }

  lemma FailKeeps(s: Stream, b: Backoff, closes: bool)
    requires Inv(s, b) && !s.closed && s.source.Some?
    ensures Keeps(s, Fail(s, b, s.source.value, IsClosed, closes), b, true, false)
  {
    var s1 := Emit(s, CloseSource(s.source.value)).(source := None);
    var after := Reopen(CloseIf(closes, Emit(s1, Report(Off))), b);
    assert Fail(s, b, s.source.value, IsClosed, closes) == after;
    assert Keeps(s, after, b, true, false) by {
      CloseSourceKeeps(s, b);
      FailFrom(s, s1, b, closes);
    }
  }

  lemma FailFrom(s: Stream, s1: Stream, b: Backoff, closes: bool)
    requires LogIsSound(s1, b) && !s1.closed && s1.source.None? && s1.attempts == FailuresSinceLive(s1.log)
    requires Quiet(s.log, s1.log)
    ensures Keeps(s, Reopen(CloseIf(closes, Emit(s1, Report(Off))), b), b, true, false)
  {
    var off := CloseIf(closes, Emit(s1, Report(Off)));
    ReportOffKeeps(s1, b, closes);
    FailEnds(s, off, b);
  }

  lemma SourceEventKeeps(s: Stream, b: Backoff, k: nat, e: Event)
    requires Inv(s, b) && !Ignores(s, k)
    requires e.SourceOpens? || e.SourceFails? || e.RunArrives?
    requires e.source == k
    ensures Keeps(s, Step(s, b, e), b, true, false)
  {
    match e
    case SourceOpens(_, closes) =>
      CallbackKeeps(s.(attempts := 0), b, Report(Live), closes);
    case SourceFails(_, readyState, closes) =>
      if readyState.StillConnecting? {
        CallbackKeeps(s, b, Report(Connecting), closes);
      } else if readyState.IsClosed? {
        FailKeeps(s, b, closes);
      }
    case RunArrives(_, parsed, closes) =>
      if parsed.Some? {
        CallbackKeeps(s, b, Deliver(parsed.value), closes);
      }
    case _ =>
  }

  /** A reopen that is closed from one of its own callbacks. */
  predicate LeaksSource(s: Stream, e: Event) {
    e.TimerFires? && s.timer && !s.closed && (e.closesInReport || e.closesInConnect)
  }

  predicate Abandoned(s: Stream) {
    s.closed && s.source.Some?
  }

  /** One event: the invariant holds; silence after `close()` is broken, and a
      source left open behind it, by exactly the reopens that close themselves. */
  lemma StepKeeps(s: Stream, b: Backoff, e: Event)
    requires Inv(s, b)
    ensures Inv(Step(s, b, e), b) && s.log <= Step(s, b, e).log
    ensures Silent(s.log) ==> (Silent(Step(s, b, e).log) <==> !ClosesWhileReopening(s, e))
    ensures !Abandoned(s) ==> (Abandoned(Step(s, b, e)) <==> LeaksSource(s, e))
  {
    match e
    case TimerFires(inReport, inConnect) =>
      if s.timer {
        OpenKeeps(s, b, inReport, inConnect);
      }
    case CloseIsCalled => CloseKeeps(s, b);
    case _ =>
      if !Ignores(s, e.source) {
        SourceEventKeeps(s, b, e.source, e);
      }
  }

  // ----- Main results -------------------------------------------------------

  lemma {:induction false} InvHolds(b: Backoff, run: seq<Event>)
    ensures Inv(After(b, run), b)
  {
    if run == [] {
      OpenKeeps(Stream(None, false, 0, false, 0, []), b, false, false);
    } else {
      InvHolds(b, run[..|run| - 1]);
      StepKeeps(After(b, run[..|run| - 1]), b, run[|run| - 1]);
    }
  }

  /** In every reachable state that is not closed: exactly one of current source
      and pending reopen is set, the last report is `Off` exactly while a reopen
      is pending, and no other source is left open. */
  lemma OneOfSourceAndTimer(b: Backoff, run: seq<Event>)
    ensures
      var s := After(b, run);
      && (!s.closed ==> (s.source.Some? <==> !s.timer))
      && (!s.closed ==> (LastReport(s.log) == Some(Off) <==> s.timer))
      && (forall k: nat :: k < s.connected && s.source != Some(k) ==> k in ClosedSources(s.log))
  {
    InvHolds(b, run);
  }

  /** Never two sources at once, and each wait in a row doubles up to the cap. */
  lemma BacksOffOneAtATime(b: Backoff, run: seq<Event>)
    ensures BacksOff(b, After(b, run).log) && OneAtATime(After(b, run).log)
    ensures After(b, run).attempts == FailuresSinceLive(After(b, run).log)
  {
    InvHolds(b, run);
  }

  lemma {:induction false} SilentPrefix(log: seq<Effect>, longer: seq<Effect>)
    requires log <= longer && Silent(longer)
    ensures Silent(log)
  {
    if |log| < |longer| {
      var n := |longer| - 1;
      assert longer[..n][..|log|] == log;
      SilentPrefix(log, longer[..n]);
    } else {
      assert log == longer;
    }
  }

  ghost predicate NeverClosedWhileReopening(b: Backoff, run: seq<Event>) {
    forall i :: 0 <= i < |run| ==> !ClosesWhileReopening(After(b, run[..i]), run[i])
  }

  lemma NeverClosedExtends(b: Backoff, run: seq<Event>)
    requires run != []
    ensures
      var n := |run| - 1;
      NeverClosedWhileReopening(b, run) <==>
        NeverClosedWhileReopening(b, run[..n]) && !ClosesWhileReopening(After(b, run[..n]), run[n])
  {
    var n := |run| - 1;
    assert run == run[..n] + [run[n]];
    assert forall i :: 0 <= i < n ==> run[..n][..i] == run[..i] && run[..n][i] == run[i];
  }

  /** After `close()` no connect, state or run callback is ever made, if and only
      if no reopen was closed from its own report of `Connecting`. */
  lemma {:induction false} SilentIffNotClosedWhileReopening(b: Backoff, run: seq<Event>)
    ensures Silent(After(b, run).log) <==> NeverClosedWhileReopening(b, run)
  {
    if run == [] {
      OpenKeeps(Stream(None, false, 0, false, 0, []), b, false, false);
    } else {
      var n := |run| - 1;
      var s := After(b, run[..n]);
      SilentIffNotClosedWhileReopening(b, run[..n]);
      NeverClosedExtends(b, run);
      InvHolds(b, run[..n]);
      StepKeeps(s, b, run[n]);
      if Silent(After(b, run).log) {
        SilentPrefix(s.log, After(b, run).log);
      }
    }
  }

  /** One event leaves a source open behind `close()` exactly when it is a reopen
      that one of its own callbacks closes. */
  lemma LeaksExactly(b: Backoff, run: seq<Event>, e: Event)
    requires !Abandoned(After(b, run))
    ensures Abandoned(After(b, run + [e])) <==> LeaksSource(After(b, run), e)
  {
    InvHolds(b, run);
    StepKeeps(After(b, run), b, e);
    assert (run + [e])[..|run|] == run;
  }

  /** Such a run: the first source fails for good, and the reopen's report of
      `Connecting` closes the stream; the reopen connects all the same. */
  lemma ConnectsAfterClose(b: Backoff)
    ensures
      var s := After(b, [SourceFails(0, IsClosed, false)] + [TimerFires(true, false)]);
      s.closed && s.source == Some(1) && !Silent(s.log)
  {
    var first, second := SourceFails(0, IsClosed, false), TimerFires(true, false);
    assert ([first] + [second])[..1] == [first] && [first][..0] == [];
    var s := After(b, [first]);
    assert s == Step(After(b, []), b, first);
    assert s.timer && s.source.None? && !s.closed;
    var i, j := |s.log| + 1, |s.log| + 2;
    var log := Step(s, b, second).log;
    assert log[i] == CloseCalled && log[j] == Connect(1);
  }

  // ----- The waits, one after the other -------------------------------------

  /** The wait since the stream was last live that comes last. */
  function LastWait(log: seq<Effect>): Option<nat> {
    if log == [] || log[|log| - 1] == Report(Live) then None
    else if log[|log| - 1].SetTimer? then Some(log[|log| - 1].delay)
    else LastWait(log[..|log| - 1])
  }

  /** Each wait is what the one before makes it. */
  predicate Doubles(b: Backoff, log: seq<Effect>) {
    log == [] || (Doubles(b, log[..|log| - 1]) && DoublesNext(b, log[..|log| - 1], log[|log| - 1]))
  }

  predicate DoublesNext(b: Backoff, log: seq<Effect>, e: Effect) {
    e.SetTimer? ==>
      match LastWait(log)
      case None => e.delay == if b.baseMs <= b.capMs then b.baseMs else b.capMs
      case Some(delay) => e.delay == if 2 * delay <= b.capMs then 2 * delay else b.capMs
  }

  /** The attempts counted are those that the last wait tells. */
  ghost predicate CountsWaits(s: Stream, b: Backoff) {
    && Doubles(b, s.log)
    && match LastWait(s.log)
       case None => s.attempts == 0
       case Some(delay) => s.attempts > 0 && delay == ReconnectDelay(b, s.attempts - 1)
  }

  lemma EmitKeepsCount(s: Stream, b: Backoff, e: Effect)
    requires CountsWaits(s, b) && !e.SetTimer? && e != Report(Live)
    ensures CountsWaits(Emit(s, e), b)
  {
    assert (s.log + [e])[..|s.log|] == s.log;
  }

  lemma LiveStartsOver(s: Stream, b: Backoff)
    requires CountsWaits(s, b)
    ensures CountsWaits(Emit(s.(attempts := 0), Report(Live)), b)
  {
    assert (s.log + [Report(Live)])[..|s.log|] == s.log;
  }

  lemma NextDelay(b: Backoff, attempt: nat)
    ensures ReconnectDelay(b, 0) == if b.baseMs <= b.capMs then b.baseMs else b.capMs
    ensures
      var delay := ReconnectDelay(b, attempt);
      ReconnectDelay(b, attempt + 1) == if 2 * delay <= b.capMs then 2 * delay else b.capMs
  {
    assert b.baseMs * Pow2(attempt + 1) == 2 * (b.baseMs * Pow2(attempt));
    assert b.baseMs * Pow2(0) == b.baseMs;
  }

  lemma ReopenKeepsCount(s: Stream, b: Backoff)
    requires CountsWaits(s, b)
    ensures CountsWaits(Reopen(s, b), b)
  {
    var e := SetTimer(ReconnectDelay(b, s.attempts));
    NextDelay(b, if s.attempts > 0 then s.attempts - 1 else 0);
    assert (s.log + [e])[..|s.log|] == s.log;
  }

  lemma CloseKeepsCount(s: Stream, b: Backoff)
    requires CountsWaits(s, b)
    ensures CountsWaits(Close(s), b)
  {
    var s1 := Emit(s.(closed := true), CloseCalled);
    EmitKeepsCount(s.(closed := true), b, CloseCalled);
    var s2 := if s1.timer then Emit(s1.(timer := false), ClearTimer) else s1;
    EmitKeepsCount(s1.(timer := false), b, ClearTimer);
    if s2.source.Some? {
      EmitKeepsCount(s2, b, CloseSource(s2.source.value));
    }
  }

  lemma CloseIfKeepsCount(s: Stream, b: Backoff, closes: bool)
    requires CountsWaits(s, b)
    ensures CountsWaits(CloseIf(closes, s), b)
  {
    CloseKeepsCount(s, b);
  }

  lemma ConnectKeepsCount(s: Stream, b: Backoff, inConnect: bool)
    requires CountsWaits(s, b)
    ensures CountsWaits(CloseIf(inConnect, Emit(s.(connected := s.connected + 1), Connect(s.connected))), b)
  {
    EmitKeepsCount(s.(connected := s.connected + 1), b, Connect(s.connected));
    CloseIfKeepsCount(Emit(s.(connected := s.connected + 1), Connect(s.connected)), b, inConnect);
  }

  lemma OpenKeepsCount(s: Stream, b: Backoff, inReport: bool, inConnect: bool)
    requires CountsWaits(s, b)
    ensures CountsWaits(Open(s, inReport, inConnect), b)
  {
    if !s.closed {
      var reported := CloseIf(inReport, Emit(s.(timer := false), Report(Connecting)));
      assert CountsWaits(reported, b) by {
        EmitKeepsCount(s.(timer := false), b, Report(Connecting));
        CloseIfKeepsCount(Emit(s.(timer := false), Report(Connecting)), b, inReport);
      }
      ConnectKeepsCount(reported, b, inConnect);
    }
  }

  lemma FailKeepsCount(s: Stream, b: Backoff, source: nat, readyState: ReadyState, closes: bool)
    requires CountsWaits(s, b)
    ensures CountsWaits(Fail(s, b, source, readyState, closes), b)
  {
    EmitKeepsCount(s, b, Report(Connecting));
    CloseIfKeepsCount(Emit(s, Report(Connecting)), b, closes);
    var s1 := Emit(s, CloseSource(source)).(source := None);
    EmitKeepsCount(s, b, CloseSource(source));
    EmitKeepsCount(s1, b, Report(Off));
    CloseIfKeepsCount(Emit(s1, Report(Off)), b, closes);
    ReopenKeepsCount(CloseIf(closes, Emit(s1, Report(Off))), b);
  }

  lemma StepKeepsCount(s: Stream, b: Backoff, e: Event)
    requires CountsWaits(s, b)
    ensures CountsWaits(Step(s, b, e), b)
  {
    match e
    case TimerFires(inReport, inConnect) => OpenKeepsCount(s, b, inReport, inConnect);
    case SourceOpens(_, closes) =>
      LiveStartsOver(s, b);
      CloseIfKeepsCount(Emit(s.(attempts := 0), Report(Live)), b, closes);
    case SourceFails(k, readyState, closes) => FailKeepsCount(s, b, k, readyState, closes);
    case RunArrives(_, parsed, closes) =>
      if parsed.Some? {
        EmitKeepsCount(s, b, Deliver(parsed.value));
        CloseIfKeepsCount(Emit(s, Deliver(parsed.value)), b, closes);
      }
    case CloseIsCalled => CloseKeepsCount(s, b);
  }

  lemma {:induction false} WaitsCounted(b: Backoff, run: seq<Event>)
    ensures CountsWaits(After(b, run), b)
  {
    if run == [] {
      OpenKeepsCount(Stream(None, false, 0, false, 0, []), b, false, false);
    } else {
      WaitsCounted(b, run[..|run| - 1]);
      StepKeepsCount(After(b, run[..|run| - 1]), b, run[|run| - 1]);
    }
  }

  /** The wait at `j` is the last before `i`, and the stream was not live between. */
  predicate FollowsWait(log: seq<Effect>, j: nat, i: nat)
    requires i <= |log|
  {
    j < i && log[j].SetTimer? && forall k :: j < k < i ==> !log[k].SetTimer? && log[k] != Report(Live)
  }

  /** The stream has waited since it was last live. */
  predicate HasWaited(log: seq<Effect>, i: nat)
    requires i <= |log|
  {
    exists j :: 0 <= j < i && log[j].SetTimer? && forall k :: j < k < i ==> log[k] != Report(Live)
  }

  lemma {:induction false} LastWaitMeans(log: seq<Effect>, i: nat)
    requires i <= |log|
    ensures LastWait(log[..i]).None? ==> !HasWaited(log, i)
    ensures LastWait(log[..i]).Some? ==> HasWaited(log, i)
    ensures forall j :: 0 <= j < i && FollowsWait(log, j, i) ==> LastWait(log[..i]) == Some(log[j].delay)
  {
    if i > 0 {
      LastWaitMeans(log, i - 1);
      assert log[..i][..i - 1] == log[..i - 1];
    }
  }

  lemma {:induction false} DoublesAt(b: Backoff, log: seq<Effect>, i: nat)
    requires Doubles(b, log) && i < |log|
    ensures DoublesNext(b, log[..i], log[i])
  {
    if i < |log| - 1 {
      assert log[..|log| - 1][..i] == log[..i];
      DoublesAt(b, log[..|log| - 1], i);
    }
  }

  /** In every run: no wait is longer than the cap; the first since the stream
      began or was last live is the base, and each further one is twice the one
      before, up to the cap. */
  lemma WaitsDouble(b: Backoff, run: seq<Event>, i: nat)
    requires i < |After(b, run).log| && After(b, run).log[i].SetTimer?
    ensures
      var log := After(b, run).log;
      && log[i].delay <= b.capMs
      && (!HasWaited(log, i) ==> log[i].delay == if b.baseMs <= b.capMs then b.baseMs else b.capMs)
      && forall j :: 0 <= j < i && FollowsWait(log, j, i) ==>
           log[i].delay == if 2 * log[j].delay <= b.capMs then 2 * log[j].delay else b.capMs
  {
    WaitsCounted(b, run);
    DoublesAt(b, After(b, run).log, i);
    LastWaitMeans(After(b, run).log, i);
  }

  // ----- Behind `close()` ---------------------------------------------------

  /** Nothing in `log` from position `from` on is a callback. */
  ghost predicate NoCallbackFrom(log: seq<Effect>, from: nat) {
    forall i :: from <= i < |log| ==> !IsCallback(log[i])
  }

  lemma ClosingMakesNoCallback(s: Stream)
    ensures Close(s).log == s.log + [CloseCalled] + (if s.timer then [ClearTimer] else [])
      + (if s.source.Some? then [CloseSource(s.source.value)] else [])
    ensures s.log <= Close(s).log && NoCallbackFrom(Close(s).log, |s.log|)
  {
  }

  lemma ClosedStaysQuiet(s: Stream, b: Backoff, e: Event)
    requires s.closed
    ensures
      var after := Step(s, b, e);
      after.closed && s.log <= after.log && NoCallbackFrom(after.log, |s.log|)
  {
  }

  /** Once the event in which `close()` was called is over, no connect, state or
      run callback is ever made, whatever happens. */
  lemma {:induction false} NothingAfterTheClosingEvent(b: Backoff, run: seq<Event>, more: seq<Event>)
    requires After(b, run).closed
    ensures
      var before, after := After(b, run), After(b, run + more);
      after.closed && before.log <= after.log && NoCallbackFrom(after.log, |before.log|)
  {
    if more == [] {
      assert run + more == run;
    } else {
      var n := |more| - 1;
      NothingAfterTheClosingEvent(b, run, more[..n]);
      assert (run + more)[..|run + more| - 1] == run + more[..n];
      ClosedStaysQuiet(After(b, run + more[..n]), b, more[n]);
    }
  }

  /** A reopen that `close()` did not cancel. */
  predicate Overdue(s: Stream) {
    s.closed && s.timer
  }

  /** A failure for good whose own report of `Off` closes the stream. */
  predicate LeavesTimer(s: Stream, e: Event) {
    e.SourceFails? && !Ignores(s, e.source) && e.readyState.IsClosed? && e.closes
  }

  lemma StepLeavesTimer(s: Stream, b: Backoff, e: Event)
    requires !Overdue(s)
    ensures Overdue(Step(s, b, e)) <==> LeavesTimer(s, e)
  {
  }

  /** The reopen that is left fires without any effect. */
  lemma OverdueReopenDoesNothing(s: Stream, b: Backoff, inReport: bool, inConnect: bool)
    requires Overdue(s)
    ensures Step(s, b, TimerFires(inReport, inConnect)) == s.(timer := false)
  {
  }

  ghost predicate NeverClosedWhileFailing(b: Backoff, run: seq<Event>) {
    forall i :: 0 <= i < |run| ==> !LeavesTimer(After(b, run[..i]), run[i])
  }

  ghost predicate NeverOverdue(b: Backoff, run: seq<Event>) {
    forall i :: 0 <= i <= |run| ==> !Overdue(After(b, run[..i]))
  }

  lemma AfterNext(b: Backoff, run: seq<Event>, i: nat)
    requires i < |run|
    ensures After(b, run[..i + 1]) == Step(After(b, run[..i]), b, run[i])
  {
    assert run[..i + 1][..i] == run[..i];
  }

  lemma {:induction false} NotOverdueUpTo(b: Backoff, run: seq<Event>, i: nat)
    requires NeverClosedWhileFailing(b, run) && i <= |run|
    ensures !Overdue(After(b, run[..i]))
  {
    if i > 0 {
      NotOverdueUpTo(b, run, i - 1);
      AfterNext(b, run, i - 1);
      StepLeavesTimer(After(b, run[..i - 1]), b, run[i - 1]);
    }
  }

  /** `close()` leaves no reopen pending at any point of a run, if and only if no
      failure for good was closed from its own report of `Off`. */
  lemma CancelsTheReopenIff(b: Backoff, run: seq<Event>)
    ensures NeverOverdue(b, run) <==> NeverClosedWhileFailing(b, run)
  {
    if NeverClosedWhileFailing(b, run) {
      forall i | 0 <= i <= |run| ensures !Overdue(After(b, run[..i])) {
        NotOverdueUpTo(b, run, i);
      }
    }
    if NeverOverdue(b, run) {
      forall i | 0 <= i < |run| ensures !LeavesTimer(After(b, run[..i]), run[i]) {
        AfterNext(b, run, i);
        StepLeavesTimer(After(b, run[..i]), b, run[i]);
        assert !Overdue(After(b, run[..i])) && !Overdue(After(b, run[..i + 1]));
      }
    }
  }

  /** Such a run: the first source fails for good and the report of `Off` closes
      the stream; the reopen is scheduled all the same. */
  lemma ReopenOutlivesClose(b: Backoff)
    ensures
      var s := After(b, [SourceFails(0, IsClosed, true)]);
      && Overdue(s)
      && s.log == [Report(Connecting), Connect(0), CloseSource(0), Report(Off), CloseCalled, SetTimer(ReconnectDelay(b, 0))]
  {
    var e := SourceFails(0, IsClosed, true);
    assert [e][..0] == [];
    assert After(b, [e]) == Step(Start(), b, e);
  }
}
