/** The live stream as an object, driven by its timer and its sources; a callback
    may call `close()` before it returns. */
module LiveStream {
  import opened Prelude
  import L = LiveUpdates

  class LiveStream {
    const backoff: L.Backoff
    var source: Option<nat>
    var timer: bool
    var attempts: nat
    var closed: bool
    var connected: nat
    var log: seq<L.Effect>

    /** Everything that has happened to the stream. */
    ghost var run: seq<L.Event>

    function Snapshot(): L.Stream
      reads this
    {
      L.Stream(source, timer, attempts, closed, connected, log)
    }

    /** The object is where the state machine is after the same events. */
    ghost predicate Valid()
      reads this
    {
      Snapshot() == L.After(backoff, run)
    }

    /** What the user of a stream can rely on between any two events. */
    ghost predicate Promises()
      reads this
    {
      && (!closed ==> (source.Some? <==> !timer))
      && (!closed ==> (L.LastReport(log) == Some(L.Off) <==> timer))
      && (source.Some? ==> source.value < connected)
      && (forall k: nat :: k < connected && source != Some(k) ==> k in L.ClosedSources(log))
      && L.BacksOff(backoff, log) && L.Doubles(backoff, log) && L.OneAtATime(log)
      && (L.Silent(log) <==> L.NeverClosedWhileReopening(backoff, run))
    }

    lemma Keeps()
      requires Valid()
      ensures Promises()
    {
      L.InvHolds(backoff, run);
      L.OneOfSourceAndTimer(backoff, run);
      L.BacksOffOneAtATime(backoff, run);
      L.WaitsCounted(backoff, run);
      L.SilentIffNotClosedWhileReopening(backoff, run);
    }

    /** One more event has been handled as the state machine does. */
    lemma Advances(before: L.Stream, earlier: seq<L.Event>, e: L.Event)
      requires before == L.After(backoff, earlier) && run == earlier + [e]
      requires Snapshot() == L.Step(before, backoff, e)
      ensures Valid() && Promises()
      ensures before.closed ==> closed && before.log <= log && L.NoCallbackFrom(log, |before.log|)
    {
      assert run[..|run| - 1] == earlier;
      Keeps();
      if before.closed {
        L.ClosedStaysQuiet(before, backoff, e);
      }
    }

    constructor (backoff: L.Backoff)
      ensures this.backoff == backoff && run == [] && Valid() && Promises()
      ensures !closed && source == Some(0) && log == [L.Report(L.Connecting), L.Connect(0)]
    {
      this.backoff := backoff;
      source, timer, attempts, closed, connected, log := None, false, 0, false, 0, [];
      run := [];
      new;
      Open(false, false);
      Keeps();
    }

    // ----- What the handlers are made of --------------------------------------

    method Report(state: L.LiveState, closes: bool)
      modifies this
      ensures run == old(run) && Snapshot() == L.CloseIf(closes, L.Emit(old(Snapshot()), L.Report(state)))
      ensures old(log) + [L.Report(state)] <= log && attempts == old(attempts) && (closed <==> old(closed) || closes)
      ensures !closes ==> log == old(log) + [L.Report(state)] && source == old(source)
    {
      log := log + [L.Report(state)];
      if closes {
        CloseNow();
      }
    }

    method Deliver(created: string, closes: bool)
      modifies this
      ensures run == old(run) && Snapshot() == L.CloseIf(closes, L.Emit(old(Snapshot()), L.Deliver(created)))
      ensures old(log) + [L.Deliver(created)] <= log && attempts == old(attempts) && (closed <==> old(closed) || closes)
      ensures !closes ==> log == old(log) + [L.Deliver(created)] && source == old(source)
    {
      log := log + [L.Deliver(created)];
      if closes {
        CloseNow();
      }
    }

    method Connect(closes: bool) returns (next: nat)
      modifies this
      ensures next == old(connected) && run == old(run)
      ensures Snapshot() == L.CloseIf(closes,
        L.Emit(old(Snapshot()).(connected := old(connected) + 1), L.Connect(old(connected))))
    {
      next := connected;
      connected := connected + 1;
      log := log + [L.Connect(next)];
      if closes {
        CloseNow();
      }
    }

    method Open(closesInReport: bool, closesInConnect: bool)
      modifies this
      ensures run == old(run) && Snapshot() == L.Open(old(Snapshot()), closesInReport, closesInConnect)
    {
      timer := false;
      if closed {
        return;
      }
      Report(L.Connecting, closesInReport);
      var next := Connect(closesInConnect);
      source := Some(next);
    }

    method CloseNow()
      modifies this
      ensures run == old(run) && Snapshot() == L.Close(old(Snapshot()))
    {
      closed := true;
      log := log + [L.CloseCalled];
      if timer {
        log := log + [L.ClearTimer];
      }
      timer := false;
      if source.Some? {
        log := log + [L.CloseSource(source.value)];
      }
      source := None;
    }

    /** What a failure for good does to the outside world, in order. */
    function GivenUp(next: nat, closes: bool, attempts: nat): seq<L.Effect> {
      [L.CloseSource(next), L.Report(L.Off)] + (if closes then [L.CloseCalled] else [])
      + [L.SetTimer(L.ReconnectDelay(backoff, attempts))]
    }

    method FailForGood(next: nat, closes: bool)
      modifies this
      ensures run == old(run) && Snapshot() == L.Fail(old(Snapshot()), backoff, next, L.IsClosed, closes)
      ensures timer && source.None? && connected == old(connected)
      ensures attempts == old(attempts) + 1 && (closed <==> old(closed) || closes)
      ensures !old(timer) ==> log == old(log) + GivenUp(next, closes, old(attempts))
    {
      log := log + [L.CloseSource(next)];
      source := None;
      Report(L.Off, closes);
      timer := true;
      log := log + [L.SetTimer(L.ReconnectDelay(backoff, attempts))];
      attempts := attempts + 1;
    }

    method HandleError(next: nat, readyState: L.ReadyState, closes: bool)
      modifies this
      ensures run == old(run)
      ensures Snapshot() == L.Step(old(Snapshot()), backoff, L.SourceFails(next, readyState, closes))
      ensures connected == old(connected)
      ensures !old(closed || source != Some(next)) && readyState.IsClosed? ==>
        && timer && source.None? && attempts == old(attempts) + 1 && (closed <==> closes)
        && (!old(timer) ==> log == old(log) + GivenUp(next, closes, old(attempts)))
    {
      if closed || source != Some(next) {
        return;
      }
      if readyState == L.StillConnecting {
        Report(L.Connecting, closes);
        return;
      }
      if readyState == L.IsClosed {
        FailForGood(next, closes);
      }
    }

    // ----- Events -------------------------------------------------------------

    /** The timer fires: a new source is opened, unless the stream is closed. */
    method OnTimer(closesInReport: bool, closesInConnect: bool)
      requires Valid()
      modifies this
      ensures Valid() && Promises() && run == old(run) + [L.TimerFires(closesInReport, closesInConnect)]
      ensures old(closed) ==> closed && old(log) <= log && L.NoCallbackFrom(log, |old(log)|)
      ensures old(timer) && !old(closed) ==> connected == old(connected) + 1 && !timer && source == Some(old(connected))
      ensures old(timer) && !old(closed) && !closesInReport && !closesInConnect ==>
        !closed && log == old(log) + [L.Report(L.Connecting), L.Connect(old(connected))]
      ensures old(timer) && !old(closed) && (closesInReport || closesInConnect) ==> closed
    {
      if timer {
        Open(closesInReport, closesInConnect);
      }
      run := run + [L.TimerFires(closesInReport, closesInConnect)];
      Advances(old(Snapshot()), old(run), L.TimerFires(closesInReport, closesInConnect));
    }

    /** A source has opened: the backoff starts over. */
    method OnOpen(next: nat, closes: bool)
      requires Valid()
      modifies this
      ensures Valid() && Promises() && run == old(run) + [L.SourceOpens(next, closes)]
      ensures old(closed) ==> closed && old(log) <= log && L.NoCallbackFrom(log, |old(log)|)
      ensures old(closed || source != Some(next)) ==> Snapshot() == old(Snapshot())
      ensures !old(closed || source != Some(next)) ==>
        && attempts == 0 && old(log) + [L.Report(L.Live)] <= log
        && (closed <==> closes) && (!closes ==> log == old(log) + [L.Report(L.Live)] && source == Some(next))
    {
      if !closed && source == Some(next) {
        attempts := 0;
        Report(L.Live, closes);
      }
      run := run + [L.SourceOpens(next, closes)];
      Advances(old(Snapshot()), old(run), L.SourceOpens(next, closes));
    }

    /** A source has failed: reported as `connecting` while the browser retries,
        otherwise closed and reopened after the backoff. */
    method OnError(next: nat, readyState: L.ReadyState, closes: bool)
      requires Valid()
      modifies this
      ensures Valid() && Promises() && run == old(run) + [L.SourceFails(next, readyState, closes)]
      ensures old(closed) ==> closed && old(log) <= log && L.NoCallbackFrom(log, |old(log)|)
      ensures old(closed || source != Some(next)) || readyState.IsOpen? ==> Snapshot() == old(Snapshot())
      ensures !old(closed || source != Some(next)) && readyState.StillConnecting? ==>
        && old(log) + [L.Report(L.Connecting)] <= log && attempts == old(attempts)
        && (closed <==> closes) && (!closes ==> log == old(log) + [L.Report(L.Connecting)] && source == Some(next))
      ensures !old(closed || source != Some(next)) && readyState.IsClosed? ==>
        && timer && source.None? && next < connected && attempts == old(attempts) + 1 && (closed <==> closes)
        && log == old(log) + GivenUp(next, closes, old(attempts))
    {
      Keeps();
      HandleError(next, readyState, closes);
      run := run + [L.SourceFails(next, readyState, closes)];
      Advances(old(Snapshot()), old(run), L.SourceFails(next, readyState, closes));
    }

    /** A message has arrived: delivered if it parses, and comes from the current
        source of a stream that is not closed. */
    method OnRunCreated(next: nat, parsed: Option<string>, closes: bool)
      requires Valid()
      modifies this
      ensures Valid() && Promises() && run == old(run) + [L.RunArrives(next, parsed, closes)]
      ensures old(closed) ==> closed && old(log) <= log && L.NoCallbackFrom(log, |old(log)|)
      ensures old(closed || source != Some(next)) || parsed.None? ==> Snapshot() == old(Snapshot())
      ensures !old(closed || source != Some(next)) && parsed.Some? ==>
        && old(log) + [L.Deliver(parsed.value)] <= log && attempts == old(attempts)
        && (closed <==> closes) && (!closes ==> log == old(log) + [L.Deliver(parsed.value)] && source == Some(next))
    {
      if !closed && source == Some(next) && parsed.Some? {
        Deliver(parsed.value, closes);
      }
      run := run + [L.RunArrives(next, parsed, closes)];
      Advances(old(Snapshot()), old(run), L.RunArrives(next, parsed, closes));
    }

    /** Called from outside any callback, `close()` leaves no source open and no
        reopen pending, and nothing is reported from then on. */
    method Close()
      requires Valid()
      modifies this
      ensures Valid() && Promises() && run == old(run) + [L.CloseIsCalled]
      ensures closed && source.None? && !timer
      ensures forall k: nat :: k < connected ==> k in L.ClosedSources(log)
      ensures old(log) <= log && L.NoCallbackFrom(log, |old(log)|)
      ensures log == old(log) + [L.CloseCalled] + (if old(timer) then [L.ClearTimer] else [])
        + (if old(source).Some? then [L.CloseSource(old(source).value)] else [])
    {
      L.ClosingMakesNoCallback(Snapshot());
      CloseNow();
      run := run + [L.CloseIsCalled];
      Advances(old(Snapshot()), old(run), L.CloseIsCalled);
    }
  }
}
