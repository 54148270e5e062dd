/** The coalescer: a burst of triggers becomes one trailing callback, a fixed
    delay after the last of them. */
module Coalescer {
  import opened Prelude

  /** `callbacks` records when the callback was made, and for how many triggers. */
  datatype State = State(deadline: Option<nat>, pending: nat, callbacks: seq<(nat, nat)>)

  /** Lets time pass up to and including `now`. */
  function Elapse(s: State, now: nat): State {
    if s.deadline.Some? && s.deadline.value <= now then
      State(None, 0, s.callbacks + [(s.deadline.value, s.pending)])
    else s
  }

  /** One trigger: the pending callback is put off. */
  function Rearm(s: State, now: nat, delay: nat): State {
    State(Some(now + delay), s.pending + 1, s.callbacks)
  }

  datatype Event = Triggered(now: nat) | TimePasses(now: nat) | Cancelled

  function Step(s: State, delay: nat, e: Event): State {
    match e
    case Triggered(now) => Rearm(s, now, delay)
    case TimePasses(now) => Elapse(s, now)
    case Cancelled => State(None, 0, s.callbacks)
  }

  function After(delay: nat, run: seq<Event>): State {
    if run == [] then State(None, 0, [])
    else Step(After(delay, run[..|run| - 1]), delay, run[|run| - 1])
  }

  /** How many triggers the callbacks were made for. */
  function Covered(callbacks: seq<(nat, nat)>): nat {
    if callbacks == [] then 0 else callbacks[0].1 + Covered(callbacks[1..])
  }

  function Triggers(run: seq<Event>): nat {
    if run == [] then 0 else Triggers(run[..|run| - 1]) + if run[|run| - 1].Triggered? then 1 else 0
  }

  /** How many triggers were pending when they were cancelled. */
  function Dropped(delay: nat, run: seq<Event>): nat {
    if run == [] then 0
    else
      var before := run[..|run| - 1];
      Dropped(delay, before) + if run[|run| - 1].Cancelled? then After(delay, before).pending else 0
  }

  /** The instant of the last trigger; the default is for none. */
  function LastTrigger(run: seq<Event>): nat {
    if run == [] then 0
    else if run[|run| - 1].Triggered? then run[|run| - 1].now
    else LastTrigger(run[..|run| - 1])
  }

  /** A callback is due exactly while triggers are pending, a delay after the last
      of them; and every trigger is covered by a callback, pending, or cancelled. */
  ghost predicate Accounted(delay: nat, run: seq<Event>, s: State) {
    && (s.deadline.Some? <==> s.pending > 0)
    && (s.deadline.Some? ==> Triggers(run) > 0 && s.deadline.value == LastTrigger(run) + delay)
    && Covered(s.callbacks) + s.pending + Dropped(delay, run) == Triggers(run)
  }

  lemma {:induction false} CoveredSnoc(callbacks: seq<(nat, nat)>, c: (nat, nat))
    ensures Covered(callbacks + [c]) == Covered(callbacks) + c.1
  {
    if callbacks != [] {
      assert (callbacks + [c])[1..] == callbacks[1..] + [c];
      CoveredSnoc(callbacks[1..], c);
    }
  }

  /** Whatever is triggered and cancelled when, no trigger is lost or counted twice. */
  lemma {:induction false} TriggersAreConserved(delay: nat, run: seq<Event>)
    ensures Accounted(delay, run, After(delay, run))
  {
    if run != [] {
      var before, e := run[..|run| - 1], run[|run| - 1];
      TriggersAreConserved(delay, before);
      var s := After(delay, before);
      if e.TimePasses? && s.deadline.Some? && s.deadline.value <= e.now {
        CoveredSnoc(s.callbacks, (s.deadline.value, s.pending));
      }
    }
  }

  lemma AfterSnoc(delay: nat, run: seq<Event>, e: Event)
    ensures After(delay, run + [e]) == Step(After(delay, run), delay, e)
  {
    assert (run + [e])[..|run|] == run;
  }

  class Coalescer {
    const delay: nat
    var deadline: Option<nat>
    var pending: nat
    var callbacks: seq<(nat, nat)>

    /** Every trigger, every passing of time and every cancellation so far. */
    ghost var run: seq<Event>

    function Snapshot(): State
      reads this
    {
      State(deadline, pending, callbacks)
    }

    ghost predicate Valid()
      reads this
    {
      Snapshot() == After(delay, run)
    }

    lemma Advances(before: State, earlier: seq<Event>, e: Event)
      requires before == After(delay, earlier) && run == earlier + [e] && Snapshot() == Step(before, delay, e)
      ensures Valid() && Accounted(delay, run, Snapshot())
    {
      AfterSnoc(delay, earlier, e);
      TriggersAreConserved(delay, run);
    }

    constructor (delay: nat)
      ensures this.delay == delay && run == [] && Valid() && callbacks == []
    {
      this.delay := delay;
      deadline, pending, callbacks, run := None, 0, [], [];
    }

    /** Puts the pending callback off; makes none. */
    method Trigger(now: nat)
      requires Valid()
      modifies this
      ensures Valid() && Accounted(delay, run, Snapshot()) && run == old(run) + [Triggered(now)]
      ensures callbacks == old(callbacks) && deadline == Some(now + delay)
    {
      pending := pending + 1;
      deadline := Some(now + delay);
      run := run + [Triggered(now)];
      Advances(old(Snapshot()), old(run), Triggered(now));
    }

    /** The timer: makes the callback if it has come due, for everything pending. */
    method Tick(now: nat)
      requires Valid()
      modifies this
      ensures Valid() && Accounted(delay, run, Snapshot()) && run == old(run) + [TimePasses(now)]
      ensures if old(pending) > 0 && LastTrigger(old(run)) + delay <= now
              then pending == 0 && callbacks == old(callbacks) + [(LastTrigger(old(run)) + delay, old(pending))]
              else pending == old(pending) && callbacks == old(callbacks)
    {
      TriggersAreConserved(delay, run);
      if deadline.Some? && deadline.value <= now {
        callbacks := callbacks + [(deadline.value, pending)];
        deadline := None;
        pending := 0;
      }
      run := run + [TimePasses(now)];
      Advances(old(Snapshot()), old(run), TimePasses(now));
    }

    /** No callback follows until there is another trigger. */
    method Cancel()
      requires Valid()
      modifies this
      ensures Valid() && Accounted(delay, run, Snapshot()) && run == old(run) + [Cancelled]
      ensures pending == 0 && callbacks == old(callbacks)
      ensures forall now :: Elapse(Snapshot(), now) == Snapshot()
    {
      deadline := None;
      pending := 0;
      run := run + [Cancelled];
      Advances(old(Snapshot()), old(run), Cancelled);
    }
  }

  /** Triggers at the given instants, with a callback that is due made before a
      trigger at the same instant. */
  function Promptly(triggers: seq<nat>): seq<Event> {
    if triggers == [] then []
    else
      var now := triggers[|triggers| - 1];
      Promptly(triggers[..|triggers| - 1]) + [TimePasses(now)] + [Triggered(now)]
  }

  lemma PromptlyNext(triggers: seq<nat>, delay: nat)
    requires triggers != []
    ensures
      var n := |triggers| - 1;
      After(delay, Promptly(triggers)) ==
        Rearm(Elapse(After(delay, Promptly(triggers[..n])), triggers[n]), triggers[n], delay)
  {
    var n := |triggers| - 1;
    var before := Promptly(triggers[..n]);
    AfterSnoc(delay, before, TimePasses(triggers[n]));
    AfterSnoc(delay, before + [TimePasses(triggers[n])], Triggered(triggers[n]));
  }

  ghost predicate Ascending(times: seq<nat>) {
    forall i, j :: 0 <= i < j < |times| ==> times[i] <= times[j]
  }

  /** No trigger follows the `i`th before its delay has passed. */
  predicate EndsBurst(times: seq<nat>, delay: nat, i: nat)
    requires i < |times|
  {
    i + 1 < |times| ==> times[i] + delay <= times[i + 1]
  }

  /** One callback per burst, a delay after its last trigger, for all of its
      triggers; `size` counts those of the burst under way. */
  function Bursts(times: seq<nat>, delay: nat, from: nat, size: nat): seq<(nat, nat)>
    requires from <= |times|
    decreases |times| - from
  {
    if from == |times| then []
    else if EndsBurst(times, delay, from) then [(times[from] + delay, size + 1)] + Bursts(times, delay, from + 1, 0)
    else Bursts(times, delay, from + 1, size + 1)
  }

  lemma {:induction false} BurstsCoverAll(times: seq<nat>, delay: nat, from: nat, size: nat)
    requires from <= |times| && (from == |times| ==> size == 0)
    ensures Covered(Bursts(times, delay, from, size)) == |times| - from + size
    decreases |times| - from
  {
    if from < |times| {
      if EndsBurst(times, delay, from) {
        BurstsCoverAll(times, delay, from + 1, 0);
      } else {
        BurstsCoverAll(times, delay, from + 1, size + 1);
      }
    }
  }

  /** The bursts of `times[..n]` plus what is under way at `n` continue to all of
      them. */
  lemma {:induction false} FiresPerBurst(times: seq<nat>, delay: nat, n: nat)
    requires 1 <= n <= |times| && Ascending(times)
    ensures
      var s := After(delay, Promptly(times[..n]));
      && s.deadline == Some(times[n - 1] + delay) && s.pending > 0
      && Bursts(times, delay, 0, 0) ==
           s.callbacks + if EndsBurst(times, delay, n - 1)
                         then [(times[n - 1] + delay, s.pending)] + Bursts(times, delay, n, 0)
                         else Bursts(times, delay, n, s.pending)
  {
    var s := After(delay, Promptly(times[..n]));
    assert times[..n][..n - 1] == times[..n - 1];
    PromptlyNext(times[..n], delay);
    if n > 1 {
      FiresPerBurst(times, delay, n - 1);
    } else {
      assert times[..1][..0] == [];
    }
  }

  /** Once time has passed, the callbacks are exactly one per burst, and together
      they cover every trigger. */
  lemma OneCallbackPerBurst(times: seq<nat>, delay: nat)
    requires Ascending(times) && times != []
    ensures After(delay, Promptly(times) + [TimePasses(times[|times| - 1] + delay)]) ==
      State(None, 0, Bursts(times, delay, 0, 0))
    ensures Covered(Bursts(times, delay, 0, 0)) == |times|
  {
    var n := |times|;
    assert times[..n] == times;
    AfterSnoc(delay, Promptly(times), TimePasses(times[n - 1] + delay));
    FiresPerBurst(times, delay, n);
    BurstsCoverAll(times, delay, 0, 0);
  }
}
