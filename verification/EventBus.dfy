/** The in-process fan-out, as an object that every write path shares. */
module EventBus {
  import opened Prelude
  import opened Events

  lemma AfterSnoc(capacity: Capacity, run: seq<Action>, a: Action)
    ensures After(capacity, run + [a]) == Step(After(capacity, run), a)
  {
    assert (run + [a])[..|run|] == run;
  }

  class EventBus {
    const capacity: Capacity
    var counter: nat
    var inFlight: map<nat, Event>
    var sent: seq<Published>
    var receivers: seq<Receiver>

    /** Everything that publishers and subscribers have done so far. */
    ghost var run: seq<Action>

    function Snapshot(): Bus
      reads this
    {
      Bus(capacity, counter, inFlight, sent, receivers)
    }

    /** The object is where the model is after the same actions. */
    ghost predicate Valid()
      reads this
    {
      Snapshot() == After(capacity, run)
    }

    /** What holds between any two actions: each subscriber has been sent a segment
        of the send order, and no number was given twice or skipped. */
    ghost predicate Promises()
      reads this
    {
      AllSegments(Snapshot()) && Numbered(Snapshot())
    }

    lemma Keeps()
      requires Valid()
      ensures Promises()
    {
      StreamsAreSegments(capacity, run);
      IdsAreDistinct(capacity, run);
    }

    lemma Advances(before: Bus, earlier: seq<Action>, a: Action)
      requires before == After(capacity, earlier) && run == earlier + [a] && Snapshot() == Step(before, a)
      ensures Valid() && Promises()
    {
      AfterSnoc(capacity, earlier, a);
      Keeps();
    }

    /** The channel refuses a capacity of zero. */
    constructor (capacity: nat)
      requires capacity > 0
      ensures this.capacity == capacity && run == [] && Valid() && Promises()
      ensures counter == 0 && sent == [] && receivers == []
    {
      this.capacity := capacity;
      counter, inFlight, sent, receivers, run := 0, map[], [], [], [];
      new;
      Keeps();
    }

    /** `fetch_add`: takes a number that no event has had. */
    method TakeNumber(event: Event) returns (id: nat)
      requires Valid()
      modifies this
      ensures Valid() && Promises() && run == old(run) + [Reserve(event)]
      ensures sent == old(sent) && receivers == old(receivers) && inFlight == old(inFlight)[id := event]
      ensures id !in old(inFlight) && !SentIds(old(Snapshot()), id)
      ensures counter == old(counter) + 1 && id == counter
    {
      Keeps();
      counter := counter + 1;
      id := counter;
      inFlight := inFlight[id := event];
      run := run + [Reserve(event)];
      Advances(old(Snapshot()), old(run), Reserve(event));
    }

    /** `send`: the channel takes the message behind all others. */
    method SendNumbered(id: nat)
      requires Valid() && id in inFlight
      modifies this
      ensures Valid() && Promises() && run == old(run) + [Send(id)]
      ensures sent == old(sent) + [Published(id, old(inFlight)[id])] && inFlight == old(inFlight) - {id}
      ensures receivers == old(receivers) && counter == old(counter)
    {
      sent := sent + [Published(id, inFlight[id])];
      inFlight := inFlight - {id};
      run := run + [Send(id)];
      Advances(old(Snapshot()), old(run), Send(id));
    }

    /** Publishing without interruption: the number returned is the one the
        event is sent under, right behind everything sent before.  While every
        publish is like that, numbers are consecutive. */
    method Publish(event: Event) returns (id: nat)
      requires Valid()
      modifies this
      ensures Valid() && Promises() && run == old(run) + [Reserve(event)] + [Send(id)]
      ensures sent == old(sent) + [Published(id, event)] && receivers == old(receivers)
      ensures !SentIds(old(Snapshot()), id) && id == counter == old(counter) + 1
      ensures old(inFlight) == map[] && old(Consecutive(Snapshot())) ==> inFlight == map[] && Consecutive(Snapshot())
    {
      ghost var before := Snapshot();
      Keeps();
      id := TakeNumber(event);
      ghost var between := Snapshot();
      SendNumbered(id);
      AfterSnoc(capacity, old(run) + [Reserve(event)], Send(id));
      if before.inFlight == map[] && Consecutive(before) {
        OldestIsNext(between, Send(id));
      }
    }

    /** A new subscriber is sent what is sent from now on. */
    method NewReceiver() returns (receiver: nat)
      requires Valid()
      modifies this
      ensures Valid() && Promises() && run == old(run) + [Subscribe]
      ensures sent == old(sent) && receiver == |old(receivers)|
      ensures receivers == old(receivers) + [Receiver(|sent|, |sent|, [])]
    {
      receiver := |receivers|;
      receivers := receivers + [Receiver(|sent|, |sent|, [])];
      run := run + [Subscribe];
      Advances(old(Snapshot()), old(run), Subscribe);
    }

    /** One receive; yields nothing when the receiver has caught up.  The stream
        goes on with the next message in the order of sending, until the receiver
        is more than the capacity behind; then it has ended. */
    method TryReceive(receiver: nat) returns (item: Option<Item>)
      requires Valid() && receiver < |receivers|
      modifies this`receivers, this`run
      ensures Valid() && Promises() && run == old(run) + [Receive(receiver)] && |receivers| == |old(receivers)|
      ensures forall i :: 0 <= i < |receivers| && i != receiver ==> receivers[i] == old(receivers)[i]
      ensures item.Some? <==> old(receivers[receiver]).position < |sent|
      ensures item.Some? ==> receivers[receiver].items == old(receivers[receiver]).items + [item.value]
      ensures item.None? ==> receivers == old(receivers)
      ensures
        var before, after := old(receivers[receiver]), receivers[receiver];
        && after.start == before.start
        && (before.position + capacity < |sent| ==>
              item == Some(Lagged(|sent| - capacity - before.position)) && after.position == |sent| - capacity)
        && (before.position < |sent| <= before.position + capacity ==>
              item == Some(Delivered(sent[before.position])) && after.position == before.position + 1)
      ensures StreamGoesOn(old(receivers[receiver]), receivers[receiver], sent, capacity)
    {
      Keeps();
      var r := receivers[receiver];
      item := Next(r);
      run := run + [Receive(receiver)];
      if item.Some? {
        var position := if item.value.Lagged? then |sent| - capacity else r.position + 1;
        receivers := receivers[receiver := Receiver(r.start, position, r.items + [item.value])];
      }
      LagsSkipMessages(r, sent, capacity);
      Advances(old(Snapshot()), old(run), Receive(receiver));
    }

    /** The next message, or how many the channel has dropped. */
    method Next(r: Receiver) returns (item: Option<Item>)
      requires r.position <= |sent|
      ensures item ==
        if r.position == |sent| then None
        else if |sent| - r.position > capacity then Some(Lagged(|sent| - capacity - r.position))
        else Some(Delivered(sent[r.position]))
    {
      if r.position == |sent| {
        return None;
      }
      if |sent| - r.position > capacity {
        return Some(Lagged(|sent| - capacity - r.position));
      }
      return Some(Delivered(sent[r.position]));
    }
  }
}
