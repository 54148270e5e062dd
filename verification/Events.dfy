/** Change notifications: publishers take a sequence number and then send, a
    bounded channel fans out, and a subscriber's stream is cut at its first
    lag.  Taking the number and sending are two separate atomic steps, so the
    steps of different publishers interleave. */
module Events {
  datatype Event = RunCreated(id: string) | ArtifactCreated(id: string) | ModelRegistered(id: string)

  datatype Published = Published(id: nat, event: Event)

  /** A channel holds at least one message. */
  type Capacity = n: nat | n > 0 witness 1

  /** What one receive yields. */
  datatype Item = Delivered(published: Published) | Lagged(missed: nat)

  datatype Receiver = Receiver(start: nat, position: nat, items: seq<Item>)

  /** `sent` is every message in the order of sending; the channel retains the
      last `capacity` of them. */
  datatype Bus = Bus(
    capacity: Capacity,
    counter: nat,
    inFlight: map<nat, Event>,
    sent: seq<Published>,
    receivers: seq<Receiver>)

  datatype Action =
    | Reserve(event: Event)
    | Send(id: nat)
    | Subscribe
    | Receive(receiver: nat)

  function NewBus(capacity: Capacity): Bus {
    Bus(capacity, 0, map[], [], [])
  }

  /** A receiver more than `capacity` messages behind learns how many it missed
      and moves to the oldest message retained. */
  function ReceiveOne(r: Receiver, sent: seq<Published>, capacity: Capacity): Receiver
    requires r.position <= |sent|
  {
    if r.position == |sent| then r
    else if r.position + capacity < |sent| then
      var oldest := |sent| - capacity;
      Receiver(r.start, oldest, r.items + [Lagged(oldest - r.position)])
    else Receiver(r.start, r.position + 1, r.items + [Delivered(sent[r.position])])
  }

  ghost predicate WellFormed(b: Bus) {
    forall r :: r in b.receivers ==> r.start <= r.position <= |b.sent|
  }

  function Step(b: Bus, a: Action): (after: Bus)
    requires WellFormed(b)
    ensures WellFormed(after) && after.capacity == b.capacity && b.sent <= after.sent
  {
    match a
    case Reserve(e) => b.(counter := b.counter + 1, inFlight := b.inFlight[b.counter + 1 := e])
    case Send(id) =>
      if id in b.inFlight then
        b.(inFlight := b.inFlight - {id}, sent := b.sent + [Published(id, b.inFlight[id])])
      else b
    case Subscribe => b.(receivers := b.receivers + [Receiver(|b.sent|, |b.sent|, [])])
    case Receive(i) =>
      if i < |b.receivers| then
        b.(receivers := b.receivers[i := ReceiveOne(b.receivers[i], b.sent, b.capacity)])
      else b
  }

  /** The bus after a run: any interleaving of any number of publishers and
      subscribers. */
  function After(capacity: Capacity, run: seq<Action>): (b: Bus)
    ensures WellFormed(b) && b.capacity == capacity
  {
    if run == [] then NewBus(capacity)
    else Step(After(capacity, run[..|run| - 1]), run[|run| - 1])
  }

  // ----- The stream a subscriber is sent ------------------------------------

  /** Everything before the first lag. */
  function TakeWhile(items: seq<Item>): seq<Item> {
    if items == [] || items[0].Lagged? then [] else [items[0]] + TakeWhile(items[1..])
  }

  function FilterMap(items: seq<Item>): seq<Published> {
    if items == [] then []
    else (if items[0].Delivered? then [items[0].published] else []) + FilterMap(items[1..])
  }

  /** The pipeline of the event stream. */
  function Streamed(items: seq<Item>): seq<Published> {
    FilterMap(TakeWhile(items))
  }

  predicate HasLagged(items: seq<Item>) {
    items != [] && (items[0].Lagged? || HasLagged(items[1..]))
  }

  lemma {:induction false} StreamedSnoc(items: seq<Item>, item: Item)
    ensures Streamed(items + [item]) ==
      if HasLagged(items) || item.Lagged? then Streamed(items) else Streamed(items) + [item.published]
    ensures HasLagged(items + [item]) <==> HasLagged(items) || item.Lagged?
  {
    if items == [] {
      assert (items + [item])[1..] == [] && TakeWhile([]) == [];
    } else {
      assert (items + [item])[1..] == items[1..] + [item];
      StreamedSnoc(items[1..], item);
      if items[0].Delivered? {
        assert TakeWhile(items)[1..] == TakeWhile(items[1..]);
        assert TakeWhile(items + [item])[1..] == TakeWhile(items[1..] + [item]);
      }
    }
  }

  /** How many messages the items account for. */
  function Accounted(items: seq<Item>): nat {
    if items == [] then 0
    else
      var last := items[|items| - 1];
      Accounted(items[..|items| - 1]) + if last.Lagged? then last.missed else 1
  }

  /** The stream is a contiguous segment of the send order that starts at the
      subscription; without a lag it is everything received so far. */
  ghost predicate IsSegment(r: Receiver, sent: seq<Published>) {
    && r.start <= r.position <= |sent|
    && r.start + |Streamed(r.items)| <= r.position
    && Streamed(r.items) == sent[r.start..r.start + |Streamed(r.items)|]
    && (!HasLagged(r.items) ==> r.start + |Streamed(r.items)| == r.position)
    && Accounted(r.items) == r.position - r.start
  }

  lemma AccountedSnoc(items: seq<Item>, item: Item)
    ensures Accounted(items + [item]) == Accounted(items) + if item.Lagged? then item.missed else 1
  {
    assert (items + [item])[..|items|] == items;
  }

  lemma LagKeepsSegment(r: Receiver, sent: seq<Published>, position: nat)
    requires IsSegment(r, sent) && r.position <= position <= |sent|
    ensures IsSegment(Receiver(r.start, position, r.items + [Lagged(position - r.position)]), sent)
  {
    StreamedSnoc(r.items, Lagged(position - r.position));
    AccountedSnoc(r.items, Lagged(position - r.position));
  }

  lemma DeliveryKeepsSegment(r: Receiver, sent: seq<Published>)
    requires IsSegment(r, sent) && r.position < |sent|
    ensures IsSegment(Receiver(r.start, r.position + 1, r.items + [Delivered(sent[r.position])]), sent)
  {
    StreamedSnoc(r.items, Delivered(sent[r.position]));
    AccountedSnoc(r.items, Delivered(sent[r.position]));
    assert sent[r.start..r.position + 1] == sent[r.start..r.position] + [sent[r.position]];
  }

  lemma ReceiveKeepsSegment(r: Receiver, sent: seq<Published>, capacity: Capacity)
    requires IsSegment(r, sent)
    ensures IsSegment(ReceiveOne(r, sent, capacity), sent)
  {
    if r.position < |sent| {
      if r.position + capacity < |sent| {
        LagKeepsSegment(r, sent, |sent| - capacity);
      } else {
        DeliveryKeepsSegment(r, sent);
      }
    }
  }

  ghost predicate AllSegments(b: Bus) {
    forall k :: 0 <= k < |b.receivers| ==> IsSegment(b.receivers[k], b.sent)
  }

  lemma StepKeepsSegments(b: Bus, a: Action)
    requires WellFormed(b) && AllSegments(b)
    ensures AllSegments(Step(b, a))
  {
    var after := Step(b, a);
    forall k | 0 <= k < |after.receivers| ensures IsSegment(after.receivers[k], after.sent) {
      if k < |b.receivers| {
        var r := b.receivers[k];
        assert IsSegment(r, b.sent);
        if a == Receive(k) {
          ReceiveKeepsSegment(r, b.sent, b.capacity);
        } else {
          var end := r.start + |Streamed(r.items)|;
          assert after.sent[r.start..end] == b.sent[r.start..end];
        }
      }
    }
  }

  /** What every subscriber is sent, in every interleaving. */
  lemma {:induction false} StreamsAreSegments(capacity: Capacity, run: seq<Action>)
    ensures AllSegments(After(capacity, run))
  {
    if run != [] {
      StreamsAreSegments(capacity, run[..|run| - 1]);
      StepKeepsSegments(After(capacity, run[..|run| - 1]), run[|run| - 1]);
    }
  }

  /** What one receive does to a subscriber's stream: nothing once it has ended, one
      more message in the order of sending, or its end, exactly when the receiver
      is more than the capacity behind. */
  ghost predicate StreamGoesOn(before: Receiver, after: Receiver, sent: seq<Published>, capacity: Capacity) {
    if HasLagged(before.items) || before.position >= |sent| then
      Streamed(after.items) == Streamed(before.items) && (HasLagged(after.items) <==> HasLagged(before.items))
    else if |sent| - before.position > capacity then
      Streamed(after.items) == Streamed(before.items) && HasLagged(after.items)
    else
      Streamed(after.items) == Streamed(before.items) + [sent[before.position]] && !HasLagged(after.items)
  }

  /** The stream is cut exactly where it would have skipped messages: the item
      behind the cut reports a lag, and that lag is real. */
  lemma LagsSkipMessages(r: Receiver, sent: seq<Published>, capacity: Capacity)
    requires IsSegment(r, sent)
    ensures
      var after := ReceiveOne(r, sent, capacity);
      && StreamGoesOn(r, after, sent, capacity)
      && (!HasLagged(r.items) && HasLagged(after.items) ==> after.position > r.start + |Streamed(r.items)|)
  {
    var after := ReceiveOne(r, sent, capacity);
    if after != r {
      var item := after.items[|r.items|];
      assert after.items == r.items + [item];
      StreamedSnoc(r.items, item);
    }
  }

  // ----- Sequence numbers ---------------------------------------------------

  ghost predicate SentIds(b: Bus, id: nat) {
    exists i :: 0 <= i < |b.sent| && b.sent[i].id == id
  }

  /** Every number up to the counter was given to exactly one event, which is
      either sent or still in flight. */
  ghost predicate Numbered(b: Bus) {
    && (forall i, j :: 0 <= i < j < |b.sent| ==> b.sent[i].id != b.sent[j].id)
    && (forall i :: 0 <= i < |b.sent| ==> 1 <= b.sent[i].id <= b.counter && b.sent[i].id !in b.inFlight)
    && (forall id :: id in b.inFlight ==> 1 <= id <= b.counter)
    && (forall id :: 1 <= id <= b.counter ==> id in b.inFlight || SentIds(b, id))
  }

  lemma SentIdsGrow(b: Bus, after: Bus, id: nat)
    requires b.sent <= after.sent && SentIds(b, id)
    ensures SentIds(after, id)
  {
    var i :| 0 <= i < |b.sent| && b.sent[i].id == id;
    assert after.sent[i].id == id;
  }

  lemma StepKeepsNumbering(b: Bus, a: Action)
    requires WellFormed(b) && Numbered(b)
    ensures Numbered(Step(b, a))
  {
    var after := Step(b, a);
    forall id | 1 <= id <= after.counter ensures id in after.inFlight || SentIds(after, id) {
      if id <= b.counter && SentIds(b, id) {
        SentIdsGrow(b, after, id);
      } else if id !in after.inFlight {
        assert after.sent[|b.sent|].id == id;
      }
    }
  }

  /** No two events are ever sent under one number. */
  lemma {:induction false} IdsAreDistinct(capacity: Capacity, run: seq<Action>)
    ensures Numbered(After(capacity, run))
  {
    if run != [] {
      IdsAreDistinct(capacity, run[..|run| - 1]);
      StepKeepsNumbering(After(capacity, run[..|run| - 1]), run[|run| - 1]);
    }
  }

  /** The smallest number in flight is the one that is sent. */
  ghost predicate SendsOldest(b: Bus, a: Action) {
    a.Send? && a.id in b.inFlight ==> forall id :: id in b.inFlight ==> a.id <= id
  }

  /** Publishes do not overtake one another: the numbers are sent in the order
      in which they were taken. */
  ghost predicate InOrder(capacity: Capacity, run: seq<Action>)
  {
    forall i :: 0 <= i < |run| ==> SendsOldest(After(capacity, run[..i]), run[i])
  }

  ghost predicate Consecutive(b: Bus) {
    forall i :: 0 <= i < |b.sent| ==> b.sent[i].id == i + 1
  }

  ghost predicate Increasing(b: Bus) {
    forall i, j :: 0 <= i < j < |b.sent| ==> b.sent[i].id < b.sent[j].id
  }

  /** Only later numbers than those sent are still in flight. */
  lemma ConsecutiveLeavesLater(b: Bus, id: nat)
    requires Numbered(b) && Consecutive(b) && id in b.inFlight
    ensures id > |b.sent|
  {
    if |b.sent| > 0 {
      var i := if id <= |b.sent| then id - 1 else 0;
      assert b.sent[i].id == i + 1 && b.sent[i].id !in b.inFlight;
    }
  }

  lemma OldestIsNext(b: Bus, a: Action)
    requires WellFormed(b) && Numbered(b) && Consecutive(b) && SendsOldest(b, a)
    ensures Consecutive(Step(b, a))
  {
    if a.Send? && a.id in b.inFlight {
      var next := |b.sent| + 1;
      ConsecutiveLeavesLater(b, a.id);
      assert !SentIds(b, next);
      assert a.id <= b.counter;
      assert next in b.inFlight;
    }
  }

  lemma {:induction false} InOrderIsConsecutive(capacity: Capacity, run: seq<Action>)
    requires InOrder(capacity, run)
    ensures Consecutive(After(capacity, run))
  {
    if run != [] {
      var n := |run| - 1;
      assert InOrder(capacity, run[..n]) by {
        forall i | 0 <= i < n ensures SendsOldest(After(capacity, run[..n][..i]), run[..n][i]) {
          assert run[..n][..i] == run[..i];
        }
      }
      InOrderIsConsecutive(capacity, run[..n]);
      IdsAreDistinct(capacity, run[..n]);
      OldestIsNext(After(capacity, run[..n]), run[n]);
    }
  }

  /** Increasing numbers without a gap left in flight are consecutive. */
  lemma {:induction false} IncreasingIsConsecutive(b: Bus, i: nat)
    requires Numbered(b) && Increasing(b) && b.inFlight == map[] && i < |b.sent|
    ensures forall k :: 0 <= k <= i ==> b.sent[k].id == k + 1
  {
    if i > 0 {
      IncreasingIsConsecutive(b, i - 1);
    }
    assert i > 0 ==> b.sent[i - 1].id < b.sent[i].id;
    assert SentIds(b, i + 1);
    var j :| 0 <= j < |b.sent| && b.sent[j].id == i + 1;
  }

  lemma {:induction false} SentOnlyGrows(capacity: Capacity, run: seq<Action>, i: nat)
    requires i <= |run|
    ensures After(capacity, run[..i]).sent <= After(capacity, run).sent
  {
    if i == |run| {
      assert run[..i] == run;
    } else {
      var n := |run| - 1;
      assert run[..n][..i] == run[..i];
      SentOnlyGrows(capacity, run[..n], i);
    }
  }

  lemma ConsecutiveWasInOrder(capacity: Capacity, run: seq<Action>, i: nat)
    requires Consecutive(After(capacity, run)) && i < |run|
    ensures SendsOldest(After(capacity, run[..i]), run[i])
  {
    var b, next := After(capacity, run[..i]), After(capacity, run[..i + 1]);
    assert run[..i + 1][..i] == run[..i];
    SentOnlyGrows(capacity, run, i);
    SentOnlyGrows(capacity, run, i + 1);
    IdsAreDistinct(capacity, run[..i]);
    if run[i].Send? && run[i].id in b.inFlight {
      assert next.sent[|b.sent|].id == run[i].id == |b.sent| + 1;
      forall id | id in b.inFlight ensures run[i].id <= id {
        ConsecutiveLeavesLater(b, id);
      }
    }
  }

  /** Once nothing is in flight, the numbers went out increasing, and then
      consecutive, if and only if no publish overtook another. */
  lemma IncreasingIffInOrder(capacity: Capacity, run: seq<Action>)
    requires After(capacity, run).inFlight == map[]
    ensures Increasing(After(capacity, run)) <==> InOrder(capacity, run)
    ensures InOrder(capacity, run) ==> Consecutive(After(capacity, run))
  {
    var b := After(capacity, run);
    if InOrder(capacity, run) {
      InOrderIsConsecutive(capacity, run);
    }
    if Increasing(b) {
      IdsAreDistinct(capacity, run);
      if |b.sent| > 0 {
        IncreasingIsConsecutive(b, |b.sent| - 1);
      }
      forall i | 0 <= i < |run| ensures SendsOldest(After(capacity, run[..i]), run[i]) {
        ConsecutiveWasInOrder(capacity, run, i);
      }
    }
  }

  /** What a subscriber is sent when no publish overtakes another: consecutive
      numbers, so a client could see every gap. */
  lemma StreamIsConsecutive(capacity: Capacity, run: seq<Action>, receiver: nat, k: nat)
    requires InOrder(capacity, run) && receiver < |After(capacity, run).receivers|
    ensures
      var r := After(capacity, run).receivers[receiver];
      k < |Streamed(r.items)| ==> Streamed(r.items)[k].id == r.start + k + 1
  {
    var b := After(capacity, run);
    InOrderIsConsecutive(capacity, run);
    StreamsAreSegments(capacity, run);
    if k < |Streamed(b.receivers[receiver].items)| {
      ConsecutiveSegment(b.receivers[receiver], b, k);
    }
  }

  lemma ConsecutiveSegment(r: Receiver, b: Bus, k: nat)
    requires IsSegment(r, b.sent) && Consecutive(b) && k < |Streamed(r.items)|
    ensures Streamed(r.items)[k].id == r.start + k + 1
  {
    var end := r.start + |Streamed(r.items)|;
    assert b.sent[r.start..end][k] == b.sent[r.start + k];
  }

  lemma AfterNext(capacity: Capacity, run: seq<Action>, i: nat)
    requires i < |run|
    ensures After(capacity, run[..i + 1]) == Step(After(capacity, run[..i]), run[i])
    ensures i == 0 ==> After(capacity, run[..i]) == NewBus(capacity)
  {
    assert run[..i + 1][..i] == run[..i];
  }

  function TwoPublishers(x: Event, y: Event): seq<Action> {
    [Subscribe, Reserve(x), Reserve(y), Send(2), Send(1), Receive(0), Receive(0)]
  }

  lemma TwoInFlight(capacity: Capacity, run: seq<Action>, x: Event, y: Event)
    requires |run| > 4
    requires run[0] == Subscribe && run[1] == Reserve(x) && run[2] == Reserve(y)
    ensures
      var b := After(capacity, run[..3]);
      && b.sent == [] && b.receivers == [Receiver(0, 0, [])] && b.inFlight.Keys == {1, 2}
      && b.inFlight[1] == x && b.inFlight[2] == y
  {
    AfterNext(capacity, run, 0);
    AfterNext(capacity, run, 1);
    AfterNext(capacity, run, 2);
  }

  lemma CrossedSends(capacity: Capacity, run: seq<Action>, x: Event, y: Event)
    requires |run| > 4
    requires run[0] == Subscribe && run[1] == Reserve(x) && run[2] == Reserve(y)
    requires run[3] == Send(2) && run[4] == Send(1)
    ensures
      var b := After(capacity, run[..5]);
      b.sent == [Published(2, y), Published(1, x)] && b.receivers == [Receiver(0, 0, [])]
  {
    TwoInFlight(capacity, run, x, y);
    AfterNext(capacity, run, 3);
    AfterNext(capacity, run, 4);
  }

  /** Two publishers whose steps cross: the subscriber is sent 2 before 1. */
  lemma OvertakingReorders(capacity: Capacity, x: Event, y: Event)
    requires capacity >= 2
    ensures
      var b := After(capacity, TwoPublishers(x, y));
      |b.receivers| == 1 && Streamed(b.receivers[0].items) == [Published(2, y), Published(1, x)]
  {
    var run := TwoPublishers(x, y);
    CrossedSends(capacity, run, x, y);
    AfterNext(capacity, run, 5);
    AfterNext(capacity, run, 6);
    assert run[..7] == run;
    var items := After(capacity, run).receivers[0].items;
    var one := Delivered(Published(2, y));
    assert items == [one] + [Delivered(Published(1, x))];
    StreamedSnoc([], one);
    StreamedSnoc([one], Delivered(Published(1, x)));
    assert [] + [one] == [one];
  }
}
