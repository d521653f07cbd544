/** A channel to any number of receivers, each with a bounded queue that forgets its oldest
    value when a new one finds it full. */
module Broadcast {

  /** No bound when `maxSize` is not positive, as in asyncio. */
  predicate Full<T>(items: seq<T>, maxSize: int) {
    0 < maxSize <= |items|
  }

  function Push<T>(items: seq<T>, value: T, maxSize: int): seq<T> {
    (if Full(items, maxSize) then items[1..] else items) + [value]
  }

  class Queue<T> {
    const maxSize: int
    var items: seq<T>

    constructor (maxSize: int)
      ensures this.maxSize == maxSize && items == []
    {
      this.maxSize := maxSize;
      items := [];
    }

    method Put(value: T)
      requires !Full(items, maxSize)
      modifies this
      ensures items == old(items) + [value]
    {
      items := items + [value];
    }

    method Get() returns (value: T)
      requires items != []
      modifies this
      ensures value == old(items)[0] && items == old(items)[1..]
    {
      value := items[0];
      items := items[1..];
    }
  }

  class BroadcastChannel<T> {
    const maxSize: int
    var queues: seq<Queue<T>>

    ghost predicate Valid()
      reads this, queues
    {
      && (forall i, j :: 0 <= i < j < |queues| ==> queues[i] != queues[j])
      && forall q <- queues :: q.maxSize == maxSize && (0 < maxSize ==> |q.items| <= maxSize)
    }

    constructor (maxSize: int)
      ensures Valid() && queues == [] && this.maxSize == maxSize
    {
      this.maxSize := maxSize;
      queues := [];
    }

    /** Every subscribed queue gets the value; none is dropped from the list. */
    method Broadcast(value: T)
      requires Valid()
      modifies this, queues
      ensures Valid() && queues == old(queues)
      ensures forall q <- queues :: q.items == Push(old(q.items), value, maxSize)
    {
      var active := [];
      for i := 0 to |queues|
        invariant queues == old(queues) && active == queues[..i]
        invariant forall j :: 0 <= j < i ==> queues[j].items == Push(old(queues[j].items), value, maxSize)
        invariant forall j :: i <= j < |queues| ==> queues[j].items == old(queues[j].items)
      {
        var queue := queues[i];
        if Full(queue.items, queue.maxSize) {
          var oldest := queue.Get();
        }
        queue.Put(value);
        active := active + [queue];
      }
      queues := active;
    }

    method Subscribe() returns (queue: Queue<T>)
      requires Valid()
      modifies this
      ensures Valid() && fresh(queue) && queues == old(queues) + [queue] && queue.items == []
    {
      queue := new Queue(maxSize);
      queues := queues + [queue];
    }

    /** Takes a queue out of the list, if it is there, and leaves its items alone. */
    method Unsubscribe(queue: Queue<T>)
      requires Valid()
      modifies this
      ensures Valid()
      ensures forall q :: q in queues <==> q in old(queues) && q != queue
      ensures queue !in old(queues) ==> queues == old(queues)
    {
      for i := 0 to |queues|
        invariant queues == old(queues) && queue !in queues[..i]
      {
        if queues[i] == queue {
          queues := queues[..i] + queues[i + 1..];
          return;
        }
      }
    }
  }

  // --- One receiver over a whole run ---

  datatype Event<T> = Sent(value: T) | Receive | Unsubscribed

  /** `log` is what was broadcast while the receiver was subscribed; `got` and `lost` are
      the places in it of the values that it received and that were dropped. */
  datatype Mailbox<T> = Mailbox(log: seq<T>, items: seq<T>, active: bool, got: seq<int>, lost: seq<int>) {
    /** The place of the oldest value that is still queued. */
    function Base(): int {
      |log| - |items|
    }
  }

  function Step<T>(b: Mailbox<T>, e: Event<T>, maxSize: int): Mailbox<T> {
    match e
    case Sent(value) =>
      if !b.active then b
      else
        b.(log := b.log + [value], items := Push(b.items, value, maxSize),
           lost := if Full(b.items, maxSize) then b.lost + [b.Base()] else b.lost)
    case Receive =>
      if b.items == [] then b
      else b.(items := b.items[1..], got := b.got + [b.Base()])
    case Unsubscribed => b.(active := false)
  }

  function Run<T>(events: seq<Event<T>>, maxSize: int): Mailbox<T> {
    if events == [] then Mailbox([], [], true, [], [])
    else Step(Run(events[..|events| - 1], maxSize), events[|events| - 1], maxSize)
  }

  ghost predicate Increasing(places: seq<int>, below: int) {
    && (forall i, j :: 0 <= i < j < |places| ==> places[i] < places[j])
    && forall i :: 0 <= i < |places| ==> 0 <= places[i] < below
  }

  /** The queue is the end of the log, and each earlier place was either received or lost,
      lost only when `maxSize` later values had come. */
  ghost predicate Sound<T>(b: Mailbox<T>, maxSize: int) {
    && 0 <= b.Base() && b.items == b.log[b.Base()..]
    && (0 < maxSize ==> |b.items| <= maxSize)
    && Increasing(b.got, b.Base()) && Increasing(b.lost, b.Base())
    && (forall p :: 0 <= p < b.Base() ==> (p in b.got <==> p !in b.lost))
    && |b.got| + |b.lost| == b.Base()
    && forall p <- b.lost :: 0 < maxSize && p + maxSize < |b.log|
  }

  lemma StepKeepsSound<T>(b: Mailbox<T>, e: Event<T>, maxSize: int)
    requires Sound(b, maxSize)
    ensures Sound(Step(b, e, maxSize), maxSize)
  {
    var t := Step(b, e, maxSize);
    assert t.lost == b.lost || t.lost == b.lost + [b.Base()];
    assert t.got == b.got || t.got == b.got + [b.Base()];
    forall p | 0 <= p < t.Base() ensures p in t.got <==> p !in t.lost {
      if p == b.Base() {
        assert p !in b.got && p !in b.lost;
      }
    }
  }

  /** On every run of broadcasts and receptions the receiver gets the values of increasing
      places, and misses only values that were overtaken by `maxSize` later ones. */
  lemma {:induction false} ReceiverIsSound<T>(events: seq<Event<T>>, maxSize: int)
    ensures Sound(Run(events, maxSize), maxSize)
  {
    if events == [] {
    } else {
      ReceiverIsSound(events[..|events| - 1], maxSize);
      StepKeepsSound(Run(events[..|events| - 1], maxSize), events[|events| - 1], maxSize);
    }
  }

  // --- What was sent and what was received ---

  predicate Subscribed<T>(events: seq<Event<T>>) {
    forall i :: 0 <= i < |events| ==> !events[i].Unsubscribed?
  }

  /** The values broadcast before the receiver unsubscribed. */
  function SentTo<T>(events: seq<Event<T>>): seq<T> {
    if events == [] then []
    else
      var before := events[..|events| - 1];
      var last := events[|events| - 1];
      SentTo(before) + (if last.Sent? && Subscribed(before) then [last.value] else [])
  }

  /** The values that the receiver took out of its queue, one for each reception that found
      the queue not empty. */
  function Received<T>(events: seq<Event<T>>, maxSize: int): seq<T> {
    if events == [] then []
    else
      var before := events[..|events| - 1];
      var items := Run(before, maxSize).items;
      Received(before, maxSize) + (if events[|events| - 1].Receive? && items != [] then [items[0]] else [])
  }

  lemma {:induction false} LogIsSent<T>(events: seq<Event<T>>, maxSize: int)
    ensures Run(events, maxSize).log == SentTo(events)
    ensures Run(events, maxSize).active == Subscribed(events)
  {
    if events == [] {
    } else {
      var before := events[..|events| - 1];
      LogIsSent(before, maxSize);
      assert Subscribed(events) <==> Subscribed(before) && !events[|events| - 1].Unsubscribed?;
    }
  }

  /** What a reception finds is the value at the place that the record says, the next one
      that was neither received nor lost. */
  lemma ReceiveTakesNext<T>(events: seq<Event<T>>, maxSize: int)
    requires Run(events, maxSize).items != []
    ensures var b := Run(events, maxSize);
            var t := Run(events + [Receive], maxSize);
            && t.items == b.items[1..] && t.lost == b.lost
            && 0 <= b.Base() < |SentTo(events)|
            && t.got == b.got + [b.Base()]
            && Received(events + [Receive], maxSize) == Received(events, maxSize) + [SentTo(events)[b.Base()]]
  {
    assert (events + [Receive])[..|events|] == events;
    ReceiverIsSound(events, maxSize);
    LogIsSent(events, maxSize);
  }

  /** The received values are values that were sent, at increasing places. */
  lemma {:induction false} ReceivedWasSent<T>(events: seq<Event<T>>, maxSize: int)
    ensures var got := Run(events, maxSize).got;
            && |Received(events, maxSize)| == |got| && Increasing(got, |SentTo(events)|)
            && forall i :: 0 <= i < |got| ==> Received(events, maxSize)[i] == SentTo(events)[got[i]]
  {
    ReceiverIsSound(events, maxSize);
    LogIsSent(events, maxSize);
    if events == [] {
    } else {
      var before := events[..|events| - 1];
      ReceivedWasSent(before, maxSize);
      ReceiverIsSound(before, maxSize);
      LogIsSent(before, maxSize);
    }
  }

  /** At some broadcast of the run the receiver had `maxSize` values waiting. */
  predicate FellBehind<T>(events: seq<Event<T>>, maxSize: int) {
    events != [] &&
    var before := events[..|events| - 1];
    var b := Run(before, maxSize);
    || FellBehind(before, maxSize)
    || (events[|events| - 1].Sent? && b.active && Full(b.items, maxSize))
  }

  lemma {:induction false} LossIsRecorded<T>(events: seq<Event<T>>, maxSize: int)
    ensures Run(events, maxSize).lost != [] <==> FellBehind(events, maxSize)
  {
    if events == [] {
    } else {
      LossIsRecorded(events[..|events| - 1], maxSize);
    }
  }

  lemma {:induction false} AllIsReceived<T>(events: seq<Event<T>>, maxSize: int)
    requires !FellBehind(events, maxSize)
    ensures Received(events, maxSize) + Run(events, maxSize).items == Run(events, maxSize).log
  {
    if events == [] {
    } else {
      AllIsReceived(events[..|events| - 1], maxSize);
    }
  }

  /** What the receiver got and what waits for it are together all that was sent, in order,
      exactly when it never had `maxSize` values waiting at a broadcast. Otherwise as many
      are missing as were dropped. */
  lemma ReceivesAllIff<T>(events: seq<Event<T>>, maxSize: int)
    ensures var b := Run(events, maxSize);
            && (Received(events, maxSize) + b.items == SentTo(events) <==> !FellBehind(events, maxSize))
            && |Received(events, maxSize)| + |b.items| + |b.lost| == |SentTo(events)|
            && ((forall p :: 0 <= p < b.Base() ==> p in b.got) <==> !FellBehind(events, maxSize))
  {
    var b := Run(events, maxSize);
    ReceiverIsSound(events, maxSize);
    ReceivedWasSent(events, maxSize);
    LogIsSent(events, maxSize);
    LossIsRecorded(events, maxSize);
    if b.lost != [] {
      assert b.lost[0] in b.lost;
      assert |Received(events, maxSize) + b.items| < |SentTo(events)|;
    } else {
      AllIsReceived(events, maxSize);
    }
  }
}
