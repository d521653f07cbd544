/** A viewer's subscription: a cursor over the chunks of a store that is pruned under it. */
module Subscriber {
  import opened Bytes
  import opened Ledger
  import opened Numbers
  import opened Protocol
  import opened ShellStore
  import opened Wrappers

  /** Chunks for the viewer, labelled with the number of bytes before them. */
  datatype Yield = Yield(byteNum: nat, chunks: seq<Bytes>)

  datatype PollResult = PollResult(chunkNum: int, yielded: Option<Yield>)

  function Start(st: Store, chunkNum: int): (start: nat)
    requires chunkNum < st.chunkOffset + |st.data|
    ensures start <= |st.data|
  {
    Max(0, chunkNum - st.chunkOffset)
  }

  /** What a round of the subscription loop finds in the store of an open shell. */
  function Poll(st: Store, chunkNum: int): PollResult {
    var current := st.chunkOffset + |st.data|;
    if current <= chunkNum then PollResult(chunkNum, None)
    else
      var start := Start(st, chunkNum);
      var chunks := st.data[start..];
      PollResult(current,
                 if chunks == [] then None else Some(Yield(st.byteOffset + Total(st.data[..start]), chunks)))
  }

  // --- Whole runs: chunks are added and pruned between polls ---

  datatype Event = Add(message: Message) | Look

  /** A poll that found the cursor at `from` and left it at `to` while `pruned` chunks were
      gone. */
  datatype Visit = Visit(from: int, to: int, pruned: nat, yielded: Option<Yield>)

  /** The store, beside it the ledger of what it accepted, and a viewer's cursor with the
      record of its polls. */
  datatype Server = Server(ledger: Ledger, store: Store, chunkNum: int, visits: seq<Visit>)

  function NewServer(chunkNum: int): Server {
    Server(EMPTY, NEW_STORE, chunkNum, [])
  }

  function Step(v: Server, e: Event): Server {
    match e
    case Add(m) => v.(ledger := Accept(v.ledger, m), store := AfterAdd(v.store, m))
    case Look =>
      var r := Poll(v.store, v.chunkNum);
      v.(chunkNum := r.chunkNum,
         visits := v.visits + [Visit(v.chunkNum, r.chunkNum, v.store.chunkOffset, r.yielded)])
  }

  function Run(chunkNum: int, events: seq<Event>): Server {
    if events == [] then NewServer(chunkNum)
    else Step(Run(chunkNum, events[..|events| - 1]), events[|events| - 1])
  }

  lemma RunOne(chunkNum: int, events: seq<Event>, e: Event)
    ensures Run(chunkNum, events + [e]) == Step(Run(chunkNum, events), e)
  {
    assert (events + [e])[..|events|] == events;
  }

  /** The poll yielded the chunks `from` .. `to` that were not pruned, all of them and in
      order, with the number of bytes accepted before the first as the label. A poll that
      found nothing new yielded nothing. */
  ghost predicate Exact(l: Ledger, a: Visit) {
    if a.from == a.to then a.yielded == None
    else
      var first := Max(a.from, a.pruned);
      && a.from < a.to <= |l.entries| && first <= a.to
      && a.yielded == if first == a.to then None
                      else Some(Yield(Total(Chunks(l.entries)[..first]), Chunks(l.entries)[first..a.to]))
  }

  function CursorBefore(chunkNum: int, visits: seq<Visit>, i: nat): int
    requires i <= |visits|
  {
    if i == 0 then chunkNum else visits[i - 1].to
  }

  predicate Linked(chunkNum: int, visits: seq<Visit>, i: nat)
    requires i < |visits|
  {
    visits[i].from == CursorBefore(chunkNum, visits, i) && visits[i].from <= visits[i].to
  }

  ghost predicate Consistent(v: Server, chunkNum: int) {
    && Ordered(v.ledger)
    && IsCut(v.ledger, 0, v.store.chunkOffset) && v.store == Cut(v.ledger, v.store.chunkOffset, false)
    && (forall a <- v.visits :: Exact(v.ledger, a))
    && (forall i :: 0 <= i < |v.visits| ==> Linked(chunkNum, v.visits, i))
    && v.chunkNum == CursorBefore(chunkNum, v.visits, |v.visits|)
  }

  lemma ExactStays(l: Ledger, l': Ledger, a: Visit)
    requires Exact(l, a) && l.entries <= l'.entries
    ensures Exact(l', a)
  {
    if a.from < a.to {
      assert Chunks(l.entries) <= Chunks(l'.entries);
      var first := Max(a.from, a.pruned);
      assert Chunks(l'.entries)[..first] == Chunks(l.entries)[..first];
      assert Chunks(l'.entries)[first..a.to] == Chunks(l.entries)[first..a.to];
    }
  }

  lemma AddKeepsConsistent(v: Server, chunkNum: int, m: Message)
    requires Consistent(v, chunkNum)
    ensures Consistent(Step(v, Add(m)), chunkNum)
  {
    var l := Accept(v.ledger, m);
    AcceptKeepsOrder(v.ledger, m);
    var cut := AddKeepsCut(v.ledger, 0, v.store.chunkOffset, false, m);
    forall a <- v.visits ensures Exact(l, a) {
      ExactStays(v.ledger, l, a);
    }
  }

  lemma NewPollIsExact(l: Ledger, k: nat, chunkNum: int)
    requires k <= |l.entries| && chunkNum < |l.entries|
    ensures var r := Poll(Cut(l, k, false), chunkNum);
            r.chunkNum == |l.entries| && Exact(l, Visit(chunkNum, r.chunkNum, k, r.yielded))
  {
    var chunks := Chunks(l.entries);
    var start := Max(0, chunkNum - k);
    CutTotal(chunks, k, start);
    assert chunks[k..][start..] == chunks[k + start..|l.entries|];
  }

  /** Whatever has been cut off and wherever the cursor is, a poll leaves it at the last
      chunk or beyond and yields exactly what is new. */
  lemma PollIsExact(l: Ledger, k: nat, chunkNum: int)
    requires k <= |l.entries|
    ensures var r := Poll(Cut(l, k, false), chunkNum);
            r.chunkNum == Max(chunkNum, |l.entries|) && Exact(l, Visit(chunkNum, r.chunkNum, k, r.yielded))
  {
    if |l.entries| <= chunkNum {
    } else {
      NewPollIsExact(l, k, chunkNum);
    }
  }

  lemma LookKeepsConsistent(v: Server, chunkNum: int)
    requires Consistent(v, chunkNum)
    ensures Consistent(Step(v, Look), chunkNum)
    ensures Step(v, Look).chunkNum == Max(v.chunkNum, |v.ledger.entries|)
  {
    var r := Step(v, Look);
    PollIsExact(v.ledger, v.store.chunkOffset, v.chunkNum);
    var a := Visit(v.chunkNum, r.chunkNum, v.store.chunkOffset, Poll(v.store, v.chunkNum).yielded);
    assert r.visits == v.visits + [a];
    forall i | 0 <= i < |r.visits| ensures Linked(chunkNum, r.visits, i) {
      if i < |v.visits| {
        assert Linked(chunkNum, v.visits, i);
      }
    }
  }

  /** Over every run, whatever is pruned between polls, each poll goes on where the last
      one stopped and yields exactly the chunks in between that are still there. */
  lemma {:induction false} SubscriberIsExact(chunkNum: int, events: seq<Event>)
    ensures Consistent(Run(chunkNum, events), chunkNum)
  {
    if events == [] {
      FreshIsCut();
    } else {
      SubscriberIsExact(chunkNum, events[..|events| - 1]);
      var v := Run(chunkNum, events[..|events| - 1]);
      match events[|events| - 1]
      case Add(m) => AddKeepsConsistent(v, chunkNum, m);
      case Look => LookKeepsConsistent(v, chunkNum);
    }
  }

  function Messages(events: seq<Event>): seq<Message> {
    if events == [] then []
    else
      var last := events[|events| - 1];
      Messages(events[..|events| - 1]) + (if last.Add? then [last.message] else [])
  }

  function Looks(events: seq<Event>): nat {
    if events == [] then 0
    else Looks(events[..|events| - 1]) + (if events[|events| - 1].Look? then 1 else 0)
  }

  /** Looking changes nothing for the others: the store is what the messages make it. And
      every look is on record. */
  lemma {:induction false} EveryEventCounts(chunkNum: int, events: seq<Event>)
    ensures var v := Run(chunkNum, events);
            && v.ledger == AcceptAll(EMPTY, Messages(events)) && v.store == AddAll(NEW_STORE, Messages(events))
            && |v.visits| == Looks(events)
  {
    if events == [] {
    } else {
      var before := events[..|events| - 1];
      EveryEventCounts(chunkNum, before);
      match events[|events| - 1]
      case Add(m) => AddOneMore(Messages(before), m);
      case Look => assert Messages(before) + [] == Messages(before);
    }
  }

  /** A look leaves the cursor at the last chunk, or where it was if that is further. */
  lemma LookReachesEnd(chunkNum: int, events: seq<Event>)
    ensures var v := Run(chunkNum, events);
            Run(chunkNum, events + [Look]).chunkNum == Max(v.chunkNum, |v.ledger.entries|)
  {
    SubscriberIsExact(chunkNum, events);
    RunOne(chunkNum, events, Look);
    LookKeepsConsistent(Run(chunkNum, events), chunkNum);
  }

  lemma {:induction false} CursorGrows(chunkNum: int, visits: seq<Visit>, i: nat, j: nat)
    requires i <= j <= |visits|
    requires forall n :: 0 <= n < |visits| ==> Linked(chunkNum, visits, n)
    ensures CursorBefore(chunkNum, visits, i) <= CursorBefore(chunkNum, visits, j)
    decreases j
  {
    if i == j {
    } else {
      CursorGrows(chunkNum, visits, i, j - 1);
      assert Linked(chunkNum, visits, j - 1);
    }
  }

  predicate Covers(a: Visit, x: int) {
    a.from <= x < a.to
  }

  lemma {:induction false} SomePollCovers(chunkNum: int, visits: seq<Visit>, n: nat, x: int)
    requires n <= |visits| && chunkNum <= x < CursorBefore(chunkNum, visits, n)
    requires forall i :: 0 <= i < |visits| ==> Linked(chunkNum, visits, i)
    ensures exists i :: 0 <= i < n && Covers(visits[i], x)
  {
    assert Linked(chunkNum, visits, n - 1);
    if x < CursorBefore(chunkNum, visits, n - 1) {
      SomePollCovers(chunkNum, visits, n - 1, x);
    } else {
      assert Covers(visits[n - 1], x);
    }
  }

  lemma PollsDisjoint(chunkNum: int, visits: seq<Visit>, i: nat, j: nat)
    requires i < j < |visits|
    requires forall n :: 0 <= n < |visits| ==> Linked(chunkNum, visits, n)
    ensures visits[i].to <= visits[j].from
  {
    assert Linked(chunkNum, visits, j);
    CursorGrows(chunkNum, visits, i + 1, j);
  }

  /** Chunk `x` is among those that the poll yielded, which are the last ones before the
      place where it left the cursor. */
  predicate Delivers(a: Visit, x: int) {
    a.yielded.Some? && a.to - |a.yielded.value.chunks| <= x < a.to
  }

  function Delivered(a: Visit, x: int): Bytes
    requires Delivers(a, x)
  {
    a.yielded.value.chunks[x - (a.to - |a.yielded.value.chunks|)]
  }

  lemma DeliversIff(l: Ledger, a: Visit, x: int)
    requires Exact(l, a) && 0 <= x
    ensures Delivers(a, x) <==> Covers(a, x) && a.pruned <= x
    ensures Delivers(a, x) ==> x < |l.entries| && Delivered(a, x) == l.entries[x].data
  {
  }

  /** Every chunk that the cursor has passed belongs to exactly one poll, which has yielded
      it if it was not pruned before. No other poll has yielded it, so no chunk reaches the
      viewer twice or out of order. */
  lemma EachChunkOnce(chunkNum: int, events: seq<Event>, x: nat)
    requires chunkNum <= x < Run(chunkNum, events).chunkNum
    ensures var v := Run(chunkNum, events);
            exists i :: 0 <= i < |v.visits| && Covers(v.visits[i], x)
                        && (forall j :: 0 <= j < |v.visits| && Covers(v.visits[j], x) ==> j == i)
                        && (forall j :: 0 <= j < |v.visits| ==>
                              (Delivers(v.visits[j], x) <==> j == i && v.visits[i].pruned <= x))
                        && (Delivers(v.visits[i], x) ==>
                              x < |v.ledger.entries| && Delivered(v.visits[i], x) == v.ledger.entries[x].data)
  {
    SubscriberIsExact(chunkNum, events);
    var l := Run(chunkNum, events).ledger;
    var visits := Run(chunkNum, events).visits;
    SomePollCovers(chunkNum, visits, |visits|, x);
    var i :| 0 <= i < |visits| && Covers(visits[i], x);
    forall j | 0 <= j < |visits|
      ensures Delivers(visits[j], x) <==> Covers(visits[j], x) && visits[j].pruned <= x
    {
      assert visits[j] in visits;
      DeliversIff(l, visits[j], x);
    }
    DeliversIff(l, visits[i], x);
    forall j | 0 <= j < |visits| && Covers(visits[j], x) ensures j == i {
      if i < j {
        PollsDisjoint(chunkNum, visits, i, j);
      } else if j < i {
        PollsDisjoint(chunkNum, visits, j, i);
      }
    }
  }

  /** The label is the true position of the first chunk exactly when nothing was skipped up
      to it; otherwise it is too small. */
  lemma LabelIsPositionIff(chunkNum: int, events: seq<Event>, i: nat)
    requires i < |Run(chunkNum, events).visits| && Run(chunkNum, events).visits[i].yielded.Some?
    ensures var v := Run(chunkNum, events);
            var a := v.visits[i];
            var first := Max(a.from, a.pruned);
            && first < |v.ledger.entries|
            && a.yielded.value.byteNum <= v.ledger.entries[first].seqNum
            && (a.yielded.value.byteNum == v.ledger.entries[first].seqNum <==>
                  forall j :: 0 <= j <= first ==> Contiguous(v.ledger.entries, j))
  {
    SubscriberIsExact(chunkNum, events);
    var v := Run(chunkNum, events);
    var a := v.visits[i];
    assert Exact(v.ledger, a);
    CountedPosition(v.ledger, Max(a.from, a.pruned));
  }

  lemma AddFirstMessage(m: Message)
    requires 0 < m.seqNum && m.data != [] && m.End() <= SHELL_STORED_BYTES
    ensures Step(NewServer(0), Add(m)) == Server(Ledger(m.End(), [m]), Store(m.End(), [m.data], 0, 0, false), 0, [])
  {
    var st := Store(m.End(), [m.data], 0, 0, false);
    assert AfterAdd(NEW_STORE, m) == Manage(st);
    assert st.data[0..] == st.data;
  }

  /** Whenever the first message is late, at position 1 for one, the viewer who looks then
      is told that it is at position 0. */
  lemma LabelCanBeWrong(m: Message)
    requires 0 < m.seqNum && m.data != [] && m.End() <= SHELL_STORED_BYTES
    ensures var v := Run(0, [] + [Add(m)] + [Look]);
            && v.ledger.entries == [m]
            && v.visits == [Visit(0, 1, 0, Some(Yield(0, [m.data])))]
  {
    AddFirstMessage(m);
    RunOne(0, [], Add(m));
    RunOne(0, [] + [Add(m)], Look);
    var v := Step(NewServer(0), Add(m));
    assert v.store.data[0..] == v.store.data && v.store.data[..0] == [];
  }
}
