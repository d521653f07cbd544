/** The permit that wakes the subscribers of a shell, and which wakeups it loses. */
module Notify {
  import opened Numbers

  type Id = nat

  /** `notify_n` and `notify_all` set the permit and `wait` takes it; all three hold the
      condition's lock, so each is one step. `waiters` are those asleep on the
      condition, the longest first. */
  class Notify {
    var permit: bool
    var waiters: seq<Id>

    constructor ()
      ensures !permit && waiters == []
    {
      permit := false;
      waiters := [];
    }

    method NotifyN(n: nat)
      modifies this
      ensures permit && waiters == old(waiters)[Min(n, |old(waiters)|)..]
    {
      permit := true;
      waiters := waiters[Min(n, |waiters|)..];
    }

    method NotifyAll()
      modifies this
      ensures permit && waiters == []
    {
      permit := true;
      waiters := [];
    }

    /** One check of the waiting loop by a task that is awake: it leaves the loop with the
        permit, or goes to sleep. */
    method Check(id: Id) returns (taken: bool)
      modifies this
      ensures taken == old(permit) && !permit
      ensures waiters == if taken then old(waiters) else old(waiters) + [id]
    {
      taken := permit;
      if taken {
        permit := false;
      } else {
        waiters := waiters + [id];
      }
    }
  }

  /** A subscriber looks for chunks, goes to wait, sleeps when there is no permit, and is
      woken to check again. */
  datatype Phase = Looking | Leaving | Asleep | Woken

  datatype Viewer = Viewer(phase: Phase, cursor: int)

  /** `total` chunks have been appended. A call that appends keeps the shell's lock until it
      has called `notify_all`; `announcing` says that one is in between. */
  datatype Shell = Shell(total: nat, permit: bool, announcing: bool, viewers: map<Id, Viewer>)

  datatype Event = Append | Announce | Look(id: Id) | Wait(id: Id)

  function Opened(cursors: map<Id, int>): Shell {
    Shell(0, false, false, map id | id in cursors :: Viewer(Looking, cursors[id]))
  }

  function Step(s: Shell, e: Event): Shell {
    match e
    case Append => if s.announcing then s else s.(total := s.total + 1, announcing := true)
    case Announce =>
      if !s.announcing then s
      else
        s.(announcing := false, permit := true,
           viewers := map id | id in s.viewers ::
             if s.viewers[id].phase == Asleep then s.viewers[id].(phase := Woken) else s.viewers[id])
    case Look(id) =>
      if id !in s.viewers || s.viewers[id].phase != Looking then s
      else
        var cursor := s.viewers[id].cursor;
        s.(viewers := s.viewers[id := Viewer(Leaving, if cursor < s.total then s.total else cursor)])
    case Wait(id) =>
      if id !in s.viewers || s.viewers[id].phase == Looking || s.viewers[id].phase == Asleep then s
      else if s.permit then s.(permit := false, viewers := s.viewers[id := s.viewers[id].(phase := Looking)])
      else s.(viewers := s.viewers[id := s.viewers[id].(phase := Asleep)])
  }

  function Run(cursors: map<Id, int>, events: seq<Event>): (s: Shell)
    ensures s.viewers.Keys == cursors.Keys
  {
    if events == [] then Opened(cursors)
    else
      var s := Run(cursors, events[..|events| - 1]);
      assert Step(s, events[|events| - 1]).viewers.Keys == s.viewers.Keys;
      Step(s, events[|events| - 1])
  }

  lemma RunOne(cursors: map<Id, int>, events: seq<Event>, e: Event)
    ensures Run(cursors, events + [e]) == Step(Run(cursors, events), e)
  {
    assert (events + [e])[..|events|] == events;
  }

  /** The subscriber has not seen the last chunks. */
  predicate Behind(s: Shell, id: Id)
    requires id in s.viewers
  {
    s.viewers[id].cursor < s.total
  }

  /** Nothing that is under way will wake subscriber `id`, which sleeps and is behind. */
  predicate Forgotten(s: Shell, id: Id) {
    id in s.viewers && s.viewers[id].phase == Asleep && Behind(s, id) && !s.permit && !s.announcing
  }

  ghost predicate SomeoneForgotten(s: Shell) {
    exists id <- s.viewers :: Forgotten(s, id)
  }

  /** The only subscriber, if it is behind and not looking, can count on a permit. */
  ghost predicate OnlyOneIsServed(s: Shell, only: Id) {
    only in s.viewers ==>
      && (s.viewers[only].phase == Asleep ==> !s.permit)
      && (s.viewers[only].phase != Looking && Behind(s, only) ==> s.permit || s.announcing)
  }

  /** A permit wakes everyone: while it is set nobody sleeps. */
  ghost predicate AllAwake(s: Shell) {
    s.permit ==> forall id <- s.viewers :: s.viewers[id].phase != Asleep
  }

  lemma StepKeepsAwake(s: Shell, e: Event)
    requires AllAwake(s)
    ensures AllAwake(Step(s, e))
  {
    var t := Step(s, e);
    if t.permit {
      forall id <- t.viewers ensures t.viewers[id].phase != Asleep {
        assert id in s.viewers;
      }
    }
  }

  lemma {:induction false} PermitWakesAll(cursors: map<Id, int>, events: seq<Event>)
    ensures AllAwake(Run(cursors, events))
  {
    if events == [] {
    } else {
      PermitWakesAll(cursors, events[..|events| - 1]);
      StepKeepsAwake(Run(cursors, events[..|events| - 1]), events[|events| - 1]);
    }
  }

  lemma {:induction false} SingleViewerIsServed(cursors: map<Id, int>, events: seq<Event>, only: Id)
    requires forall id <- cursors :: id == only
    ensures OnlyOneIsServed(Run(cursors, events), only)
  {
    if events == [] {
    } else {
      SingleViewerIsServed(cursors, events[..|events| - 1], only);
      var s := Run(cursors, events[..|events| - 1]);
      assert forall id <- s.viewers :: id == only;
    }
  }

  /** However many subscribers there are, the last chunk has been seen by one of them, or
      one is about to look, or one more can still be woken. */
  lemma {:induction false} SomeoneIsServed(cursors: map<Id, int>, events: seq<Event>)
    requires cursors.Keys != {}
    ensures var s := Run(cursors, events);
            || s.permit || s.announcing
            || exists id <- s.viewers :: s.viewers[id].phase == Looking || !Behind(s, id)
  {
    if events == [] {
      var id :| id in cursors;
      assert Opened(cursors).viewers[id].phase == Looking;
    } else {
      var before := events[..|events| - 1];
      SomeoneIsServed(cursors, before);
      var s := Run(cursors, before);
      var r := Run(cursors, events);
      if !s.permit && !s.announcing {
        var id :| id in s.viewers && (s.viewers[id].phase == Looking || !Behind(s, id));
        assert id in r.viewers;
      } else if events[|events| - 1].Wait? && !r.permit && !r.announcing {
        assert r.viewers[events[|events| - 1].id].phase == Looking;
      }
    }
  }

  // --- Who can still catch up ---

  /** Steps of subscriber `id` alone, and the announcement that is due, if any. */
  predicate Own(events: seq<Event>, id: Id) {
    forall e <- events :: e == Announce || e == Look(id) || e == Wait(id)
  }

  /** Subscriber `id` has seen everything, or is about to look, or can be woken. */
  predicate CanCatchUp(s: Shell, id: Id)
    requires id in s.viewers
  {
    !Behind(s, id) || s.viewers[id].phase == Looking || s.permit || s.announcing
  }

  lemma OwnStepsAreStuck(s: Shell, id: Id, e: Event)
    requires id in s.viewers && !CanCatchUp(s, id) && Own([e], id)
    ensures id in Step(s, e).viewers && !CanCatchUp(Step(s, e), id)
  {
    assert e in [e];
  }

  lemma {:induction false} StaysStuck(cursors: map<Id, int>, events: seq<Event>, more: seq<Event>, id: Id)
    requires id in cursors && !CanCatchUp(Run(cursors, events), id) && Own(more, id)
    ensures !CanCatchUp(Run(cursors, events + more), id)
  {
    if more == [] {
      assert events + more == events;
    } else {
      var n := |more| - 1;
      assert events + more == events + more[..n] + [more[n]];
      assert more[n] in more && forall e <- more[..n] :: e in more;
      StaysStuck(cursors, events, more[..n], id);
      OwnStepsAreStuck(Run(cursors, events + more[..n]), id, more[n]);
      RunOne(cursors, events + more[..n], more[n]);
    }
  }

  predicate ReadyToLook(s: Shell, id: Id) {
    id in s.viewers && (!Behind(s, id) || s.viewers[id].phase == Looking)
  }

  lemma AnnounceAndWait(s: Shell, id: Id)
    requires id in s.viewers && CanCatchUp(s, id) && AllAwake(s)
    ensures ReadyToLook(Step(Step(s, Announce), Wait(id)), id)
  {
  }

  predicate Served(s: Shell, id: Id) {
    id in s.viewers && !Behind(s, id)
  }

  lemma LookServes(s: Shell, id: Id)
    requires ReadyToLook(s, id)
    ensures Served(Step(s, Look(id)), id)
  {
  }

  /** An announcement, a wait and a look are enough. */
  lemma CatchesUp(cursors: map<Id, int>, events: seq<Event>, id: Id)
    requires id in cursors && CanCatchUp(Run(cursors, events), id)
    ensures Served(Run(cursors, events + [Announce] + [Wait(id)] + [Look(id)]), id)
  {
    var s := Run(cursors, events);
    PermitWakesAll(cursors, events);
    AnnounceAndWait(s, id);
    LookServes(Step(Step(s, Announce), Wait(id)), id);
    RunOne(cursors, events, Announce);
    RunOne(cursors, events + [Announce], Wait(id));
    RunOne(cursors, events + [Announce] + [Wait(id)], Look(id));
  }

  /** In every reachable state a subscriber can catch up by its own steps, and the
      announcement that is due, exactly when it is not stuck: behind, not looking, without
      a permit and without an announcement to come. */
  lemma CatchesUpIff(cursors: map<Id, int>, events: seq<Event>, id: Id)
    requires id in cursors
    ensures (exists more :: Own(more, id) && Served(Run(cursors, events + more), id)) <==>
            CanCatchUp(Run(cursors, events), id)
  {
    if CanCatchUp(Run(cursors, events), id) {
      var more := [] + [Announce] + [Wait(id)] + [Look(id)];
      CatchesUp(cursors, events, id);
      assert events + more == events + [Announce] + [Wait(id)] + [Look(id)];
      assert Own(more, id) && Served(Run(cursors, events + more), id);
    } else {
      forall more | Own(more, id) ensures !Served(Run(cursors, events + more), id) {
        StaysStuck(cursors, events, more, id);
      }
    }
  }

  // --- How a wakeup is lost ---

  /** `n` chunks are appended and announced, one after the other. */
  function Rounds(n: nat): seq<Event> {
    if n == 0 then [] else Rounds(n - 1) + [Append] + [Announce]
  }

  lemma {:induction false} AfterRounds(cursors: map<Id, int>, n: nat)
    ensures var s := Run(cursors, Rounds(n));
            && s.total == n && !s.announcing && s.permit == (n > 0)
            && s.viewers == Opened(cursors).viewers
  {
    if n == 0 {
    } else {
      AfterRounds(cursors, n - 1);
      RunOne(cursors, Rounds(n - 1), Append);
      RunOne(cursors, Rounds(n - 1) + [Append], Announce);
    }
  }

  /** Two different subscribers, and where they are. */
  predicate Pair(s: Shell, a: Id, first: Phase, b: Id, second: Viewer) {
    a in s.viewers && b in s.viewers && a != b && s.viewers[a].phase == first && s.viewers[b] == second
  }

  /** Both look; the first to wait takes the permit of the last round, looks again and
      sleeps, and the second sleeps at once. */
  function FallAsleep(a: Id, b: Id, n: nat): seq<Event> {
    Rounds(n) + [Look(a)] + [Look(b)] + [Wait(a)] + [Wait(b)] + [Look(a)] + [Wait(a)]
  }

  /** Then a chunk is appended and announced, both wake, and the first takes the permit. */
  function Collision(a: Id, b: Id, n: nat): seq<Event> {
    FallAsleep(a, b, n) + [Append] + [Announce] + [Wait(a)] + [Wait(b)]
  }

  lemma BothLook(cursors: map<Id, int>, a: Id, b: Id, n: nat)
    requires a in cursors && b in cursors && a != b && cursors[a] <= n && cursors[b] <= n && n > 0
    ensures var s := Run(cursors, Rounds(n) + [Look(a)] + [Look(b)]);
            && Pair(s, a, Leaving, b, Viewer(Leaving, n)) && s.viewers[a].cursor == n
            && s.total == n && !s.announcing && s.permit
  {
    AfterRounds(cursors, n);
    RunOne(cursors, Rounds(n), Look(a));
    RunOne(cursors, Rounds(n) + [Look(a)], Look(b));
  }

  lemma BothSleep(cursors: map<Id, int>, a: Id, b: Id, n: nat)
    requires a in cursors && b in cursors && a != b && cursors[a] <= n && cursors[b] <= n && n > 0
    ensures var s := Run(cursors, FallAsleep(a, b, n));
            && Pair(s, a, Asleep, b, Viewer(Asleep, n))
            && s.total == n && !s.announcing && !s.permit
  {
    var looked := Rounds(n) + [Look(a)] + [Look(b)];
    BothLook(cursors, a, b, n);
    RunOne(cursors, looked, Wait(a));
    RunOne(cursors, looked + [Wait(a)], Wait(b));
    assert Pair(Run(cursors, looked + [Wait(a)] + [Wait(b)]), a, Looking, b, Viewer(Asleep, n));
    RunOne(cursors, looked + [Wait(a)] + [Wait(b)], Look(a));
    RunOne(cursors, looked + [Wait(a)] + [Wait(b)] + [Look(a)], Wait(a));
  }

  lemma CollisionForgets(cursors: map<Id, int>, a: Id, b: Id, n: nat)
    requires a in cursors && b in cursors && a != b && cursors[a] <= n && cursors[b] <= n && n > 0
    ensures Forgotten(Run(cursors, Collision(a, b, n)), b)
  {
    var asleep := FallAsleep(a, b, n);
    BothSleep(cursors, a, b, n);
    RunOne(cursors, asleep, Append);
    RunOne(cursors, asleep + [Append], Announce);
    assert Pair(Run(cursors, asleep + [Append] + [Announce]), a, Woken, b, Viewer(Woken, n));
    RunOne(cursors, asleep + [Append] + [Announce], Wait(a));
    RunOne(cursors, asleep + [Append] + [Announce] + [Wait(a)], Wait(b));
  }

  lemma NobodyForgotten(cursors: map<Id, int>, events: seq<Event>)
    requires forall a, b :: a in cursors && b in cursors ==> a == b
    ensures !SomeoneForgotten(Run(cursors, events))
  {
    var s := Run(cursors, events);
    forall id <- s.viewers ensures !Forgotten(s, id) {
      SingleViewerIsServed(cursors, events, id);
    }
  }

  /** Wherever the subscribers start, a wakeup can be lost exactly when there are two. */
  lemma WakeupLostIff(cursors: map<Id, int>)
    ensures (exists events :: SomeoneForgotten(Run(cursors, events))) <==>
            (exists a, b :: a in cursors && b in cursors && a != b)
  {
    if exists a, b :: a in cursors && b in cursors && a != b {
      var a, b :| a in cursors && b in cursors && a != b;
      var n := Max(1, Max(cursors[a], cursors[b]));
      CollisionForgets(cursors, a, b, n);
      assert SomeoneForgotten(Run(cursors, Collision(a, b, n)));
      assert exists events :: SomeoneForgotten(Run(cursors, events));
    } else {
      forall events ensures !SomeoneForgotten(Run(cursors, events)) {
        NobodyForgotten(cursors, events);
      }
    }
  }
}
