/** The reader-writer lock as a machine over any number of acquisitions. Every step happens
    under the lock's condition; time shows only in the timeout steps. */
module RwLock {
  datatype Lock = Lock(readers: int, writersWaiting: int, writerActive: bool) {
    /** The condition on which a writer waits is false. */
    predicate FreeToWrite() {
      !writerActive && readers <= 0
    }

    function WithReader(): Lock {
      this.(readers := readers + 1)
    }

    function WithoutReader(): Lock {
      this.(readers := readers - 1)
    }

    function WithRequest(): Lock {
      this.(writersWaiting := writersWaiting + 1)
    }

    function WithWriter(): Lock {
      this.(writersWaiting := writersWaiting - 1, writerActive := true)
    }

    function WithoutRequest(deadline: bool): Lock {
      this.(writersWaiting := writersWaiting - (if deadline then 2 else 1))
    }

    function WithoutWriter(): Lock {
      this.(writerActive := false)
    }
  }

  const UNLOCKED := Lock(0, 0, false)

  class ReadWriteLock {
    var readers: int
    var writersWaiting: int
    var writerActive: bool

    function View(): Lock
      reads this
    {
      Lock(readers, writersWaiting, writerActive)
    }

    constructor ()
      ensures View() == UNLOCKED
    {
      readers, writersWaiting, writerActive := 0, 0, false;
    }

    /** One check of the loop in acquire_read. After a timeout the reader goes on anyway. */
    method TryRead(timedOut: bool) returns (granted: bool)
      modifies this
      ensures granted == (timedOut || !old(writerActive))
      ensures View() == if granted then old(View()).WithReader() else old(View())
    {
      granted := timedOut || !writerActive;
      if granted {
        readers := readers + 1;
      }
    }

    /** The last reader wakes everyone who waits. */
    method ReleaseRead() returns (wakes: bool)
      modifies this
      ensures View() == old(View()).WithoutReader()
      ensures wakes == (readers == 0)
    {
      readers := readers - 1;
      wakes := readers == 0;
    }

    method RequestWrite()
      modifies this
      ensures View() == old(View()).WithRequest()
    {
      writersWaiting := writersWaiting + 1;
    }

    /** One check of the loop in acquire_write. */
    method TryWrite() returns (granted: bool)
      modifies this
      ensures granted == old(View()).FreeToWrite()
      ensures View() == if granted then old(View()).WithWriter() else old(View())
    {
      granted := !(writerActive || readers > 0);
      if granted {
        writersWaiting := writersWaiting - 1;
        writerActive := true;
      }
    }

    /** acquire_write raises. When the overall deadline raises, inside the try block, the
        handler for the single wait's timeout catches that too and counts down again. */
    method GiveUpWrite(deadline: bool)
      modifies this
      ensures View() == old(View()).WithoutRequest(deadline)
    {
      if deadline {
        writersWaiting := writersWaiting - 1;
      }
      writersWaiting := writersWaiting - 1;
    }

    /** Always wakes everyone who waits. */
    method ReleaseWrite() returns (wakes: bool)
      modifies this
      ensures View() == old(View()).WithoutWriter()
      ensures wakes
    {
      writerActive := false;
      wakes := true;
    }
  }

  // --- Any number of acquisitions ---

  type Id = nat

  datatype Role = WaitsToRead | Reads | WaitsToWrite | Writes

  /** `forced` counts readers let in by a timeout while a writer was active, `deadlines`
      the writers that met the overall deadline, `cancelled` those cancelled waiting. */
  datatype State = State(lock: Lock, roles: map<Id, Role>, forced: nat, deadlines: nat, cancelled: nat)

  datatype Event =
    | BeginRead(id: Id) | RetryRead(id: Id) | TimeoutRead(id: Id) | EndRead(id: Id)
    | BeginWrite(id: Id) | RetryWrite(id: Id) | TimeoutWrite(id: Id) | DeadlineWrite(id: Id) | EndWrite(id: Id)
    | Cancel(id: Id) | StrayRelease

  const START := State(UNLOCKED, map[], 0, 0, 0)

  function Admit(s: State, id: Id): State {
    s.(lock := s.lock.WithReader(), roles := s.roles[id := Reads])
  }

  function CheckWrite(s: State, id: Id): State {
    if s.lock.FreeToWrite() then s.(lock := s.lock.WithWriter(), roles := s.roles[id := Writes]) else s
  }

  function Enlist(s: State, id: Id): State {
    s.(lock := s.lock.WithRequest(), roles := s.roles[id := WaitsToWrite])
  }

  predicate Has(s: State, id: Id, role: Role) {
    id in s.roles && s.roles[id] == role
  }

  function Step(s: State, e: Event): State {
    match e
    case BeginRead(id) =>
      if id in s.roles then s
      else if s.lock.writerActive then s.(roles := s.roles[id := WaitsToRead])
      else Admit(s, id)
    case RetryRead(id) => if Has(s, id, WaitsToRead) && !s.lock.writerActive then Admit(s, id) else s
    case TimeoutRead(id) =>
      if !Has(s, id, WaitsToRead) then s
      else Admit(s, id).(forced := s.forced + (if s.lock.writerActive then 1 else 0))
    case EndRead(id) =>
      if !Has(s, id, Reads) then s
      else s.(lock := s.lock.WithoutReader(), roles := s.roles - {id})
    case BeginWrite(id) =>
      if id in s.roles then s
      else CheckWrite(Enlist(s, id), id)
    case RetryWrite(id) => if Has(s, id, WaitsToWrite) then CheckWrite(s, id) else s
    case TimeoutWrite(id) =>
      if !Has(s, id, WaitsToWrite) then s
      else s.(lock := s.lock.WithoutRequest(false), roles := s.roles - {id})
    case DeadlineWrite(id) =>
      if !Has(s, id, WaitsToWrite) || s.lock.FreeToWrite() then s
      else
        s.(lock := s.lock.WithoutRequest(true), roles := s.roles - {id},
           deadlines := s.deadlines + 1)
    case EndWrite(id) =>
      if !Has(s, id, Writes) then s
      else s.(lock := s.lock.WithoutWriter(), roles := s.roles - {id})
    case Cancel(id) =>
      if Has(s, id, WaitsToRead) then s.(roles := s.roles - {id})
      else if Has(s, id, WaitsToWrite) then s.(roles := s.roles - {id}, cancelled := s.cancelled + 1)
      else s
    case StrayRelease => s.(lock := s.lock.WithoutWriter())
  }

  function Run(events: seq<Event>): State {
    if events == [] then START
    else Step(Run(events[..|events| - 1]), events[|events| - 1])
  }

  function Holders(s: State, role: Role): set<Id> {
    set id | id in s.roles && s.roles[id] == role
  }

  function Count(s: State, role: Role): nat {
    |Holders(s, role)|
  }

  /** A release by a task that does not hold the lock only ever comes while no writer does. */
  predicate StraysAreHarmless(events: seq<Event>) {
    events == [] ||
    var before := events[..|events| - 1];
    StraysAreHarmless(before) && (events[|events| - 1].StrayRelease? ==> !Run(before).lock.writerActive)
  }

  predicate Exclusive(s: State) {
    && s.lock.readers == Count(s, Reads)
    && Count(s, Writes) == (if s.lock.writerActive then 1 else 0)
    && (s.forced == 0 ==> Count(s, Reads) == 0 || Count(s, Writes) == 0)
    && s.lock.writersWaiting == Count(s, WaitsToWrite) - s.deadlines + s.cancelled
  }

  ghost predicate SameElsewhere(s: State, t: State, id: Id) {
    forall i :: i != id ==>
      (i in s.roles <==> i in t.roles) && (i in s.roles ==> s.roles[i] == t.roles[i])
  }

  lemma Without(s: State, id: Id, role: Role, rest: set<Id>)
    requires forall i :: i in rest <==> i != id && Has(s, i, role)
    ensures Count(s, role) == |rest| + (if Has(s, id, role) then 1 else 0)
  {
    if Has(s, id, role) {
      assert Holders(s, role) == rest + {id};
    } else {
      assert Holders(s, role) == rest;
    }
  }

  /** How the count of a role changes when one acquisition changes its own. */
  lemma RoleChange(s: State, t: State, id: Id, role: Role)
    requires SameElsewhere(s, t, id)
    ensures Count(t, role) ==
            Count(s, role) + (if Has(t, id, role) then 1 else 0) - (if Has(s, id, role) then 1 else 0)
  {
    var rest := Holders(s, role) - {id};
    Without(s, id, role, rest);
    Without(t, id, role, rest);
  }

  lemma RolesChange(s: State, t: State, id: Id)
    requires SameElsewhere(s, t, id)
    ensures forall role :: Count(t, role) ==
              Count(s, role) + (if Has(t, id, role) then 1 else 0) - (if Has(s, id, role) then 1 else 0)
  {
    forall role ensures Count(t, role) ==
        Count(s, role) + (if Has(t, id, role) then 1 else 0) - (if Has(s, id, role) then 1 else 0)
    {
      RoleChange(s, t, id, role);
    }
  }

  lemma ReadStepKeepsExclusive(s: State, e: Event)
    requires Exclusive(s) && (e.BeginRead? || e.RetryRead? || e.TimeoutRead? || e.EndRead?)
    ensures Exclusive(Step(s, e))
  {
    RolesChange(s, Step(s, e), e.id);
  }

  lemma WriteStepKeepsExclusive(s: State, e: Event)
    requires Exclusive(s) && (e.RetryWrite? || e.TimeoutWrite? || e.DeadlineWrite? || e.EndWrite? || e.Cancel?)
    ensures Exclusive(Step(s, e))
  {
    RolesChange(s, Step(s, e), e.id);
  }

  lemma BeginWriteKeepsExclusive(s: State, id: Id)
    requires Exclusive(s)
    ensures Exclusive(Step(s, BeginWrite(id)))
  {
    if id !in s.roles {
      RolesChange(s, Enlist(s, id), id);
      WriteStepKeepsExclusive(Enlist(s, id), RetryWrite(id));
    }
  }

  /** On every run whose stray releases, if any, find no active writer: the reader count is
      right, at most one writer holds the lock, readers and a writer hold it together only
      after a reader was let in by a timeout, and the count of waiting writers is off by the
      deadlines met and the cancellations. */
  lemma {:induction false} LockIsExclusive(events: seq<Event>)
    requires StraysAreHarmless(events)
    ensures Exclusive(Run(events))
  {
    if events == [] {
    } else {
      var s := Run(events[..|events| - 1]);
      LockIsExclusive(events[..|events| - 1]);
      match events[|events| - 1]
      case StrayRelease =>
      case BeginWrite(id) => BeginWriteKeepsExclusive(s, id);
      case BeginRead(_) => ReadStepKeepsExclusive(s, events[|events| - 1]);
      case RetryRead(_) => ReadStepKeepsExclusive(s, events[|events| - 1]);
      case TimeoutRead(_) => ReadStepKeepsExclusive(s, events[|events| - 1]);
      case EndRead(_) => ReadStepKeepsExclusive(s, events[|events| - 1]);
      case _ => WriteStepKeepsExclusive(s, events[|events| - 1]);
    }
  }

  lemma TwoMembers(ids: set<Id>, a: Id, b: Id)
    requires a in ids && b in ids
    ensures a == b || |ids| >= 2
  {
    assert |ids - {a}| + 1 == |ids|;
    assert a != b ==> b in ids - {a};
  }

  lemma WritersNeverOverlap(events: seq<Event>, a: Id, b: Id)
    requires StraysAreHarmless(events)
    requires Has(Run(events), a, Writes) && Has(Run(events), b, Writes)
    ensures a == b
  {
    LockIsExclusive(events);
    TwoMembers(Holders(Run(events), Writes), a, b);
  }

  lemma RunOne(events: seq<Event>, e: Event)
    ensures Run(events + [e]) == Step(Run(events), e)
  {
    assert (events + [e])[..|events|] == events;
  }

  // --- What the counts stand for ---

  /** Someone is in that role. */
  predicate Held(roles: map<Id, Role>, role: Role) {
    exists id <- roles :: roles[id] == role
  }

  predicate In(roles: map<Id, Role>, id: Id, role: Role) {
    id in roles && roles[id] == role
  }

  /** The lock as it is meant, without counts: readers wait for a writer, writers for
      everyone, and whoever leaves is gone. */
  function Meant(roles: map<Id, Role>, e: Event): map<Id, Role> {
    match e
    case BeginRead(id) =>
      if id in roles then roles else roles[id := if Held(roles, Writes) then WaitsToRead else Reads]
    case RetryRead(id) => if In(roles, id, WaitsToRead) && !Held(roles, Writes) then roles[id := Reads] else roles
    case TimeoutRead(id) => if In(roles, id, WaitsToRead) then roles[id := Reads] else roles
    case EndRead(id) => if In(roles, id, Reads) then roles - {id} else roles
    case BeginWrite(id) =>
      if id in roles then roles
      else roles[id := if Held(roles, Reads) || Held(roles, Writes) then WaitsToWrite else Writes]
    case RetryWrite(id) =>
      if In(roles, id, WaitsToWrite) && !Held(roles, Reads) && !Held(roles, Writes) then roles[id := Writes]
      else roles
    case TimeoutWrite(id) => if In(roles, id, WaitsToWrite) then roles - {id} else roles
    case DeadlineWrite(id) =>
      if In(roles, id, WaitsToWrite) && (Held(roles, Reads) || Held(roles, Writes)) then roles - {id} else roles
    case EndWrite(id) => if In(roles, id, Writes) then roles - {id} else roles
    case Cancel(id) => if In(roles, id, WaitsToRead) || In(roles, id, WaitsToWrite) then roles - {id} else roles
    case StrayRelease => roles
  }

  function RunMeant(events: seq<Event>): map<Id, Role> {
    if events == [] then map[] else Meant(RunMeant(events[..|events| - 1]), events[|events| - 1])
  }

  lemma HeldIff(s: State, role: Role)
    ensures Held(s.roles, role) <==> Count(s, role) > 0
  {
    if Held(s.roles, role) {
      var id :| id in s.roles && s.roles[id] == role;
      assert id in Holders(s, role);
    } else {
      assert Holders(s, role) == {};
    }
  }

  lemma StepIsMeant(s: State, e: Event)
    requires Exclusive(s)
    ensures Step(s, e).roles == Meant(s.roles, e)
  {
    HeldIff(s, Reads);
    HeldIff(s, Writes);
  }

  /** On every such run the three fields decide as the lock that knows its holders does. */
  lemma {:induction false} LockIsAsMeant(events: seq<Event>)
    requires StraysAreHarmless(events)
    ensures Run(events).roles == RunMeant(events)
  {
    if events == [] {
    } else {
      LockIsAsMeant(events[..|events| - 1]);
      LockIsExclusive(events[..|events| - 1]);
      StepIsMeant(Run(events[..|events| - 1]), events[|events| - 1]);
    }
  }

  lemma ReaderAdmitted(s: State, id: Id)
    requires Exclusive(s)
    ensures id !in s.roles ==> (Has(Step(s, BeginRead(id)), id, Reads) <==> Count(s, Writes) == 0)
    ensures Has(s, id, WaitsToRead) ==> (Has(Step(s, RetryRead(id)), id, Reads) <==> Count(s, Writes) == 0)
  {
  }

  lemma WriterAdmitted(s: State, id: Id)
    requires Exclusive(s)
    ensures id !in s.roles ==>
              (Has(Step(s, BeginWrite(id)), id, Writes) <==> Count(s, Reads) == 0 && Count(s, Writes) == 0)
    ensures Has(s, id, WaitsToWrite) ==>
              (Has(Step(s, RetryWrite(id)), id, Writes) <==> Count(s, Reads) == 0 && Count(s, Writes) == 0)
  {
  }

  /** Nobody has come, and only holders that are `leaving` have gone. */
  ghost predicate OthersStay(s: State, t: State, leaving: Role) {
    forall id, role :: role != leaving ==> (Has(s, id, role) <==> Has(t, id, role))
  }

  lemma ReadEnds(s: State, id: Id)
    requires Has(s, id, Reads)
    ensures var t := Step(s, EndRead(id));
            && t.roles == s.roles - {id} && Count(t, Reads) == Count(s, Reads) - 1
            && t.lock == s.lock.WithoutReader() && OthersStay(s, t, Reads)
  {
    RoleChange(s, Step(s, EndRead(id)), id, Reads);
  }

  lemma WriteEnds(s: State, id: Id)
    requires Exclusive(s) && Has(s, id, Writes)
    ensures var t := Step(s, EndWrite(id));
            && t.roles == s.roles - {id} && Count(t, Writes) == 0 && !t.lock.writerActive
            && Exclusive(t) && OthersStay(s, t, Writes)
  {
    RoleChange(s, Step(s, EndWrite(id)), id, Writes);
    assert id in Holders(s, Writes);
    WriteStepKeepsExclusive(s, EndWrite(id));
  }

  /** `id` waits, and `e` is its next check. */
  predicate Retries(s: State, id: Id, e: Event) {
    (Has(s, id, WaitsToRead) && e == RetryRead(id)) || (Has(s, id, WaitsToWrite) && e == RetryWrite(id))
  }

  /** `id` comes to the lock, or checks again. */
  predicate Asks(s: State, id: Id, e: Event) {
    (id !in s.roles && (e == BeginRead(id) || e == BeginWrite(id))) || Retries(s, id, e)
  }

  /** From `s` to `t` it got in exactly if nobody was in its way. */
  predicate FairlyAdmitted(s: State, t: State, id: Id, e: Event) {
    if e.BeginRead? || e.RetryRead? then Has(t, id, Reads) <==> Count(s, Writes) == 0
    else Has(t, id, Writes) <==> Count(s, Reads) == 0 && Count(s, Writes) == 0
  }

  lemma AskingIsFair(s: State, id: Id, e: Event)
    requires Exclusive(s) && Asks(s, id, e)
    ensures FairlyAdmitted(s, Step(s, e), id, e)
  {
    ReaderAdmitted(s, id);
    WriterAdmitted(s, id);
  }

  /** Whoever asks, at first or again, gets in exactly when nobody is in its way. */
  lemma AdmittedIff(events: seq<Event>, id: Id, e: Event)
    requires StraysAreHarmless(events) && Asks(Run(events), id, e)
    ensures FairlyAdmitted(Run(events), Run(events + [e]), id, e)
  {
    LockIsExclusive(events);
    RunOne(events, e);
    AskingIsFair(Run(events), id, e);
  }

  /** `id` holds the lock and releases it. */
  predicate Leaves(s: State, id: Id, e: Event) {
    (Has(s, id, Reads) && e == EndRead(id)) || (Has(s, id, Writes) && e == EndWrite(id))
  }

  /** From `s` to `t` the holder `id` is gone, the others are as they were, and the lock
      knows it. */
  predicate Frees(s: State, t: State, id: Id) {
    && id in s.roles && t.roles == s.roles - {id}
    && (if s.roles[id] == Reads then t.lock.readers == s.lock.readers - 1 == Count(t, Reads)
        else !t.lock.writerActive && Count(t, Writes) == 0)
  }

  lemma LeavingFrees(s: State, id: Id, e: Event)
    requires Exclusive(s) && Leaves(s, id, e)
    ensures Frees(s, Step(s, e), id)
  {
    if e.EndRead? {
      ReadEnds(s, id);
    } else {
      WriteEnds(s, id);
    }
  }

  lemma ReleaseFrees(events: seq<Event>, id: Id, e: Event)
    requires StraysAreHarmless(events) && Leaves(Run(events), id, e)
    ensures Frees(Run(events), Run(events + [e]), id)
  {
    LockIsExclusive(events);
    LeavingFrees(Run(events), id, e);
    RunOne(events, e);
  }

  /** `id` waits, and stops waiting without having got in. */
  predicate GivesUp(s: State, id: Id, e: Event) {
    || (Has(s, id, WaitsToWrite) && (e == TimeoutWrite(id) || e == Cancel(id)))
    || (Has(s, id, WaitsToWrite) && e == DeadlineWrite(id) && !s.lock.FreeToWrite())
    || (Has(s, id, WaitsToRead) && e == Cancel(id))
  }

  /** Who gives up is gone; the others are as they were, and the lock is as open as before. */
  lemma GivingUpLeaves(events: seq<Event>, id: Id, e: Event)
    requires GivesUp(Run(events), id, e)
    ensures var s := Run(events);
            var t := Run(events + [e]);
            && t.roles == s.roles - {id}
            && t.lock.readers == s.lock.readers && t.lock.writerActive == s.lock.writerActive
  {
    RunOne(events, e);
  }

  // --- Everyone who waits can get in ---

  function RunFrom(s: State, events: seq<Event>): State
    decreases |events|
  {
    if events == [] then s else RunFrom(Step(s, events[0]), events[1..])
  }

  lemma {:induction false} RunsOn(events: seq<Event>, more: seq<Event>)
    ensures Run(events + more) == RunFrom(Run(events), more)
    decreases |more|
  {
    if more == [] {
      assert events + more == events;
    } else {
      assert events + more == events + [more[0]] + more[1..];
      RunsOn(events + [more[0]], more[1..]);
      RunOne(events, more[0]);
    }
  }

  lemma {:induction false} RunFromInTwo(s: State, first: seq<Event>, second: seq<Event>)
    ensures RunFrom(s, first + second) == RunFrom(RunFrom(s, first), second)
    decreases |first|
  {
    if first == [] {
      assert first + second == second;
    } else {
      assert (first + second)[1..] == first[1..] + second;
      RunFromInTwo(Step(s, first[0]), first[1..], second);
    }
  }

  predicate Releases(events: seq<Event>) {
    forall e <- events :: e.EndRead? || e.EndWrite?
  }

  ghost predicate ReadersLeft(s: State, t: State) {
    t.lock.readers == 0 && t.lock.writerActive == s.lock.writerActive && OthersStay(s, t, Reads)
  }

  /** Every reader can leave. */
  lemma {:induction false} DrainReaders(s: State) returns (more: seq<Event>)
    requires s.lock.readers == Count(s, Reads)
    ensures Releases(more) && ReadersLeft(s, RunFrom(s, more))
    decreases Count(s, Reads)
  {
    if Count(s, Reads) == 0 {
      more := [];
    } else {
      var id :| id in Holders(s, Reads);
      ReadEnds(s, id);
      var rest := DrainReaders(Step(s, EndRead(id)));
      more := [EndRead(id)] + rest;
    }
  }

  ghost predicate WritersLeft(s: State, t: State) {
    Exclusive(t) && !t.lock.writerActive && OthersStay(s, t, Writes)
  }

  lemma WritersLeave(s: State) returns (more: seq<Event>)
    requires Exclusive(s)
    ensures Releases(more) && WritersLeft(s, RunFrom(s, more))
  {
    if Count(s, Writes) == 0 {
      more := [];
    } else {
      var id :| id in Holders(s, Writes);
      WriteEnds(s, id);
      more := [EndWrite(id)];
    }
  }

  /** The lock is free, and those who waited still wait. */
  ghost predicate WayIsFree(s: State, t: State) {
    && t.lock.FreeToWrite()
    && forall id, role :: role == WaitsToWrite || role == WaitsToRead ==> (Has(s, id, role) <==> Has(t, id, role))
  }

  lemma AllLeft(s: State, t: State, u: State)
    requires WritersLeft(s, t) && ReadersLeft(t, u)
    ensures WayIsFree(s, u)
  {
    forall id, role | role == WaitsToWrite || role == WaitsToRead ensures Has(s, id, role) <==> Has(u, id, role) {
      assert Has(s, id, role) <==> Has(t, id, role);
    }
  }

  lemma AllLeave(s: State) returns (more: seq<Event>)
    requires Exclusive(s)
    ensures Releases(more) && WayIsFree(s, RunFrom(s, more))
  {
    var out := WritersLeave(s);
    var t := RunFrom(s, out);
    var rest := DrainReaders(t);
    AllLeft(s, t, RunFrom(t, rest));
    RunFromInTwo(s, out, rest);
    more := out + rest;
  }

  lemma NextGetsIn(s: State, t: State, id: Id, e: Event)
    requires WayIsFree(s, t) && Retries(s, id, e)
    ensures Has(Step(t, e), id, if e.RetryRead? then Reads else Writes)
  {
  }

  /** Nobody waits in vain: once those who hold the lock have released it, any one of those
      who wait gets in at its next check. */
  lemma WaiterGetsIn(events: seq<Event>, id: Id, e: Event) returns (more: seq<Event>)
    requires StraysAreHarmless(events) && Retries(Run(events), id, e)
    ensures Releases(more)
    ensures Has(Run(events + more + [e]), id, if e.RetryRead? then Reads else Writes)
  {
    LockIsExclusive(events);
    more := AllLeave(Run(events));
    RunsOn(events, more);
    NextGetsIn(Run(events), Run(events + more), id, e);
    RunOne(events + more, e);
  }

  // --- Readers beside a writer ---

  predicate Mixed(s: State) {
    Count(s, Reads) > 0 && Count(s, Writes) > 0
  }

  predicate EverMixed(events: seq<Event>) {
    Mixed(Run(events)) || (events != [] && EverMixed(events[..|events| - 1]))
  }

  lemma ForcingMixes(s: State, e: Event)
    requires Exclusive(s) && s.forced < Step(s, e).forced
    ensures Mixed(Step(s, e))
  {
    RolesChange(s, Step(s, e), e.id);
  }

  /** A reader and a writer hold the lock together at some time of a run exactly when a
      timeout let a reader in while a writer was active. */
  lemma {:induction false} MixedIffForced(events: seq<Event>)
    requires StraysAreHarmless(events)
    ensures EverMixed(events) <==> Run(events).forced > 0
  {
    LockIsExclusive(events);
    if events == [] {
    } else {
      var before := events[..|events| - 1];
      MixedIffForced(before);
      LockIsExclusive(before);
      if Run(before).forced < Run(events).forced {
        ForcingMixes(Run(before), events[|events| - 1]);
      }
    }
  }

  /** One reader that waits for a writer until its timeout is enough. */
  lemma TimeoutMixes()
    ensures Mixed(Run([] + [BeginWrite(1)] + [BeginRead(2)] + [TimeoutRead(2)]))
  {
    var waiting := [] + [BeginWrite(1)] + [BeginRead(2)];
    RunOne([], BeginWrite(1));
    RunOne([] + [BeginWrite(1)], BeginRead(2));
    RunOne(waiting, TimeoutRead(2));
    LockIsExclusive(waiting);
    ForcingMixes(Run(waiting), TimeoutRead(2));
  }

  const TWO_WRITERS: seq<Event> := [] + [BeginWrite(1)] + [BeginWrite(2)]

  lemma SecondWriterWaits()
    ensures Run(TWO_WRITERS) == State(Lock(0, 1, true), map[1 := Writes, 2 := WaitsToWrite], 0, 0, 0)
  {
    RunOne([], BeginWrite(1));
    RunOne([] + [BeginWrite(1)], BeginWrite(2));
  }

  /** One writer that waits until the overall deadline leaves the count at -1. */
  lemma DeadlineMiscounts()
    ensures Run(TWO_WRITERS + [DeadlineWrite(2)]).lock.writersWaiting == -1
  {
    SecondWriterWaits();
    RunOne(TWO_WRITERS, DeadlineWrite(2));
  }

  // --- Stray releases ---

  lemma FreshId(ids: set<Id>) returns (id: Id)
    ensures id !in ids && forall i <- ids :: i < id
  {
    if ids == {} {
      id := 0;
    } else {
      var i :| i in ids;
      var above := FreshId(ids - {i});
      assert ids == (ids - {i}) + {i};
      id := if above <= i then i + 1 else above;
    }
  }

  /** After a stray release the holders' own steps `more` lead to two writers. */
  predicate LetsTwoIn(events: seq<Event>, more: seq<Event>) {
    StrayRelease !in more && Count(Run(events + [StrayRelease] + more), Writes) >= 2
  }

  /** After a stray release has cleared the flag of an active writer, a second writer gets
      in once the readers are gone. */
  lemma StrayReleaseAdmits(events: seq<Event>) returns (more: seq<Event>)
    requires Exclusive(Run(events)) && Run(events).lock.writerActive
    ensures LetsTwoIn(events, more)
  {
    var writer :| writer in Holders(Run(events), Writes);
    RunOne(events, StrayRelease);
    var strayed := events + [StrayRelease];
    assert Holders(Run(strayed), Reads) == Holders(Run(events), Reads);
    var out := DrainReaders(Run(strayed));
    RunsOn(strayed, out);
    var s := Run(strayed + out);
    assert Has(Run(strayed), writer, Writes);
    var id := FreshId(s.roles.Keys);
    RunOne(strayed + out, BeginWrite(id));
    more := out + [BeginWrite(id)];
    assert strayed + more == strayed + out + [BeginWrite(id)];
    var t := Run(strayed + more);
    assert Has(t, writer, Writes) && Has(t, id, Writes);
    TwoMembers(Holders(t, Writes), writer, id);
  }

  lemma {:induction false} NoMoreStrays(events: seq<Event>, more: seq<Event>)
    requires StraysAreHarmless(events) && StrayRelease !in more
    ensures StraysAreHarmless(events + more)
  {
    if more == [] {
      assert events + more == events;
    } else {
      assert (events + more)[..|events + more| - 1] == events + more[..|more| - 1];
      assert more[|more| - 1] in more;
      NoMoreStrays(events, more[..|more| - 1]);
    }
  }

  lemma ActiveWriterIsHarmed(events: seq<Event>)
    requires StraysAreHarmless(events) && Run(events).lock.writerActive
    ensures exists more :: LetsTwoIn(events, more)
  {
    LockIsExclusive(events);
    var more := StrayReleaseAdmits(events);
  }

  lemma HarmlessStray(events: seq<Event>, more: seq<Event>)
    requires StraysAreHarmless(events) && !Run(events).lock.writerActive
    ensures !LetsTwoIn(events, more)
  {
    if StrayRelease !in more {
      assert (events + [StrayRelease])[..|events|] == events;
      NoMoreStrays(events + [StrayRelease], more);
      LockIsExclusive(events + [StrayRelease] + more);
    }
  }

  /** `close_shell` and `update_users` release the write lock in a finally block that also
      runs when it was never acquired. After any run without harm so far, such a release
      can let two writers in, by later steps of holders alone, exactly when a writer is
      active at that moment. */
  lemma StrayReleaseHarmsIff(events: seq<Event>)
    requires StraysAreHarmless(events)
    ensures (exists more :: LetsTwoIn(events, more)) <==> Run(events).lock.writerActive
  {
    if Run(events).lock.writerActive {
      ActiveWriterIsHarmed(events);
    } else {
      forall more ensures !LetsTwoIn(events, more) {
        HarmlessStray(events, more);
      }
    }
  }

  /** A writer that times out beside an active one and releases regardless, as `close_shell`
      does, and a third: the first and the third are in together. */
  lemma StrayReleaseBreaksLock()
    ensures var s := Run(TWO_WRITERS + [TimeoutWrite(2)] + [StrayRelease] + [BeginWrite(3)]);
            Has(s, 1, Writes) && Has(s, 3, Writes)
  {
    SecondWriterWaits();
    RunOne(TWO_WRITERS, TimeoutWrite(2));
    RunOne(TWO_WRITERS + [TimeoutWrite(2)], StrayRelease);
    RunOne(TWO_WRITERS + [TimeoutWrite(2)] + [StrayRelease], BeginWrite(3));
  }
}
