/**
 The time-driven sweeps as functions on the tables they rewrite, and their agreement with the readers that
 judge expiry for themselves: the eligibility query and session authentication.
 */
module Retention {
  import opened Domain
  import opened Ranking
  import opened Eligibility

  datatype EventRow = EventRow(status: EventStatus, startsAt: Time, endsAt: Time, retentionDays: nat)

  /** A moderation action on a user; `restricts` marks the two restrict_* kinds. */
  datatype Action = Action(target: Id, restricts: bool, expiresAt: Option<Time>)

  // ------------------------------------------------- locations, availability

  function PurgeLocations(locations: map<(Id, Id), Location>, t: Time): map<(Id, Id), Location> {
    map k | k in locations && locations[k].expiresAt >= t :: locations[k]
  }

  function SwitchedOff(a: Availability): Availability { a.(isOn := false) }

  /** Helping-now past its chosen end switches off. */
  function LapseAvailability(rows: map<(Id, Id), Availability>, t: Time): map<(Id, Id), Availability> {
    map k | k in rows ::
      if rows[k].isOn && rows[k].until.Some? && rows[k].until.value < t then SwitchedOff(rows[k]) else rows[k]
  }

  predicate EndedBefore(events: map<Id, EventRow>, e: Id, t: Time) { e in events && events[e].endsAt < t }

  /** Helping-now for an event that has ended switches off. */
  function EndAvailability(rows: map<(Id, Id), Availability>, events: map<Id, EventRow>, t: Time): map<(Id, Id), Availability> {
    map k | k in rows :: if rows[k].isOn && EndedBefore(events, k.1, t) then SwitchedOff(rows[k]) else rows[k]
  }

  /** Sweeping at `t` is invisible to a query at any later time: same live locations, same distances, same ring. */
  lemma {:induction false} PurgeInvisible(env: Env, t: Time, q: Request, u: Id, now: Time, maxRadius: int)
    requires t <= now
    ensures var swept := env.(locations := PurgeLocations(env.locations, t));
      && LiveLocation(swept, u, q.event, now) == LiveLocation(env, u, q.event, now)
      && Distance(swept, q, u, now) == Distance(env, q, u, now)
      && InRing(swept, q, u, now, maxRadius) == InRing(env, q, u, now, maxRadius)
  {
  }

  /** What the two lazy sweeps leave of the environment. */
  function Swept(env: Env, t: Time): Env {
    env.(locations := PurgeLocations(env.locations, t), availability := LapseAvailability(env.availability, t))
  }

  lemma {:induction false} SweptEligibility(db: Db, env: Env, t: Time, r: Id, u: Id, now: Time, maxRadius: int)
    requires r in db.requests && t <= now
    ensures EligibleHelper(db, Swept(env, t), r, u, now, maxRadius) <==> EligibleHelper(db, env, r, u, now, maxRadius)
  {
    PurgeInvisible(env, t, db.requests[r], u, now, maxRadius);
  }

  /** Eager and lazy expiry agree: the sweeps never change the answer of a later eligibility query. */
  lemma {:induction false} SweepKeepsShortlists(db: Db, env: Env, t: Time, r: Id, now: Time, maxRadius: int, cs: seq<Candidate>)
    requires r in db.requests && t <= now
    ensures IsShortlist(db, Swept(env, t), r, now, maxRadius, cs) <==> IsShortlist(db, env, r, now, maxRadius, cs)
  {
    var q := db.requests[r];
    forall u
      ensures EligibleHelper(db, Swept(env, t), r, u, now, maxRadius) <==> EligibleHelper(db, env, r, u, now, maxRadius)
      ensures Distance(Swept(env, t), q, u, now) == Distance(env, q, u, now)
    {
      SweptEligibility(db, env, t, r, u, now, maxRadius);
      PurgeInvisible(env, t, q, u, now, maxRadius);
    }
    forall c ensures RowFor(db, Swept(env, t), r, c, now) <==> RowFor(db, env, r, c, now) {
      PurgeInvisible(env, t, q, c.helper, now, maxRadius);
    }
  }

  /**
   The end-of-event sweep is different: the query does not look at the event's end, so a helper loses
   eligibility exactly when the event ended before the sweep.
   */
  lemma {:induction false} EndSweepEligibility(db: Db, env: Env, events: map<Id, EventRow>, t: Time, r: Id, u: Id, now: Time, maxRadius: int)
    requires r in db.requests
    ensures var swept := env.(availability := EndAvailability(env.availability, events, t));
      EligibleHelper(db, swept, r, u, now, maxRadius)
      <==> (EligibleHelper(db, env, r, u, now, maxRadius) && !EndedBefore(events, db.requests[r].event, t))
  {
    var swept := env.(availability := EndAvailability(env.availability, events, t));
    assert InRing(swept, db.requests[r], u, now, maxRadius) == InRing(env, db.requests[r], u, now, maxRadius);
  }

  // -------------------------------------------------------------- suspensions

  predicate SuspensionLapsed(user: User, t: Time) {
    user.status.Suspended? && user.suspendedUntil.Some? && user.suspendedUntil.value < t
  }

  function LiftSuspension(user: User, t: Time): User {
    if SuspensionLapsed(user, t) then user.(status := ActiveUser, suspendedUntil := None) else user
  }

  function LiftSuspensions(users: map<Id, User>, t: Time): map<Id, User> {
    map u | u in users :: LiftSuspension(users[u], t)
  }

  /** The status a session reports: a lapsed suspension reads as active, a deleted account not at all. */
  function ResolveStatus(user: User, now: Time): Option<UserStatus> {
    if user.deleted then None
    else
      var suspended := user.status.Suspended? && (user.suspendedUntil.None? || user.suspendedUntil.value > now);
      Some(if suspended then Suspended else if user.status.Suspended? then ActiveUser else user.status)
  }

  /** Lifting suspensions at `t` never changes the status reported at a later time. */
  lemma {:induction false} LiftingInvisible(user: User, t: Time, now: Time)
    requires t <= now
    ensures ResolveStatus(LiftSuspension(user, t), now) == ResolveStatus(user, now)
    ensures ResolveStatus(user, now) == Some(Suspended) <==>
      !user.deleted && user.status.Suspended? && (user.suspendedUntil.Some? ==> now < user.suspendedUntil.value)
  {
  }

  /** Matching reads the raw status instead: a lapsed suspension keeps a helper out until the sweep lifts it. */
  lemma {:induction false} LiftingSeenByMatching(env: Env, t: Time, u: Id)
    ensures MayHelp(env.(users := LiftSuspensions(env.users, t)), u) <==>
      MayHelp(env, u)
      || (u in env.users && SuspensionLapsed(env.users[u], t) && env.users[u].canHelp && !env.users[u].deleted)
    ensures u in env.users && SuspensionLapsed(env.users[u], t) ==>
      !MayHelp(env, u) && (!env.users[u].deleted ==> ResolveStatus(env.users[u], t) == Some(ActiveUser))
  {
  }

  // ---------------------------------------------------------- event lifecycle

  datatype Life = Life(
    events: map<Id, EventRow>, availability: map<(Id, Id), Availability>, users: map<Id, User>, actions: set<Action>)

  function Activated(e: EventRow, t: Time): EventRow {
    if e.status.Scheduled? && e.startsAt <= t && e.endsAt > t then e.(status := Running) else e
  }

  predicate Completes(e: EventRow, t: Time) { (e.status.Scheduled? || e.status.Running?) && e.endsAt <= t }

  function Finish(e: EventRow, t: Time): EventRow {
    if Completes(e, t) then e.(status := Ended) else e
  }

  function Archive(e: EventRow, t: Time): EventRow {
    if e.status.Ended? && e.endsAt + e.retentionDays * DAY < t then e.(status := Archived) else e
  }

  function AdvanceEvent(e: EventRow, t: Time): EventRow { Archive(Finish(Activated(e, t), t), t) }

  predicate AnyCompletes(events: map<Id, EventRow>, t: Time) {
    exists e :: e in events && Completes(Activated(events[e], t), t)
  }

  /** Only when some event completed in this run: helping-now goes off for every completed event. */
  function CompletedOff(life: Life, t: Time): map<(Id, Id), Availability> {
    if !AnyCompletes(life.events, t) then life.availability
    else
      map k | k in life.availability ::
        if k.1 in life.events && Finish(Activated(life.events[k.1], t), t).status.Ended?
        then SwitchedOff(life.availability[k]) else life.availability[k]
  }

  predicate RestrictionOver(actions: set<Action>, u: Id, t: Time) {
    && (exists a :: a in actions && a.target == u && a.restricts && a.expiresAt.Some? && a.expiresAt.value < t)
    && !(exists a :: a in actions && a.target == u && a.restricts && (a.expiresAt.None? || a.expiresAt.value >= t))
  }

  function Unrestrict(user: User, actions: set<Action>, u: Id, t: Time): User {
    if (!user.canRequest || !user.canHelp) && RestrictionOver(actions, u, t)
    then user.(canRequest := true, canHelp := true) else user
  }

  function AdvanceUser(user: User, actions: set<Action>, u: Id, t: Time): User {
    Unrestrict(LiftSuspension(user, t), actions, u, t)
  }

  function AdvanceEvents(events: map<Id, EventRow>, t: Time): map<Id, EventRow> {
    map e | e in events :: AdvanceEvent(events[e], t)
  }

  function AdvanceUsers(users: map<Id, User>, actions: set<Action>, t: Time): map<Id, User> {
    map u | u in users :: AdvanceUser(users[u], actions, u, t)
  }

  function Lifecycle(life: Life, t: Time): Life {
    Life(AdvanceEvents(life.events, t), CompletedOff(life, t), AdvanceUsers(life.users, life.actions, t), life.actions)
  }

  // ------------------------------------------------- what a run makes of each row

  /** A restricting action on `u` that has not expired at `t`; one without an expiry never does. */
  predicate InForce(a: Action, u: Id, t: Time) {
    a.target == u && a.restricts && (match a.expiresAt case None => true case Some(end) => end >= t)
  }

  predicate Lapsed(a: Action, u: Id, t: Time) {
    a.target == u && a.restricts && (match a.expiresAt case None => false case Some(end) => end < t)
  }

  /**
   Account `u` before and after a run: a suspension is lifted exactly once its end has passed; rights come back exactly
   when a restriction on the account has lapsed and none is in force any more; nothing else changes.
   */
  ghost predicate UserFollows(before: User, after: User, actions: set<Action>, u: Id, t: Time) {
    && (before.status.Suspended? && (match before.suspendedUntil case None => false case Some(end) => end < t)
        ==> after.status.ActiveUser? && after.suspendedUntil.None?)
    && (!before.status.Suspended? || (match before.suspendedUntil case None => true case Some(end) => end >= t)
        ==> after.status == before.status && after.suspendedUntil == before.suspendedUntil)
    && ((exists a :: a in actions && InForce(a, u, t)) || !(exists a :: a in actions && Lapsed(a, u, t))
        ==> after.canHelp == before.canHelp && after.canRequest == before.canRequest)
    && ((exists a :: a in actions && Lapsed(a, u, t)) && !(exists a :: a in actions && InForce(a, u, t))
        ==> after.canHelp && after.canRequest)
    && after.deleted == before.deleted
  }

  lemma {:induction false} UserRowExactly(user: User, actions: set<Action>, u: Id, t: Time)
    ensures UserFollows(user, AdvanceUser(user, actions, u, t), actions, u, t)
  {
    assert RestrictionOver(actions, u, t) <==>
      (exists a :: a in actions && Lapsed(a, u, t)) && !(exists a :: a in actions && InForce(a, u, t));
  }

  ghost predicate UsersFollow(before: map<Id, User>, after: map<Id, User>, actions: set<Action>, t: Time) {
    after.Keys == before.Keys && forall u :: u in before ==> UserFollows(before[u], after[u], actions, u, t)
  }

  lemma {:induction false} UserRowsExactly(users: map<Id, User>, actions: set<Action>, t: Time)
    ensures UsersFollow(users, AdvanceUsers(users, actions, t), actions, t)
  {
    forall u | u in users ensures UserFollows(users[u], AdvanceUsers(users, actions, t)[u], actions, u, t) {
      UserRowExactly(users[u], actions, u, t);
    }
  }

  /** Helping-now goes off exactly when some event completes in the run and the row's event is or becomes completed. */
  lemma {:induction false} HelpingOffExactly(life: Life, t: Time, k: (Id, Id))
    requires k in life.availability
    ensures k in Lifecycle(life, t).availability
    ensures Lifecycle(life, t).availability[k] ==
      if (exists e :: e in life.events && life.events[e].status in {Scheduled, Running} && life.events[e].endsAt <= t)
         && k.1 in life.events
         && (life.events[k.1].status == Ended
             || (life.events[k.1].status in {Scheduled, Running} && life.events[k.1].endsAt <= t))
      then life.availability[k].(isOn := false) else life.availability[k]
  {
    forall e | e in life.events
      ensures Completes(Activated(life.events[e], t), t) <==>
        life.events[e].status in {Scheduled, Running} && life.events[e].endsAt <= t
    {
    }
  }

  lemma {:induction false} EventAbsorbs(e: EventRow, t1: Time, t2: Time)
    requires t1 <= t2
    ensures AdvanceEvent(AdvanceEvent(e, t1), t2) == AdvanceEvent(e, t2)
  {
  }

  lemma {:induction false} UserAbsorbs(user: User, actions: set<Action>, u: Id, t1: Time, t2: Time)
    requires t1 <= t2
    ensures AdvanceUser(AdvanceUser(user, actions, u, t1), actions, u, t2) == AdvanceUser(user, actions, u, t2)
  {
    if RestrictionOver(actions, u, t1) {
      var a :| a in actions && a.target == u && a.restricts && a.expiresAt.Some? && a.expiresAt.value < t1;
      forall b | b in actions && b.target == u && b.restricts ensures b.expiresAt.Some? && b.expiresAt.value < t2 { }
      assert RestrictionOver(actions, u, t2);
    }
  }

  /** Running the task at `t1` and again at `t2` gives the statuses, suspensions and flags of running it at `t2` only. */
  lemma {:induction false} LifecycleAbsorbs(life: Life, t1: Time, t2: Time)
    requires t1 <= t2
    ensures Lifecycle(Lifecycle(life, t1), t2).events == Lifecycle(life, t2).events
    ensures Lifecycle(Lifecycle(life, t1), t2).users == Lifecycle(life, t2).users
  {
    forall e | e in life.events ensures AdvanceEvent(AdvanceEvent(life.events[e], t1), t2) == AdvanceEvent(life.events[e], t2) {
      EventAbsorbs(life.events[e], t1, t2);
    }
    forall u | u in life.users
      ensures AdvanceUser(AdvanceUser(life.users[u], life.actions, u, t1), life.actions, u, t2) == AdvanceUser(life.users[u], life.actions, u, t2)
    {
      UserAbsorbs(life.users[u], life.actions, u, t1, t2);
    }
  }

  /** Nobody is still helping at an event that is over. */
  ghost predicate OffWhenOver(life: Life) {
    forall k :: (k in life.availability && k.1 in life.events
                 && (life.events[k.1].status.Ended? || life.events[k.1].status.Archived?))
      ==> !life.availability[k].isOn
  }

  lemma {:induction false} LifecycleKeepsOff(life: Life, t: Time)
    requires OffWhenOver(life)
    ensures OffWhenOver(Lifecycle(life, t))
  {
    forall k | k in life.availability && k.1 in life.events && Completes(Activated(life.events[k.1], t), t)
      ensures AnyCompletes(life.events, t)
    {
    }
  }

  lemma {:induction false} CompletesLater(e: EventRow, t1: Time, t2: Time)
    requires t1 <= t2
    ensures Completes(Activated(e, t1), t1) ==> Completes(Activated(e, t2), t2)
    ensures Completes(Activated(AdvanceEvent(e, t1), t2), t2)
       <==> Completes(Activated(e, t2), t2) && !Completes(Activated(e, t1), t1)
  {
  }

  lemma {:induction false} AnyLater(events: map<Id, EventRow>, t1: Time, t2: Time)
    requires t1 <= t2
    ensures AnyCompletes(events, t1) ==> AnyCompletes(events, t2)
    ensures AnyCompletes(AdvanceEvents(events, t1), t2) ==> AnyCompletes(events, t2)
    ensures !AnyCompletes(events, t1) ==> (AnyCompletes(AdvanceEvents(events, t1), t2) <==> AnyCompletes(events, t2))
  {
    var mid := AdvanceEvents(events, t1);
    forall e | e in events
      ensures Completes(Activated(events[e], t1), t1) ==> Completes(Activated(events[e], t2), t2)
      ensures Completes(Activated(mid[e], t2), t2)
         <==> Completes(Activated(events[e], t2), t2) && !Completes(Activated(events[e], t1), t1)
    {
      CompletesLater(events[e], t1, t2);
    }
    if AnyCompletes(events, t2) && !AnyCompletes(events, t1) {
      var e :| e in events && Completes(Activated(events[e], t2), t2);
      assert Completes(Activated(mid[e], t2), t2);
    }
  }

  /** A row still on at a completed event whose archiving is due at `t`. */
  predicate LeftOn(life: Life, k: (Id, Id), t: Time) {
    && k in life.availability && life.availability[k].isOn
    && k.1 in life.events && life.events[k.1].status.Ended? && Archive(life.events[k.1], t).status.Archived?
  }

  /** The run at `t` archives the row's event without looking at availability, which a run at `last` alone would. */
  predicate Missed(life: Life, k: (Id, Id), t: Time, last: Time) {
    LeftOn(life, k, t) && !AnyCompletes(life.events, t) && AnyCompletes(life.events, last)
  }

  lemma {:induction false} RowAfterTwo(life: Life, t1: Time, t2: Time, k: (Id, Id))
    requires t1 <= t2 && k in life.availability
    ensures var mid := Lifecycle(life, t1);
      && k in mid.availability && k in CompletedOff(mid, t2) && k in CompletedOff(life, t2)
      && CompletedOff(mid, t2)[k] == (if Missed(life, k, t1, t2) then life.availability[k] else CompletedOff(life, t2)[k])
      && (Missed(life, k, t1, t2) ==> CompletedOff(life, t2)[k] != life.availability[k])
  {
    AnyLater(life.events, t1, t2);
    if k.1 in life.events {
      CompletesLater(life.events[k.1], t1, t2);
      assert Completes(Activated(life.events[k.1], t1), t1) ==> AnyCompletes(life.events, t1);
      assert Completes(Activated(life.events[k.1], t2), t2) ==> AnyCompletes(life.events, t2);
      assert Completes(Activated(AdvanceEvents(life.events, t1)[k.1], t2), t2) ==> AnyCompletes(AdvanceEvents(life.events, t1), t2);
    }
  }

  lemma {:induction false} SameRows(
    life: Life, t1: Time, t2: Time, two: map<(Id, Id), Availability>, one: map<(Id, Id), Availability>)
    requires two.Keys == life.availability.Keys == one.Keys
    requires forall k :: k in life.availability ==> (two[k] == one[k] <==> !Missed(life, k, t1, t2))
    ensures two == one <==> forall k :: !Missed(life, k, t1, t2)
  {
    if k :| Missed(life, k, t1, t2) { assert k in life.availability && two[k] != one[k]; }
  }

  /**
   Availability is absorbed as well, unless a row was switched on at an event already completed: it is then left on
   exactly when the first run archives that event while no event completes, and the second sees one complete.
   */
  lemma {:induction false} AvailabilityAbsorbsExactly(life: Life, t1: Time, t2: Time)
    requires t1 <= t2
    ensures Lifecycle(Lifecycle(life, t1), t2).availability == Lifecycle(life, t2).availability
       <==> forall k :: !Missed(life, k, t1, t2)
  {
    var two, one := CompletedOff(Lifecycle(life, t1), t2), CompletedOff(life, t2);
    assert two.Keys == life.availability.Keys == one.Keys;
    forall k | k in life.availability ensures two[k] == one[k] <==> !Missed(life, k, t1, t2) { RowAfterTwo(life, t1, t2, k); }
    SameRows(life, t1, t2, two, one);
  }

  function LifecycleAll(life: Life, times: seq<Time>): Life
    decreases |times|
  {
    if times == [] then life else LifecycleAll(Lifecycle(life, times[0]), times[1..])
  }

  predicate InOrder(times: seq<Time>) { forall i, j :: 0 <= i < j < |times| ==> times[i] <= times[j] }

  /** Some run of the sequence misses the row. */
  predicate EverMissed(life: Life, k: (Id, Id), times: seq<Time>)
    requires times != []
  {
    exists t :: t in times && Missed(life, k, t, times[|times| - 1])
  }

  /** A run before the others passes on exactly the misses to come. */
  lemma {:induction false} MissedLater(life: Life, k: (Id, Id), t1: Time, t: Time, last: Time)
    requires t1 <= t <= last && !Missed(life, k, t1, last)
    ensures Missed(Lifecycle(life, t1), k, t, last) <==> Missed(life, k, t, last)
    ensures Missed(life, k, t, last) ==> Lifecycle(life, t1).availability[k] == life.availability[k]
  {
    AnyLater(life.events, t1, t);
    AnyLater(life.events, t1, last);
    AnyLater(life.events, t, last);
    LeftOnLater(life, k, t1, t);
  }

  /** Unless a completion turned it off, a row left on before a run is left on after it, if its event is not archived. */
  lemma {:induction false} LeftOnLater(life: Life, k: (Id, Id), t1: Time, t: Time)
    requires t1 <= t
    ensures LeftOn(Lifecycle(life, t1), k, t)
       <==> LeftOn(life, k, t) && !LeftOn(life, k, t1) && !AnyCompletes(life.events, t1)
    ensures !AnyCompletes(life.events, t1) ==> Lifecycle(life, t1).availability == life.availability
  {
    if k.1 in life.events && Completes(Activated(life.events[k.1], t1), t1) { assert AnyCompletes(life.events, t1); }
  }

  lemma {:induction false} AllButFirst(life: Life, times: seq<Time>)
    requires times != []
    ensures LifecycleAll(life, times) == LifecycleAll(Lifecycle(life, times[0]), times[1..])
    ensures |times| == 1 ==> LifecycleAll(life, times) == Lifecycle(life, times[0])
    ensures InOrder(times) ==> InOrder(times[1..]) && times[0] <= times[|times| - 1]
  {
    if |times| == 1 { assert LifecycleAll(Lifecycle(life, times[0]), times[1..]) == Lifecycle(life, times[0]); }
  }

  /** A run before the others either misses the row itself, and then they do not, or leaves them to miss it. */
  lemma {:induction false} MissesSplit(life: Life, times: seq<Time>, k: (Id, Id))
    requires |times| > 1 && InOrder(times) && k in life.availability
    ensures var mid, last := Lifecycle(life, times[0]), times[|times| - 1];
      && k in mid.availability && k in CompletedOff(life, last)
      && (Missed(life, k, times[0], last) ==> EverMissed(life, k, times) && !EverMissed(mid, k, times[1..]))
      && (!Missed(life, k, times[0], last) ==> (EverMissed(mid, k, times[1..]) <==> EverMissed(life, k, times)))
      && (!Missed(life, k, times[0], last) && EverMissed(life, k, times) ==>
            mid.availability[k] == life.availability[k] && CompletedOff(life, last)[k] != life.availability[k])
  {
    var last, rest, mid := times[|times| - 1], times[1..], Lifecycle(life, times[0]);
    assert forall t :: t in times <==> t == times[0] || t in rest;
    if Missed(life, k, times[0], last) {
      assert times[0] in times && EverMissed(life, k, times);
      assert !mid.events[k.1].status.Ended?;
      assert !EverMissed(mid, k, rest);
    } else {
      forall t | t in rest
        ensures Missed(mid, k, t, last) <==> Missed(life, k, t, last)
        ensures Missed(life, k, t, last) ==> mid.availability[k] == life.availability[k]
      {
        MissedLater(life, k, times[0], t, last);
      }
      if t :| t in rest && Missed(life, k, t, last) { RowAfterTwo(life, t, last, k); }
    }
  }

  lemma {:induction false} RowAfterAll(life: Life, times: seq<Time>, k: (Id, Id))
    requires times != [] && InOrder(times) && k in life.availability
    ensures var last := times[|times| - 1];
      && k in LifecycleAll(life, times).availability && k in CompletedOff(life, last)
      && LifecycleAll(life, times).availability[k]
         == (if EverMissed(life, k, times) then life.availability[k] else CompletedOff(life, last)[k])
      && (EverMissed(life, k, times) ==> CompletedOff(life, last)[k] != life.availability[k])
    decreases |times|
  {
    AllButFirst(life, times);
    if |times| > 1 {
      RowAfterTwo(life, times[0], times[|times| - 1], k);
      MissesSplit(life, times, k);
      RowAfterAll(Lifecycle(life, times[0]), times[1..], k);
    } else {
      assert forall t :: t in times ==> t == times[0];
    }
  }

  lemma {:induction false} StatusesAfterAll(life: Life, times: seq<Time>)
    requires times != [] && InOrder(times)
    ensures LifecycleAll(life, times).events == AdvanceEvents(life.events, times[|times| - 1])
    ensures LifecycleAll(life, times).users == AdvanceUsers(life.users, life.actions, times[|times| - 1])
    ensures LifecycleAll(life, times).actions == life.actions
    ensures LifecycleAll(life, times).availability.Keys == life.availability.Keys
    decreases |times|
  {
    AllButFirst(life, times);
    var mid := Lifecycle(life, times[0]);
    if |times| > 1 {
      StatusesAfterAll(mid, times[1..]);
      LifecycleAbsorbs(life, times[0], times[|times| - 1]);
    }
  }

  /**
   However often the task has run before, the last run alone would have left the same statuses, suspensions and flags,
   and the same availability exactly when no run misses a row.
   */
  lemma {:induction false} LastRunDecides(life: Life, times: seq<Time>)
    requires times != [] && InOrder(times)
    ensures var last := times[|times| - 1];
      && LifecycleAll(life, times).events == Lifecycle(life, last).events
      && LifecycleAll(life, times).users == Lifecycle(life, last).users
      && (LifecycleAll(life, times).availability == Lifecycle(life, last).availability
          <==> forall k :: !EverMissed(life, k, times))
  {
    StatusesAfterAll(life, times);
    var last := times[|times| - 1];
    var all, one := LifecycleAll(life, times).availability, CompletedOff(life, last);
    forall k | k in life.availability ensures all[k] == one[k] <==> !EverMissed(life, k, times) {
      RowAfterAll(life, times, k);
    }
    forall k | EverMissed(life, k, times) ensures k in life.availability { }
  }

  /** No run misses anything as long as nobody helps at an event that is over, which every run keeps. */
  lemma {:induction false} NothingMissed(life: Life, times: seq<Time>)
    requires times != [] && OffWhenOver(life)
    ensures forall k :: !EverMissed(life, k, times)
  {
  }

  /** The lifecycle order; other statuses are outside it and never touched. */
  function Stage(s: EventStatus): Option<nat> {
    match s
    case Scheduled => Some(0)
    case Running => Some(1)
    case Ended => Some(2)
    case Archived => Some(3)
    case _ => None
  }

  /** Event status only moves forward, an event is at each stage exactly by its own clock, and nothing else changes. */
  lemma {:induction false} LifecycleMovesForward(e: EventRow, t: Time)
    ensures var e' := AdvanceEvent(e, t);
      && e' == e.(status := e'.status)
      && (Stage(e.status).None? ==> e' == e)
      && (Stage(e.status).Some? ==> Stage(e'.status).Some? && Stage(e.status).value <= Stage(e'.status).value)
      && (e.status.Scheduled? ==> (e'.status.Scheduled? <==> t < e.startsAt && t < e.endsAt))
      && (e.status.Scheduled? ==> (e'.status.Running? <==> e.startsAt <= t < e.endsAt))
      && (e.status.Running? ==> (e'.status.Running? <==> t < e.endsAt))
      && (e.status.Scheduled? || e.status.Running? ==> (e'.status.Ended? || e'.status.Archived? <==> e.endsAt <= t))
      && (Stage(e.status).Some? && !e.status.Archived? ==>
            (e'.status.Archived? <==> (e.status.Ended? || e.endsAt <= t) && e.endsAt + e.retentionDays * 86_400_000 < t))
  {
  }

  // ------------------------------------------------------------------ audit

  function Lifted(users: map<Id, User>, t: Time): set<Id> {
    set u | u in users && SuspensionLapsed(users[u], t)
  }

  /** Each suspension is lifted, and audited, by exactly one of two runs, or by the later run alone. */
  lemma {:induction false} LiftedOnce(users: map<Id, User>, actions: set<Action>, t1: Time, t2: Time)
    requires t1 <= t2
    ensures Lifted(users, t1) !! Lifted(AdvanceUsers(users, actions, t1), t2)
    ensures Lifted(users, t1) + Lifted(AdvanceUsers(users, actions, t1), t2) == Lifted(users, t2)
  {
  }
}

/** The sweeps as they run: statements that rewrite tables in place, and a loop that audits each lifted suspension. */
module RetentionWorker {
  import opened Domain
  import opened Eligibility
  import opened Retention

  function ActivateAll(events: map<Id, EventRow>, t: Time): map<Id, EventRow> { map e | e in events :: Activated(events[e], t) }

  function FinishAll(events: map<Id, EventRow>, t: Time): map<Id, EventRow> { map e | e in events :: Finish(events[e], t) }

  function ArchiveAll(events: map<Id, EventRow>, t: Time): map<Id, EventRow> { map e | e in events :: Archive(events[e], t) }

  /** Helping-now goes off for every completed event. */
  function EndedOff(rows: map<(Id, Id), Availability>, events: map<Id, EventRow>): map<(Id, Id), Availability> {
    map k | k in rows :: if k.1 in events && events[k.1].status.Ended? then SwitchedOff(rows[k]) else rows[k]
  }

  lemma {:induction false} StatementsAdvance(events: map<Id, EventRow>, t: Time)
    ensures ArchiveAll(FinishAll(ActivateAll(events, t), t), t) == AdvanceEvents(events, t)
  {
  }

  lemma {:induction false} StatementsSwitchOff(life: Life, completed: set<Id>, t: Time)
    requires completed == set e | e in life.events && Completes(ActivateAll(life.events, t)[e], t)
    ensures CompletedOff(life, t) ==
      if |completed| > 0 then EndedOff(life.availability, FinishAll(ActivateAll(life.events, t), t)) else life.availability
  {
    if e :| e in life.events && Completes(Activated(life.events[e], t), t) { assert e in completed; }
    if e :| e in completed { assert Completes(Activated(life.events[e], t), t); }
  }

  /** Exactly the suspensions whose end has passed are lifted. */
  ghost predicate SuspensionsLifted(before: map<Id, User>, after: map<Id, User>, t: Time) {
    && after.Keys == before.Keys
    && forall u :: u in before ==>
         (after[u] == if before[u].status == Suspended && before[u].suspendedUntil.Some? && before[u].suspendedUntil.value < t
                      then before[u].(status := ActiveUser, suspendedUntil := None) else before[u])
  }

  function UnrestrictAll(users: map<Id, User>, actions: set<Action>, t: Time): map<Id, User> {
    map u | u in users :: Unrestrict(users[u], actions, u, t)
  }

  lemma {:induction false} UserStatementsAdvance(users: map<Id, User>, actions: set<Action>, t: Time)
    ensures UnrestrictAll(LiftSuspensions(users, t), actions, t) == AdvanceUsers(users, actions, t)
  {
  }

  class Sweeper {
    var locations: map<(Id, Id), Location>
    var availability: map<(Id, Id), Availability>
    var events: map<Id, EventRow>
    var users: map<Id, User>
    var actions: set<Action>
    var audit: seq<Id>

    constructor (life: Life, places: map<(Id, Id), Location>)
      ensures Snapshot() == life && locations == places && audit == []
    {
      locations, availability, events, users, actions, audit :=
        places, life.availability, life.events, life.users, life.actions, [];
    }

    function Snapshot(): Life
      reads this
    {
      Life(events, availability, users, actions)
    }

    method PurgeLocations(now: Time)
      modifies this`locations
      ensures locations == Retention.PurgeLocations(old(locations), now)
      ensures forall k :: k in locations <==> k in old(locations) && old(locations)[k].expiresAt >= now
      ensures forall k :: k in locations ==> locations[k] == old(locations)[k]
    {
      var expired := set k | k in locations && locations[k].expiresAt < now;
      locations := locations - expired;
    }

    /** Exactly the rows whose chosen end has passed or whose event has ended go off. */
    method ExpireAvailability(now: Time)
      modifies this`availability
      ensures availability.Keys == old(availability).Keys
      ensures forall k :: k in availability ==>
        && availability[k].until == old(availability)[k].until
        && (availability[k].isOn <==>
              && old(availability)[k].isOn && !EndedBefore(events, k.1, now)
              && !(old(availability)[k].until.Some? && old(availability)[k].until.value < now))
    {
      availability := LapseAvailability(availability, now);
      availability := EndAvailability(availability, events, now);
    }

    /** The three event statements, with the helping-now statement between completion and archiving. */
    method AdvanceEventRows(now: Time)
      modifies this`events, this`availability
      ensures events == AdvanceEvents(old(events), now) && availability == CompletedOff(old(Snapshot()), now)
    {
      StatementsAdvance(events, now);
      events := ActivateAll(events, now);
      var completed := set e | e in events && Completes(events[e], now);
      assert completed == set e | e in old(events) && Completes(ActivateAll(old(events), now)[e], now);
      StatementsSwitchOff(old(Snapshot()), completed, now);
      events := FinishAll(events, now);
      if |completed| > 0 {
        availability := EndedOff(availability, events);
      }
      events := ArchiveAll(events, now);
    }

    /** Lift lapsed suspensions, one audit row each. */
    method LiftLapsed(now: Time)
      modifies this`users, this`audit
      ensures users == LiftSuspensions(old(users), now)
      ensures SuspensionsLifted(old(users), users, now)
      ensures |audit| == |old(audit)| + |Lifted(old(users), now)| && old(audit) <= audit
      ensures forall u :: u in audit[|old(audit)|..] <==> u in Lifted(old(users), now)
    {
      var lifted := Lifted(users, now);
      ghost var all, n := lifted, |audit|;
      users := LiftSuspensions(users, now);
      while lifted != {}
        invariant users == LiftSuspensions(old(users), now)
        invariant lifted <= all && |audit| == n + |all| - |lifted| && old(audit) <= audit
        invariant forall u :: u in audit[n..] <==> u in all - lifted
        decreases |lifted|
      {
        var u :| u in lifted;
        ghost var before := audit[n..];
        audit := audit + [u];
        assert audit[n..] == before + [u];
        lifted := lifted - {u};
      }
    }

    method EventLifecycle(now: Time)
      modifies this`events, this`availability, this`users, this`audit
      ensures Snapshot() == Lifecycle(old(Snapshot()), now)
      ensures UsersFollow(old(users), users, actions, now)
      ensures |audit| == |old(audit)| + |Lifted(old(users), now)| && old(audit) <= audit
    {
      UserRowsExactly(users, actions, now);
      UserStatementsAdvance(users, actions, now);
      AdvanceEventRows(now);
      LiftLapsed(now);
      users := UnrestrictAll(users, actions, now);
    }
  }
}
