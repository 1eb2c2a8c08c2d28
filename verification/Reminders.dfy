/**
 The 24-hour attendance reminders: the daily-start loop, the one-tick window, which days of an event a ticking
 scheduler actually reaches, and which of the queued reminders are delivered. Days are uniform 24-hour steps.
 */
module Reminders {
  import opened Domain

  const TICK: int := 300_000

  datatype Span = Span(status: EventStatus, startsAt: Time, endsAt: Time)
  datatype Member = Member(left: bool, banned: bool)

  datatype Account = Account(suspended: bool, deleted: bool)

  /** The rows a tick and a delivery read; members are keyed by event and user. */
  datatype Tables = Tables(events: map<Id, Span>, members: map<(Id, Id), Member>, users: map<Id, Account>)

  /** The dedupe key of a reminder; `day` is the UTC date of the occurrence. */
  datatype Key = Key(event: Id, user: Id, day: int)

  // ------------------------------------------------- the daily start

  /** The start on day `k` of an event. */
  function Start(startsAt: Time, k: nat): Time { startsAt + k * DAY }

  /** `r` is the least daily start in `[from, endsAt]`, and absent only when there is none. */
  ghost predicate IsNextStart(startsAt: Time, endsAt: Time, from: Time, r: Option<Time>) {
    match r
    case Some(occ) =>
      && from <= occ <= endsAt
      && (exists k: nat :: occ == Start(startsAt, k))
      && (forall k: nat :: from <= Start(startsAt, k) ==> occ <= Start(startsAt, k))
    case None =>
      forall k: nat :: !(from <= Start(startsAt, k) <= endsAt)
  }

  /** The answer in closed form. */
  function NextStart(startsAt: Time, endsAt: Time, from: Time): (r: Option<Time>)
    ensures IsNextStart(startsAt, endsAt, from, r)
  {
    var k: nat := if from <= startsAt then 0 else (from - startsAt + DAY - 1) / DAY;
    var occ := Start(startsAt, k);
    if occ <= endsAt then Some(occ) else None
  }

  /** The specification has one solution. */
  lemma {:induction false} NextStartUnique(startsAt: Time, endsAt: Time, from: Time, r: Option<Time>)
    requires IsNextStart(startsAt, endsAt, from, r)
    ensures r == NextStart(startsAt, endsAt, from)
  {
    var s := NextStart(startsAt, endsAt, from);
    if r.Some? {
      var k: nat :| r.value == Start(startsAt, k);
      assert from <= Start(startsAt, k) <= endsAt;
    }
    if s.Some? {
      var k: nat :| s.value == Start(startsAt, k);
      assert from <= Start(startsAt, k) <= endsAt;
    }
  }

  method NextDailyStart(startsAt: Time, endsAt: Time, from: Time) returns (r: Option<Time>)
    ensures IsNextStart(startsAt, endsAt, from, r)
    ensures r == NextStart(startsAt, endsAt, from)
  {
    var occ := startsAt;
    ghost var k: nat := 0;
    while occ < from
      invariant occ == Start(startsAt, k)
      invariant forall j: nat | j < k :: Start(startsAt, j) < from
      invariant occ <= endsAt || k == 0
      decreases from - occ
    {
      occ := occ + DAY;
      k := k + 1;
      if occ > endsAt {
        assert forall j: nat | j >= k :: Start(startsAt, j) > endsAt;
        assert IsNextStart(startsAt, endsAt, from, None);
        NextStartUnique(startsAt, endsAt, from, None);
        return None;
      }
    }
    r := if occ <= endsAt then Some(occ) else None;
    assert forall j: nat | j >= k :: Start(startsAt, j) >= occ;
    NextStartUnique(startsAt, endsAt, from, r);
  }

  /** One tick long, opening 24 hours before the occurrence. */
  predicate IsReminderDue(occ: Time, now: Time) { occ - DAY <= now < occ - DAY + TICK }

  // ------------------------------------------------- which ticks hit a day

  /** A tick at `now` reminds of day `k`. */
  predicate Hits(startsAt: Time, endsAt: Time, now: Time, k: nat) {
    && NextStart(startsAt, endsAt, now) == Some(Start(startsAt, k))
    && IsReminderDue(Start(startsAt, k), now)
  }

  /**
   Day 0 has the closed-left window of `IsReminderDue`. A later day does not: exactly 24 hours ahead is the
   previous day's start, which is still the next occurrence at that instant, so its window is open.
   */
  lemma {:induction false} HitWindow(startsAt: Time, endsAt: Time, now: Time, k: nat)
    requires Start(startsAt, k) <= endsAt
    ensures Hits(startsAt, endsAt, now, k) <==>
            if k == 0 then startsAt - DAY <= now < startsAt - DAY + TICK
            else Start(startsAt, k - 1) < now < Start(startsAt, k - 1) + TICK
  {
    if k > 0 && now <= Start(startsAt, k - 1) {
      assert NextStart(startsAt, endsAt, now) != Some(Start(startsAt, k));
    }
    if k > 0 && Start(startsAt, k - 1) < now <= Start(startsAt, k) {
      assert IsNextStart(startsAt, endsAt, now, Some(Start(startsAt, k))) by {
        forall j: nat | now <= Start(startsAt, j) ensures Start(startsAt, k) <= Start(startsAt, j) {
          assert j > k - 1;
        }
      }
      NextStartUnique(startsAt, endsAt, now, Some(Start(startsAt, k)));
    }
  }

  /** Ticks come in order, never further apart than the scheduler's interval. */
  predicate Steady(ticks: seq<Time>) {
    forall i :: 0 < i < |ticks| ==> ticks[i - 1] < ticks[i] <= ticks[i - 1] + TICK
  }

  lemma {:induction false} SteadyIncreases(ticks: seq<Time>, i: nat, j: nat)
    requires Steady(ticks) && i <= j < |ticks|
    ensures ticks[i] <= ticks[j] && (i < j ==> ticks[i] < ticks[j])
    decreases j
  {
    if i < j { SteadyIncreases(ticks, i, j - 1); }
  }

  /** The first tick at or after `w` falls inside the tick-long window that opens at `w`. */
  lemma {:induction false} WindowIsHit(ticks: seq<Time>, w: Time) returns (i: nat)
    requires Steady(ticks) && ticks != [] && ticks[0] <= w <= ticks[|ticks| - 1]
    ensures i < |ticks| && w <= ticks[i] < w + TICK
    decreases |ticks|
  {
    var n := |ticks| - 1;
    if n == 0 || ticks[n - 1] < w {
      i := n;
    } else {
      i := WindowIsHit(ticks[..n], w);
    }
  }

  predicate Reached(startsAt: Time, endsAt: Time, ticks: seq<Time>, k: nat) {
    exists i :: 0 <= i < |ticks| && Hits(startsAt, endsAt, ticks[i], k)
  }

  /** The reminder for the first day is never missed. */
  lemma {:induction false} FirstDayReached(startsAt: Time, endsAt: Time, ticks: seq<Time>)
    requires startsAt <= endsAt
    requires Steady(ticks) && ticks != [] && ticks[0] <= startsAt - DAY <= ticks[|ticks| - 1]
    ensures Reached(startsAt, endsAt, ticks, 0)
  {
    var i := WindowIsHit(ticks, startsAt - DAY);
    assert Start(startsAt, 0) == startsAt;
    HitWindow(startsAt, endsAt, ticks[i], 0);
  }

  /** One tick exactly on `w` and the following one a full interval later. */
  predicate Straddles(ticks: seq<Time>, w: Time) {
    exists i :: 0 < i < |ticks| && ticks[i - 1] == w && ticks[i] == w + TICK
  }

  /**
   A later day is missed exactly when one tick falls on the preceding day's start and the next comes a full
   interval after it; a tick aligned with neither reaches every day.
   */
  lemma {:induction false} LaterDayReachedExactly(startsAt: Time, endsAt: Time, ticks: seq<Time>, k: nat)
    requires k > 0 && Start(startsAt, k) <= endsAt && Steady(ticks) && ticks != []
    requires ticks[0] <= Start(startsAt, k - 1) && Start(startsAt, k - 1) + TICK <= ticks[|ticks| - 1]
    ensures Reached(startsAt, endsAt, ticks, k) <==> !Straddles(ticks, Start(startsAt, k - 1))
  {
    var w := Start(startsAt, k - 1);
    if Straddles(ticks, w) {
      var i :| 0 < i < |ticks| && ticks[i - 1] == w && ticks[i] == w + TICK;
      forall j | 0 <= j < |ticks| ensures !Hits(startsAt, endsAt, ticks[j], k) {
        if j < i { SteadyIncreases(ticks, j, i - 1); } else { SteadyIncreases(ticks, i, j); }
        HitWindow(startsAt, endsAt, ticks[j], k);
      }
    } else {
      var i := WindowIsHit(ticks, w);
      if ticks[i] == w {
        assert ticks[i + 1 - 1] == w;
        HitWindow(startsAt, endsAt, ticks[i + 1], k);
        assert Hits(startsAt, endsAt, ticks[i + 1], k);
      } else {
        HitWindow(startsAt, endsAt, ticks[i], k);
      }
    }
  }

  /** A scheduler in step with the event's time of day: the second day's reminder is never sent. */
  lemma {:induction false} AlignedTicksMiss(startsAt: Time, n: nat)
    requires n >= 2
    ensures var ticks := seq(n, i => startsAt + i * TICK);
      && Steady(ticks)
      && Hits(startsAt, startsAt + DAY, startsAt - DAY, 0)
      && !Reached(startsAt, startsAt + DAY, ticks, 1)
  {
    var ticks := seq(n, (i: nat) => startsAt + i * TICK);
    HitWindow(startsAt, startsAt + DAY, startsAt - DAY, 0);
    assert ticks[0] == startsAt;
    forall j | 0 <= j < |ticks| ensures !Hits(startsAt, startsAt + DAY, ticks[j], 1) {
      HitWindow(startsAt, startsAt + DAY, ticks[j], 1);
    }
  }

  // ------------------------------------------------- one reminder per day

  /** Different days of one event never share a dedupe key. */
  lemma {:induction false} DaysHaveDistinctKeys(startsAt: Time, j: nat, k: nat)
    ensures Start(startsAt, j) / DAY == Start(startsAt, k) / DAY <==> j == k
  {
    assert Start(startsAt, j) / DAY == startsAt / DAY + j;
    assert Start(startsAt, k) / DAY == startsAt / DAY + k;
  }

  predicate Open(ev: Span, now: Time) { ev.status in {Scheduled, Running} && ev.endsAt > now }

  /** Members a tick selects: not left, not banned, account not deleted. */
  predicate Asked(t: Tables, event: Id, user: Id) {
    && (event, user) in t.members
    && !t.members[(event, user)].left && !t.members[(event, user)].banned
    && user in t.users && !t.users[user].deleted
  }

  /** A tick at `now` produces this reminder. */
  predicate Due(t: Tables, now: Time, key: Key) {
    && key.event in t.events && Open(t.events[key.event], now) && Asked(t, key.event, key.user)
    && var occ := NextStart(t.events[key.event].startsAt, t.events[key.event].endsAt, now);
    && occ.Some? && IsReminderDue(occ.value, now) && key.day == occ.value / DAY
  }

  /** The notify worker drops reminders of missing, deleted and suspended accounts. */
  predicate Hears(t: Tables, user: Id) { user in t.users && !t.users[user].deleted && !t.users[user].suspended }

  ghost predicate NoRepeats(log: seq<Key>) { forall i, j :: 0 <= i < j < |log| ==> log[i] != log[j] }

  /** Waiting jobs, ids of finished jobs the queue still remembers, and stored notifications in order. */
  datatype Queue = Queue(waiting: set<Key>, finished: set<Key>, log: seq<Key>)

  /** `Trim`: the queue forgets a finished job. Each step sees the tables of its moment. */
  datatype Step =
    | Tick(tables: Tables, now: Time)
    | Deliver(tables: Tables, key: Key)
    | Trim(key: Key)

  /** A job whose id waits or is still remembered is not queued again. */
  ghost predicate Ticked(t: Tables, now: Time, q: Queue, q': Queue) {
    && q'.finished == q.finished && q'.log == q.log
    && forall key :: key in q'.waiting <==> (key in q.waiting || (Due(t, now, key) && key !in q.finished))
  }

  /** One row per user and key. */
  function Stored(log: seq<Key>, t: Tables, key: Key): seq<Key> {
    if Hears(t, key.user) && key !in log then log + [key] else log
  }

  ghost predicate Next(q: Queue, s: Step, q': Queue) {
    match s
    case Tick(t, now) => Ticked(t, now, q, q')
    case Deliver(t, key) =>
      key in q.waiting && q' == Queue(q.waiting - {key}, q.finished + {key}, Stored(q.log, t, key))
    case Trim(key) => q' == q.(finished := q.finished - {key})
  }

  const IDLE := Queue({}, {}, [])

  /** A run of ticks, deliveries and trims from an idle queue; the tables may change in between. */
  ghost predicate IsRun(steps: seq<Step>, qs: seq<Queue>) {
    && |qs| == |steps| + 1 && qs[0] == IDLE
    && forall i {:trigger steps[i]} :: 0 <= i < |steps| ==> Next(qs[i], steps[i], qs[i + 1])
  }

  predicate DueAt(s: Step, key: Key) { s.Tick? && Due(s.tables, s.now, key) }

  predicate Delivers(s: Step, key: Key) { s.Deliver? && s.key == key }

  /** The account exists, is not deleted and not suspended. */
  predicate InGoodStanding(users: map<Id, Account>, user: Id) { user in users && users[user] == Account(false, false) }

  /** A delivery of this reminder finds its account in good standing. */
  predicate HeardAt(s: Step, key: Key) { Delivers(s, key) && InGoodStanding(s.tables.users, key.user) }

  lemma {:induction false} RunPrefix(steps: seq<Step>, qs: seq<Queue>)
    requires IsRun(steps, qs) && steps != []
    ensures IsRun(steps[..|steps| - 1], qs[..|steps|])
    ensures Next(qs[|steps| - 1], steps[|steps| - 1], qs[|steps|])
  {
    var n := |steps| - 1;
    forall i | 0 <= i < n ensures Next(qs[..n + 1][i], steps[..n][i], qs[..n + 1][i + 1]) {
      assert Next(qs[i], steps[i], qs[i + 1]);
    }
    assert Next(qs[n], steps[n], qs[n + 1]);
  }

  predicate EverDue(steps: seq<Step>, key: Key) { exists s :: s in steps && DueAt(s, key) }

  predicate EverDelivered(steps: seq<Step>, key: Key) { exists s :: s in steps && Delivers(s, key) }

  predicate EverHeard(steps: seq<Step>, key: Key) { exists s :: s in steps && HeardAt(s, key) }

  lemma {:induction false} OneMoreStep(steps: seq<Step>, key: Key)
    requires steps != []
    ensures var n := |steps| - 1;
      && (EverDue(steps, key) <==> EverDue(steps[..n], key) || DueAt(steps[n], key))
      && (EverDelivered(steps, key) <==> EverDelivered(steps[..n], key) || Delivers(steps[n], key))
      && (EverHeard(steps, key) <==> EverHeard(steps[..n], key) || HeardAt(steps[n], key))
  {
    assert steps == steps[..|steps| - 1] + [steps[|steps| - 1]];
  }

  /** What the queue knows of a key, from what has happened to it. */
  ghost predicate Tracks(q: Queue, key: Key, due: bool, delivered: bool, heard: bool) {
    && NoRepeats(q.log)
    && (key in q.log <==> heard)
    && (key in q.waiting || delivered <==> due)
    && (key in q.finished ==> delivered)
  }

  lemma {:induction false} StepTracks(q: Queue, s: Step, q': Queue, key: Key, due: bool, delivered: bool, heard: bool)
    requires Next(q, s, q') && Tracks(q, key, due, delivered, heard)
    ensures Tracks(q', key, due || DueAt(s, key), delivered || Delivers(s, key), heard || HeardAt(s, key))
  {
  }

  /**
   Over any run nothing is stored twice; a reminder is stored exactly when some delivery of it found an account that
   hears; and it was delivered or still waits exactly when some tick produced it.
   */
  lemma {:induction false} DeliveredExactly(steps: seq<Step>, qs: seq<Queue>, key: Key)
    requires IsRun(steps, qs)
    ensures Tracks(qs[|steps|], key, EverDue(steps, key), EverDelivered(steps, key), EverHeard(steps, key))
    decreases |steps|
  {
    if steps != [] {
      var n := |steps| - 1;
      RunPrefix(steps, qs);
      DeliveredExactly(steps[..n], qs[..n + 1], key);
      OneMoreStep(steps, key);
      StepTracks(qs[n], steps[n], qs[n + 1], key, EverDue(steps[..n], key), EverDelivered(steps[..n], key), EverHeard(steps[..n], key));
    }
  }

  function TickTimes(steps: seq<Step>): seq<Time> {
    if steps == [] then []
    else TickTimes(steps[..|steps| - 1]) + if steps[|steps| - 1].Tick? then [steps[|steps| - 1].now] else []
  }

  predicate HitAt(s: Step, startsAt: Time, endsAt: Time, k: nat) { s.Tick? && Hits(startsAt, endsAt, s.now, k) }

  lemma {:induction false} ReachedByTick(steps: seq<Step>, startsAt: Time, endsAt: Time, k: nat)
    ensures Reached(startsAt, endsAt, TickTimes(steps), k) <==> exists s :: s in steps && HitAt(s, startsAt, endsAt, k)
    decreases |steps|
  {
    if steps != [] {
      var n := |steps| - 1;
      ReachedByTick(steps[..n], startsAt, endsAt, k);
      ReachedOneMore(startsAt, endsAt, TickTimes(steps[..n]), if steps[n].Tick? then [steps[n].now] else [], k);
      HitOneMore(steps[..n], steps[n], startsAt, endsAt, k);
      assert steps[..n] + [steps[n]] == steps;
    }
  }

  lemma {:induction false} HitOneMore(steps: seq<Step>, last: Step, startsAt: Time, endsAt: Time, k: nat)
    ensures (exists s :: s in steps + [last] && HitAt(s, startsAt, endsAt, k))
       <==> (exists s :: s in steps && HitAt(s, startsAt, endsAt, k)) || HitAt(last, startsAt, endsAt, k)
  {
    if HitAt(last, startsAt, endsAt, k) { assert last in steps + [last]; }
  }

  lemma {:induction false} ReachedOneMore(startsAt: Time, endsAt: Time, ticks: seq<Time>, more: seq<Time>, k: nat)
    requires |more| <= 1
    ensures Reached(startsAt, endsAt, ticks + more, k)
       <==> Reached(startsAt, endsAt, ticks, k) || (more != [] && Hits(startsAt, endsAt, more[0], k))
  {
    var all := ticks + more;
    if i :| 0 <= i < |ticks| && Hits(startsAt, endsAt, ticks[i], k) { assert Hits(startsAt, endsAt, all[i], k); }
    if more != [] && Hits(startsAt, endsAt, more[0], k) { assert Hits(startsAt, endsAt, all[|ticks|], k); }
  }

  /** A member who has neither left nor been banned, with an account that is not deleted. */
  predicate Belongs(t: Tables, event: Id, user: Id) {
    (event, user) in t.members && t.members[(event, user)] == Member(false, false) && user in t.users && !t.users[user].deleted
  }

  /**
   A tick produces exactly the reminders of members whose event is scheduled or running, for the day that starts 24 hours
   later: within five minutes from then, on a later day after that instant.
   */
  lemma {:induction false} DueExactly(t: Tables, now: Time, key: Key)
    ensures Due(t, now, key) <==>
      && key.event in t.events && t.events[key.event].status in {Scheduled, Running} && now < t.events[key.event].endsAt
      && Belongs(t, key.event, key.user)
      && exists k: nat :: DayOpens(t.events[key.event], now, k) && key.day == Start(t.events[key.event].startsAt, k) / DAY
  {
    if key.event in t.events {
      var ev := t.events[key.event];
      forall k: nat ensures DayOpens(ev, now, k) <==> Start(ev.startsAt, k) <= ev.endsAt && Hits(ev.startsAt, ev.endsAt, now, k) {
        if Start(ev.startsAt, k) <= ev.endsAt { HitWindow(ev.startsAt, ev.endsAt, now, k); }
      }
      var next := NextStart(ev.startsAt, ev.endsAt, now);
      if Due(t, now, key) {
        var k: nat :| next.value == Start(ev.startsAt, k);
        assert DayOpens(ev, now, k);
      }
    }
  }

  /** The five minutes that remind of day `k`. */
  predicate DayOpens(ev: Span, now: Time, k: nat) {
    && Start(ev.startsAt, k) <= ev.endsAt
    && (if k == 0 then ev.startsAt - DAY <= now < ev.startsAt - DAY + 300_000
        else ev.startsAt + (k - 1) * DAY < now < ev.startsAt + (k - 1) * DAY + 300_000)
  }

  /** The event keeps its dates and stays open, and the user stays in it, at every tick. */
  predicate Stays(steps: seq<Step>, event: Id, user: Id, startsAt: Time, endsAt: Time) {
    forall s :: s in steps && s.Tick? ==>
      && event in s.tables.events && s.tables.events[event].status in {Scheduled, Running}
      && s.tables.events[event].startsAt == startsAt && s.tables.events[event].endsAt == endsAt
      && Belongs(s.tables, event, user)
  }

  lemma {:induction false} DueMeansHit(s: Step, event: Id, user: Id, startsAt: Time, endsAt: Time, k: nat)
    requires s.Tick? && Stays([s], event, user, startsAt, endsAt) && Start(startsAt, k) <= endsAt
    ensures DueAt(s, Key(event, user, Start(startsAt, k) / DAY)) <==> Hits(startsAt, endsAt, s.now, k)
  {
    assert s in [s];
    var next := NextStart(startsAt, endsAt, s.now);
    if next.Some? {
      var j: nat :| next.value == Start(startsAt, j);
      DaysHaveDistinctKeys(startsAt, j, k);
    }
  }

  /**
   For a member who stays, once the queue holds no job for day `k`: its reminder has been delivered exactly when
   some tick reached the day, and is stored exactly when one of those deliveries found the account not suspended.
   */
  lemma {:induction false} MemberReminded(
    steps: seq<Step>, qs: seq<Queue>, event: Id, user: Id, startsAt: Time, endsAt: Time, k: nat)
    requires IsRun(steps, qs) && Stays(steps, event, user, startsAt, endsAt) && Start(startsAt, k) <= endsAt
    requires Key(event, user, Start(startsAt, k) / DAY) !in qs[|steps|].waiting
    ensures var key := Key(event, user, Start(startsAt, k) / DAY);
      && (EverDelivered(steps, key) <==> Reached(startsAt, endsAt, TickTimes(steps), k))
      && (key in qs[|steps|].log <==> EverHeard(steps, key))
  {
    var key := Key(event, user, Start(startsAt, k) / DAY);
    DeliveredExactly(steps, qs, key);
    ReachedByTick(steps, startsAt, endsAt, k);
    forall s | s in steps ensures DueAt(s, key) <==> HitAt(s, startsAt, endsAt, k) {
      if s.Tick? { DueMeansHit(s, event, user, startsAt, endsAt, k); }
    }
  }

  /** The account is heard at every delivery, or at none. */
  predicate HearingIs(steps: seq<Step>, user: Id, heard: bool) {
    forall s :: s in steps && s.Deliver? && s.key.user == user ==> (InGoodStanding(s.tables.users, user) <==> heard)
  }

  /** While the account's standing does not change, a reminder is stored exactly when its day is reached and it is not muted. */
  lemma {:induction false} RemindedUnlessMuted(
    steps: seq<Step>, qs: seq<Queue>, event: Id, user: Id, startsAt: Time, endsAt: Time, k: nat, heard: bool)
    requires IsRun(steps, qs) && Stays(steps, event, user, startsAt, endsAt) && Start(startsAt, k) <= endsAt
    requires Key(event, user, Start(startsAt, k) / DAY) !in qs[|steps|].waiting && HearingIs(steps, user, heard)
    ensures Key(event, user, Start(startsAt, k) / DAY) in qs[|steps|].log
       <==> Reached(startsAt, endsAt, TickTimes(steps), k) && heard
  {
    MemberReminded(steps, qs, event, user, startsAt, endsAt, k);
    var key := Key(event, user, Start(startsAt, k) / DAY);
    assert forall s :: s in steps && Delivers(s, key) ==> (HeardAt(s, key) <==> heard);
    assert forall s :: s in steps && HeardAt(s, key) ==> Delivers(s, key);
  }
}

/** The reminder task and the notify worker as they run. */
module ReminderWorker {
  import opened Domain
  import opened Reminders

  class ReminderTask {
    var tables: Tables
    var waiting: set<Key>
    /** Finished jobs whose ids the queue still remembers. */
    var finished: set<Key>
    /** Stored notifications, in order. */
    var log: seq<Key>

    constructor (t: Tables)
      ensures tables == t && Contents() == IDLE
    {
      tables, waiting, finished, log := t, {}, {}, [];
    }

    function Contents(): Queue
      reads this
    {
      Queue(waiting, finished, log)
    }

    /** A job id that waits or is remembered is not added again. */
    method Enqueue(key: Key)
      modifies this`waiting
      ensures waiting == if key in finished then old(waiting) else old(waiting) + {key}
    {
      if key !in finished { waiting := waiting + {key}; }
    }

    method SendAttendanceReminders(now: Time)
      modifies this`waiting
      ensures Next(old(Contents()), Tick(tables, now), Contents())
    {
      var events := set e | e in tables.events && Open(tables.events[e], now);
      ghost var selected := events;
      while events != {}
        invariant events <= selected
        invariant forall key :: key in waiting <==>
          (key in old(waiting) || (Due(tables, now, key) && key.event !in events && key !in finished))
        decreases |events|
      {
        var e :| e in events;
        events := events - {e};
        var ev := tables.events[e];
        var occ := NextDailyStart(ev.startsAt, ev.endsAt, now);
        if occ.Some? && IsReminderDue(occ.value, now) {
          RemindMembers(e, occ.value / DAY);
        }
      }
    }

    /** Every selected member of `e` gets the key of `day`. */
    method RemindMembers(e: Id, day: int)
      modifies this`waiting
      ensures forall key :: key in waiting <==>
        (key in old(waiting) || (key.event == e && key.day == day && Belongs(tables, e, key.user) && key !in finished))
    {
      var members := set k | k in tables.members && k.0 == e && Asked(tables, e, k.1) :: k.1;
      ghost var asked := members;
      assert forall u :: u in asked <==> Asked(tables, e, u) by {
        forall u | Asked(tables, e, u) ensures u in asked { assert (e, u).1 == u; }
      }
      while members != {}
        invariant members <= asked
        invariant forall key :: key in waiting <==>
          (key in old(waiting) || (key.event == e && key.day == day && key.user in asked - members && key !in finished))
        decreases |members|
      {
        var u :| u in members;
        members := members - {u};
        Enqueue(Key(e, u, day));
      }
    }

    /** One delivery: muted accounts and rows already stored end it without a new row. */
    method DeliverNotification(key: Key)
      requires key in waiting
      modifies this`waiting, this`finished, this`log
      ensures Next(old(Contents()), Deliver(tables, key), Contents())
      ensures log == if InGoodStanding(tables.users, key.user) && key !in old(log) then old(log) + [key] else old(log)
      ensures NoRepeats(old(log)) ==> NoRepeats(log)
    {
      waiting, finished := waiting - {key}, finished + {key};
      if key.user !in tables.users || tables.users[key.user].deleted { return; }
      if tables.users[key.user].suspended { return; }
      if key in log { return; }
      log := log + [key];
    }
  }
}
