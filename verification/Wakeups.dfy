/**
 The job queues around the transactions. A transaction's effects are owed from its commit until the
 process that ran it has queued them; a delivered job leaves its queue and runs its transaction.
 A job whose transaction throws is not delivered again: that is the one way in which a run without crashes and purges
 loses a wake-up, and `LosesStep` says exactly when.
 */
module Wakeups {
  import opened Domain
  import opened Transactions
  import opened Invariants
  import opened Eligibility
  import opened Expiry

  datatype Task = RunMatch(request: Id) | TimeOutOffer(offer: Id) | FinalizeMatch(matchId: Id)

  datatype Job = Job(task: Task, due: Time)

  datatype World = World(db: Db, jobs: multiset<Job>, owed: multiset<Effect>, clock: Time)

  const TIMEOUT_SLACK := 500
  const FINALIZE_DELAY := 3_600_000
  const SWEEP_GRACE := 2_000

  /** The job an after-commit effect queues when it runs at time `now`. */
  function JobOf(e: Effect, now: Time): Job {
    match e
    case Rematch(r, delay) => Job(RunMatch(r), now + delay)
    case Deadline(o, respondBy) => Job(TimeOutOffer(o), now + Max(0, respondBy - now) + TIMEOUT_SLACK)
    case Finalize(k) => Job(FinalizeMatch(k), now + FINALIZE_DELAY)
  }

  /** The transaction a job runs. */
  predicate Runs(task: Task, op: Op, now: Time) {
    match task
    case RunMatch(r) => op.Pass? && op.input.request == r && op.input.now == now
    case TimeOutOffer(o) => op == Timeout(o, now)
    case FinalizeMatch(k) => op == AutoSettle(k)
  }

  /** A transaction that consumes no job: a user's, or a pass, timeout or settlement delivered a second time. */
  ghost predicate Acts(w: World, w': World, op: Op) {
    !op.Purge? && Legal(w.db, op) && w' == Ran(w, op)
  }

  function Ran(w: World, op: Op): World
    requires Legal(w.db, op)
  {
    match Run(w.db, op)
    case Done(db', after) => w.(db := db', owed := w.owed + multiset(after))
    case Thrown(_) => w
  }

  /** A delivered job is gone, whether its transaction commits or throws. */
  ghost predicate Delivers(w: World, w': World, j: Job, op: Op) {
    && j in w.jobs && (exists t :: j.due <= t <= w.clock && Runs(j.task, op, t))
    && Legal(w.db, op)
    && w' == Ran(w.(jobs := w.jobs - multiset{j}), op)
  }

  ghost predicate Queues(w: World, w': World, e: Effect) {
    e in w.owed && w' == w.(owed := w.owed - multiset{e}, jobs := w.jobs + multiset{JobOf(e, w.clock)})
  }

  predicate Overdue(q: Request, now: Time) { IsOpen(q.status) && q.expiresAt <= now }

  /** The sweeps only add jobs: passes for overdue requests, timeouts for offers well past their deadline. */
  ghost predicate Sweeps(w: World, w': World, j: Job) {
    && (match j.task
        case RunMatch(r) => r in w.db.requests && Overdue(w.db.requests[r], w.clock)
        case TimeOutOffer(o) =>
          o in w.db.offers && w.db.offers[o].status.Offered? && w.db.offers[o].respondBy < w.clock - SWEEP_GRACE
        case FinalizeMatch(_) => false)
    && j.due == w.clock && w' == w.(jobs := w.jobs + multiset{j})
  }

  ghost predicate Ticks(w: World, w': World) {
    w'.clock >= w.clock && w' == w.(clock := w'.clock)
  }

  ghost predicate Step(w: World, w': World) {
    || (exists op :: Acts(w, w', op))
    || (exists j, op :: Delivers(w, w', j, op))
    || (exists e :: Queues(w, w', e))
    || (exists j :: Sweeps(w, w', j))
    || Ticks(w, w')
  }

  // --------------------------------------------------------------- invariant

  /** A pass is due no later than thirty seconds from now, or owed with no longer delay. */
  ghost predicate MatchPending(w: World, r: Id) {
    || (exists due :: due <= w.clock + 30_000 && Job(RunMatch(r), due) in w.jobs)
    || (exists delay: nat :: delay <= 30_000 && Rematch(r, delay) in w.owed)
  }

  /** A timeout for `o` is due no earlier than `respondBy` and no later than half a second after it, or is owed. */
  ghost predicate TimeoutPending(w: World, o: Id, respondBy: Time) {
    || (exists due :: respondBy <= due <= Max(w.clock, respondBy) + 500 && Job(TimeOutOffer(o), due) in w.jobs)
    || Deadline(o, respondBy) in w.owed
  }

  ghost predicate FinalizePending(w: World, k: Id) {
    (exists due :: due <= w.clock + 3_600_000 && Job(FinalizeMatch(k), due) in w.jobs) || Finalize(k) in w.owed
  }

  ghost predicate RequestWoken(w: World, r: Id) {
    r in w.db.requests && w.db.requests[r].status.Searching? ==> MatchPending(w, r)
  }

  ghost predicate OfferWoken(w: World, o: Id) {
    o in w.db.offers && w.db.offers[o].status.Offered? ==> TimeoutPending(w, o, w.db.offers[o].respondBy)
  }

  ghost predicate MatchWoken(w: World, k: Id) {
    k < |w.db.matches| && HalfConfirmed(w.db.matches[k]) ==> FinalizePending(w, k)
  }

  /** No timeout is early. */
  ghost predicate JobOnTime(w: World, j: Job) {
    j in w.jobs && j.task.TimeOutOffer? ==>
      j.task.offer in w.db.offers && j.due >= w.db.offers[j.task.offer].respondBy
  }

  ghost predicate EffectOnTime(w: World, e: Effect) {
    e in w.owed && e.Deadline? ==> e.offer in w.db.offers && e.respondBy == w.db.offers[e.offer].respondBy
  }

  ghost predicate Woken(w: World) {
    && Inv(w.db) && Backed(w.db)
    && (forall r {:trigger RequestWoken(w, r)} :: RequestWoken(w, r))
    && (forall o {:trigger OfferWoken(w, o)} :: OfferWoken(w, o))
    && (forall k {:trigger MatchWoken(w, k)} :: MatchWoken(w, k))
    && (forall j {:trigger JobOnTime(w, j)} :: JobOnTime(w, j))
    && (forall e {:trigger EffectOnTime(w, e)} :: EffectOnTime(w, e))
  }

  // ------------------------------------ what a transaction owes for what it wakes

  /** The effects owe a pass on `r` within thirty seconds. */
  ghost predicate Renews(after: seq<Effect>, r: Id) { exists delay: nat :: delay <= 30_000 && Rematch(r, delay) in after }

  ghost predicate RequestCovered(db: Db, db': Db, after: seq<Effect>, r: Id) {
    r in db'.requests && db'.requests[r].status.Searching? ==>
      (r in db.requests && db.requests[r].status.Searching?) || Renews(after, r)
  }

  ghost predicate OfferCovered(db: Db, db': Db, after: seq<Effect>, o: Id) {
    && (o in db.offers ==> o in db'.offers && db'.offers[o].respondBy == db.offers[o].respondBy)
    && (o in db'.offers && db'.offers[o].status.Offered? ==>
          (o in db.offers && db.offers[o].status.Offered?) || Deadline(o, db'.offers[o].respondBy) in after)
    && (forall t :: Deadline(o, t) in after ==> o in db'.offers && db'.offers[o].respondBy == t)
  }

  ghost predicate MatchCovered(db: Db, db': Db, after: seq<Effect>, k: Id) {
    k < |db'.matches| && HalfConfirmed(db'.matches[k]) ==>
      (k < |db.matches| && HalfConfirmed(db.matches[k])) || Finalize(k) in after
  }

  /** Whatever a transaction sets searching, opens or half-confirms, it also owes the job for. */
  ghost predicate Covered(db: Db, out: Outcome) {
    out.Done? ==>
      && (forall r {:trigger RequestCovered(db, out.db, out.after, r)} :: RequestCovered(db, out.db, out.after, r))
      && (forall o {:trigger OfferCovered(db, out.db, out.after, o)} :: OfferCovered(db, out.db, out.after, o))
      && (forall k {:trigger MatchCovered(db, out.db, out.after, k)} :: MatchCovered(db, out.db, out.after, k))
  }

  lemma {:induction false} SearchCovered(db: Db, p: PassInput, r: Id, o: Id)
    requires |p.shortlist| <= |p.jitters| && p.request in db.requests && Matching(p.event) && p.newOffer !in db.offers
    ensures var out := Search(db, p);
      out.Done? ==>
        && RequestCovered(db, out.db, out.after, r) && OfferCovered(db, out.db, out.after, o)
        && out.db.matches == db.matches
        && (out.db.requests[p.request].status.Offering? || Renews(out.after, p.request))
  {
    var out := Search(db, p);
    if out.Done? && PickFor(db.requests[p.request], p).None? {
      assert out.after[0].Rematch?;
      assert Rematch(p.request, out.after[0].delay) in out.after;
    }
  }

  /** A pass closes its request, leaves it to a live offer, makes an offer, or owes another pass. */
  lemma {:induction false} PassCovered(db: Db, p: PassInput, r: Id, o: Id)
    requires Legal(db, Pass(p))
    ensures var out := RunPass(db, p);
      out.Done? ==>
        && RequestCovered(db, out.db, out.after, r) && OfferCovered(db, out.db, out.after, o)
        && out.db.matches == db.matches
        && (p.request in out.db.requests && out.db.requests[p.request].status.Searching? ==>
              Renews(out.after, p.request))
  {
    var out := RunPass(db, p);
    if p.request in db.requests && IsOpen(db.requests[p.request].status) && db.requests[p.request].expiresAt > p.now {
      if Matching(p.event) {
        SearchCovered(SweepOpen(db, p), p, r, o);
      } else {
        assert Rematch(p.request, PAUSED_RETRY_DELAY) in out.after;
      }
    }
  }

  /** The pass searches, and the item of its winner has been removed since the query. */
  predicate WinnerGone(db: Db, p: PassInput)
    requires Legal(db, Pass(p))
  {
    Searches(db, p) && var w := PickFor(db.requests[p.request], p); w.Some? && w.value.c.item !in db.items
  }

  /** A pass throws exactly on an overdue stranded request, or when the foreign key refuses the winner's item. */
  lemma {:induction false} PassThrowsExactly(db: Db, p: PassInput)
    requires Inv(db) && Legal(db, Pass(p))
    ensures RunPass(db, p).Thrown? <==>
      (Stranded(db, p.request) && db.requests[p.request].expiresAt <= p.now) || WinnerGone(db, p)
  {
    if p.request in db.requests && IsOpen(db.requests[p.request].status) {
      if db.requests[p.request].expiresAt <= p.now {
        ExpiryCloses(db, p);
      } else if Searches(db, p) {
        PickNotAsked(db, p);
        var db1 := SweepOpen(db, p);
        assert PickFor(db1.requests[p.request], p) == PickFor(db.requests[p.request], p);
        SweptAsksNoMore(db, p);
      }
    }
  }

  lemma {:induction false} SweptAsksNoMore(db: Db, p: PassInput)
    requires PassReadable(db, p) && p.request in db.requests
    ensures forall h :: Asked(SweepOpen(db, p).offers, p.request, h) ==> Asked(db.offers, p.request, h)
  {
  }

  lemma {:induction false} AnswerOpCovered(db: Db, op: Op)
    requires Inv(db) && (op.Timeout? || op.Decline? || op.Accept?)
    ensures Covered(db, Run(db, op))
    ensures op.Timeout? && op.offer in db.offers && db.offers[op.offer].respondBy <= op.now ==>
      op.offer in After(db, op).offers && !After(db, op).offers[op.offer].status.Offered?
  {
    var out := Run(db, op);
    if out.Done? && op.offer in db.offers {
      var r := db.offers[op.offer].request;
      assert |out.after| > 0 ==> out.after[0] == Rematch(r, 0);
    }
  }

  lemma {:induction false} MatchOpCovered(db: Db, op: Op)
    requires Inv(db) && (op.Cancel? || op.Moderate? || op.Confirm? || op.AutoSettle?)
    ensures Covered(db, Run(db, op))
    ensures op.AutoSettle? && op.matchId < |db.matches| ==>
      op.matchId < |After(db, op).matches| && !HalfConfirmed(After(db, op).matches[op.matchId])
  {
    var out := Run(db, op);
    assert MatchSound(db, op.matchId);
    if out.Done? {
      assert |out.after| > 0 ==> out.after[0] in out.after;
      forall r ensures RequestCovered(db, out.db, out.after, r) { }
      forall o ensures OfferCovered(db, out.db, out.after, o) { }
      forall k: Id ensures MatchCovered(db, out.db, out.after, k) { }
    }
  }

  lemma {:induction false} OtherOpCovered(db: Db, op: Op)
    requires Inv(db) && Legal(db, op) && !op.Pass? && !op.Timeout? && !op.AutoSettle? && !op.Purge?
    requires !(op.Decline? || op.Accept? || op.Cancel? || op.Moderate? || op.Confirm?)
    ensures Covered(db, Run(db, op))
  {
    var out := Run(db, op);
    if out.Done? {
      assert |out.after| > 0 ==> out.after[0] in out.after;
      forall r ensures RequestCovered(db, out.db, out.after, r) { }
      forall o ensures OfferCovered(db, out.db, out.after, o) { }
      forall k: Id ensures MatchCovered(db, out.db, out.after, k) { }
    }
  }

  lemma {:induction false} OpCovered(db: Db, op: Op)
    requires Inv(db) && Legal(db, op) && !op.Purge?
    ensures Covered(db, Run(db, op))
  {
    if op.Pass? {
      var out := Run(db, op);
      if out.Done? {
        forall r ensures RequestCovered(db, out.db, out.after, r) { PassCovered(db, op.input, r, 0); }
        forall o ensures OfferCovered(db, out.db, out.after, o) { PassCovered(db, op.input, 0, o); }
        forall k: Id ensures MatchCovered(db, out.db, out.after, k) { PassCovered(db, op.input, 0, 0); }
      }
    } else if op.Timeout? || op.Decline? || op.Accept? {
      AnswerOpCovered(db, op);
    } else if op.Cancel? || op.Moderate? || op.Confirm? || op.AutoSettle? {
      MatchOpCovered(db, op);
    } else {
      OtherOpCovered(db, op);
    }
  }

  // ------------------------------------------------------------ the theorems

  /** Running a covered transaction keeps everything woken that was woken before. */
  lemma {:induction false} RanKeepsOthers(w: World, op: Op)
    requires Inv(w.db) && Legal(w.db, op) && !op.Purge?
    ensures var w' := Ran(w, op);
      && (forall r {:trigger RequestWoken(w', r)} :: RequestWoken(w, r) ==> RequestWoken(w', r))
      && (forall o {:trigger OfferWoken(w', o)} :: OfferWoken(w, o) ==> OfferWoken(w', o))
      && (forall k {:trigger MatchWoken(w', k)} :: MatchWoken(w, k) ==> MatchWoken(w', k))
      && (forall j {:trigger JobOnTime(w', j)} :: JobOnTime(w, j) ==> JobOnTime(w', j))
      && (forall e {:trigger EffectOnTime(w', e)} :: EffectOnTime(w, e) ==> EffectOnTime(w', e))
  {
    OpCovered(w.db, op);
    var out, w' := Run(w.db, op), Ran(w, op);
    if out.Done? {
      forall r | RequestWoken(w, r) ensures RequestWoken(w', r) { assert RequestCovered(w.db, out.db, out.after, r); }
      forall o | OfferWoken(w, o) ensures OfferWoken(w', o) { assert OfferCovered(w.db, out.db, out.after, o); }
      forall k: Id | MatchWoken(w, k) ensures MatchWoken(w', k) { assert MatchCovered(w.db, out.db, out.after, k); }
      forall j | JobOnTime(w, j) ensures JobOnTime(w', j) {
        if j.task.TimeOutOffer? { assert OfferCovered(w.db, out.db, out.after, j.task.offer); }
      }
      forall e | EffectOnTime(w, e) ensures EffectOnTime(w', e) {
        if e.Deadline? { assert OfferCovered(w.db, out.db, out.after, e.offer); }
      }
    }
  }

  lemma {:induction false} ActKeepsWoken(w: World, w': World, op: Op)
    requires Woken(w) && Acts(w, w', op)
    ensures Woken(w')
  {
    TransactionKeepsInv(w.db, op);
    RanKeepsOthers(w, op);
    forall r ensures RequestWoken(w', r) { assert RequestWoken(w, r); }
    forall o ensures OfferWoken(w', o) { assert OfferWoken(w, o); }
    forall k: Id ensures MatchWoken(w', k) { assert MatchWoken(w, k); }
    forall j ensures JobOnTime(w', j) { assert JobOnTime(w, j); }
    forall e ensures EffectOnTime(w', e) { assert EffectOnTime(w, e); }
  }

  /** Taking job `j` out of its queue disturbs only what `j` was for. */
  lemma {:induction false} TakenJob(w: World, j: Job)
    requires Woken(w) && j in w.jobs
    ensures var t := w.(jobs := w.jobs - multiset{j});
      && (forall r {:trigger RequestWoken(t, r)} :: j.task != RunMatch(r) ==> RequestWoken(t, r))
      && (forall o {:trigger OfferWoken(t, o)} :: j.task != TimeOutOffer(o) ==> OfferWoken(t, o))
      && (forall k {:trigger MatchWoken(t, k)} :: j.task != FinalizeMatch(k) ==> MatchWoken(t, k))
      && (forall i {:trigger JobOnTime(t, i)} :: JobOnTime(t, i))
      && (forall e {:trigger EffectOnTime(t, e)} :: EffectOnTime(t, e))
  {
    var t := w.(jobs := w.jobs - multiset{j});
    forall r | j.task != RunMatch(r) ensures RequestWoken(t, r) {
      assert RequestWoken(w, r);
      forall due | Job(RunMatch(r), due) in w.jobs ensures Job(RunMatch(r), due) in t.jobs { }
    }
    forall o | j.task != TimeOutOffer(o) ensures OfferWoken(t, o) {
      assert OfferWoken(w, o);
      forall due | Job(TimeOutOffer(o), due) in w.jobs ensures Job(TimeOutOffer(o), due) in t.jobs { }
    }
    forall k: Id | j.task != FinalizeMatch(k) ensures MatchWoken(t, k) {
      assert MatchWoken(w, k);
      forall due | Job(FinalizeMatch(k), due) in w.jobs ensures Job(FinalizeMatch(k), due) in t.jobs { }
    }
    forall i ensures JobOnTime(t, i) { assert JobOnTime(w, i); }
    forall e ensures EffectOnTime(t, e) { assert EffectOnTime(w, e); }
  }

  /** The pass of job `j` throws for want of the winner's item, and nothing else is pending for its searching request. */
  ghost predicate Loses(w: World, j: Job, op: Op)
    requires Legal(w.db, op)
  {
    op.Pass? && WinnerGone(w.db, op.input) && w.db.requests[op.input.request].status.Searching?
    && !MatchPending(w.(jobs := w.jobs - multiset{j}), op.input.request)
  }

  /** A consumed wake-up whose transaction commits is either no longer needed or replaced. */
  lemma {:induction false} DeliveryKeepsWoken(w: World, w': World, j: Job, op: Op)
    requires Woken(w) && Delivers(w, w', j, op) && Run(w.db, op).Done?
    ensures Woken(w')
  {
    var t := w.(jobs := w.jobs - multiset{j});
    TransactionKeepsInv(w.db, op);
    TakenJob(w, j);
    RanKeepsOthers(t, op);
    forall r ensures RequestWoken(w', r) {
      assert j.task != RunMatch(r) ==> RequestWoken(t, r);
      if j.task == RunMatch(r) { PassCovered(w.db, op.input, r, 0); }
    }
    forall o ensures OfferWoken(w', o) {
      assert j.task != TimeOutOffer(o) ==> OfferWoken(t, o);
      if j.task == TimeOutOffer(o) {
        assert JobOnTime(w, j);
        AnswerOpCovered(w.db, op);
      }
    }
    forall k: Id ensures MatchWoken(w', k) {
      assert j.task != FinalizeMatch(k) ==> MatchWoken(t, k);
      if j.task == FinalizeMatch(k) { MatchOpCovered(w.db, op); }
    }
    forall i ensures JobOnTime(w', i) { assert JobOnTime(t, i); }
    forall e ensures EffectOnTime(w', e) { assert EffectOnTime(t, e); }
  }

  /** What job `j` was for is woken. */
  ghost predicate SubjectWoken(w: World, j: Job) {
    match j.task
    case RunMatch(r) => RequestWoken(w, r)
    case TimeOutOffer(o) => OfferWoken(w, o)
    case FinalizeMatch(k) => MatchWoken(w, k)
  }

  /** Losing a job matters exactly if nothing else wakes what it was for. */
  lemma {:induction false} WithoutJob(w: World, j: Job)
    requires Woken(w) && j in w.jobs
    ensures var t := w.(jobs := w.jobs - multiset{j}); Woken(t) <==> SubjectWoken(t, j)
  {
    TakenJob(w, j);
    var t := w.(jobs := w.jobs - multiset{j});
    if SubjectWoken(t, j) {
      forall r ensures RequestWoken(t, r) { assert j.task != RunMatch(r) ==> RequestWoken(t, r); }
      forall o ensures OfferWoken(t, o) { assert j.task != TimeOutOffer(o) ==> OfferWoken(t, o); }
      forall k: Id ensures MatchWoken(t, k) { assert j.task != FinalizeMatch(k) ==> MatchWoken(t, k); }
      forall i ensures JobOnTime(t, i) { }
      forall e ensures EffectOnTime(t, e) { }
    }
  }

  lemma {:induction false} StrandedIsUnbacked(db: Db, r: Id)
    requires Stranded(db, r)
    ensures !BackedAt(db, r)
  {
    forall o ensures o !in OpenOffers(db.offers, r) { assert o !in OffersOf(db.offers, r); }
    assert OpenOffers(db.offers, r) == {};
  }

  /** Of the transactions that jobs run only a pass can throw. */
  lemma {:induction false} OnlyPassesThrow(w: World, j: Job, op: Op, t: Time)
    requires Woken(w) && Runs(j.task, op, t) && Legal(w.db, op)
    ensures Run(w.db, op).Thrown? <==> op.Pass? && WinnerGone(w.db, op.input)
  {
    if op.Pass? {
      PassThrowsExactly(w.db, op.input);
      assert BackedAt(w.db, op.input.request);
      if Stranded(w.db, op.input.request) { StrandedIsUnbacked(w.db, op.input.request); }
    } else if op.AutoSettle? {
      AutoFinalizeKeepsInv(w.db, op.matchId);
    }
  }

  /** A delivery keeps everything woken exactly when it does not lose its request. */
  lemma {:induction false} DeliveryWokenExactly(w: World, w': World, j: Job, op: Op)
    requires Woken(w) && Delivers(w, w', j, op)
    ensures Woken(w') <==> !Loses(w, j, op)
  {
    var t :| j.due <= t <= w.clock && Runs(j.task, op, t);
    OnlyPassesThrow(w, j, op, t);
    if Run(w.db, op).Done? {
      DeliveryKeepsWoken(w, w', j, op);
    } else {
      WithoutJob(w, j);
      assert w' == w.(jobs := w.jobs - multiset{j});
    }
  }

  /** Moving an owed effect to its queue keeps it pending, and a timeout it queues is not early. */
  lemma {:induction false} QueueKeepsWoken(w: World, w': World, e: Effect)
    requires Woken(w) && Queues(w, w', e)
    ensures Woken(w')
  {
    var j := JobOf(e, w.clock);
    assert EffectOnTime(w, e) && j in w'.jobs;
    forall r ensures RequestWoken(w', r) {
      assert RequestWoken(w, r);
      forall delay | Rematch(r, delay) in w.owed ensures Rematch(r, delay) in w'.owed || Rematch(r, delay) == e { }
      forall due | Job(RunMatch(r), due) in w.jobs ensures Job(RunMatch(r), due) in w'.jobs { }
    }
    forall o ensures OfferWoken(w', o) {
      assert OfferWoken(w, o);
      forall due | Job(TimeOutOffer(o), due) in w.jobs ensures Job(TimeOutOffer(o), due) in w'.jobs { }
    }
    forall k: Id ensures MatchWoken(w', k) {
      assert MatchWoken(w, k);
      forall due | Job(FinalizeMatch(k), due) in w.jobs ensures Job(FinalizeMatch(k), due) in w'.jobs { }
    }
    forall i ensures JobOnTime(w', i) { assert JobOnTime(w, i); }
    forall f ensures EffectOnTime(w', f) { assert EffectOnTime(w, f); }
  }

  lemma {:induction false} SweepKeepsWoken(w: World, w': World, j: Job)
    requires Woken(w) && (Sweeps(w, w', j) || Ticks(w, w'))
    ensures Woken(w')
  {
    assert forall i :: i in w.jobs ==> i in w'.jobs;
    forall r ensures RequestWoken(w', r) { assert RequestWoken(w, r); }
    forall o ensures OfferWoken(w', o) { assert OfferWoken(w, o); }
    forall k: Id ensures MatchWoken(w', k) { assert MatchWoken(w, k); }
    forall i ensures JobOnTime(w', i) { assert JobOnTime(w, i); }
    forall e ensures EffectOnTime(w', e) { assert EffectOnTime(w, e); }
  }

  /** The step is a delivery that loses its request. */
  ghost predicate LosesStep(w: World, w': World) { exists j, op :: Delivers(w, w', j, op) && Loses(w, j, op) }

  lemma {:induction false} StepWokenExactly(w: World, w': World)
    requires Woken(w) && Step(w, w')
    ensures Woken(w') <==> !LosesStep(w, w')
  {
    if j, op :| Delivers(w, w', j, op) && Loses(w, j, op) {
      DeliveryWokenExactly(w, w', j, op);
    } else if op :| Acts(w, w', op) {
      ActKeepsWoken(w, w', op);
    } else if j, op :| Delivers(w, w', j, op) {
      DeliveryWokenExactly(w, w', j, op);
    } else if e :| Queues(w, w', e) {
      QueueKeepsWoken(w, w', e);
    } else if j :| Sweeps(w, w', j) {
      SweepKeepsWoken(w, w', j);
    } else {
      SweepKeepsWoken(w, w', Job(RunMatch(0), 0));
    }
  }

  ghost predicate IsRun(run: seq<World>) {
    |run| > 0 && forall i {:trigger run[i]} :: 0 < i < |run| ==> Step(run[i - 1], run[i])
  }

  /** A prompt pass is pending, or an open offer of the request has its timeout pending. */
  ghost predicate WakeUpPending(w: World, r: Id) {
    MatchPending(w, r)
    || exists o :: o in OpenOffers(w.db.offers, r) && TimeoutPending(w, o, w.db.offers[o].respondBy)
  }

  lemma {:induction false} WokenMeansPending(w: World)
    requires Woken(w)
    ensures forall r :: r in w.db.requests && IsOpen(w.db.requests[r].status) ==> WakeUpPending(w, r)
  {
    forall r | r in w.db.requests && IsOpen(w.db.requests[r].status) ensures WakeUpPending(w, r) {
      assert RequestWoken(w, r);
      if w.db.requests[r].status.Offering? {
        assert BackedAt(w.db, r);
        var o :| o in OpenOffers(w.db.offers, r);
        assert OfferWoken(w, o);
      }
    }
  }

  /** No step up to the `n`th loses a request. */
  ghost predicate NothingLost(run: seq<World>, n: nat)
    requires n < |run|
  {
    forall i {:trigger run[i]} :: 0 < i <= n ==> !LosesStep(run[i - 1], run[i])
  }

  /**
   No lost wake-up: in a run from a woken world every state is woken if and only if no pass throws for want of its
   winner's item while nothing else is pending for its searching request. Each open request then has a pass due within
   thirty seconds, or an open offer whose timeout is pending, not early and at most half a second late; and each
   half-confirmed match will be finalized within the hour.
   */
  lemma {:induction false} NoLostWakeUp(run: seq<World>, n: nat)
    requires IsRun(run) && Woken(run[0]) && n < |run|
    ensures (forall i :: 0 <= i <= n ==> Woken(run[i])) <==> NothingLost(run, n)
    ensures NothingLost(run, n) ==>
      forall r :: r in run[n].db.requests && IsOpen(run[n].db.requests[r].status) ==> WakeUpPending(run[n], r)
  {
    if n > 0 {
      NoLostWakeUp(run, n - 1);
      OneMoreStep(run, n);
    }
    if NothingLost(run, n) { WokenMeansPending(run[n]); }
  }

  lemma {:induction false} OneMoreStep(run: seq<World>, n: nat)
    requires IsRun(run) && 0 < n < |run|
    requires (forall i :: 0 <= i < n ==> Woken(run[i])) <==> NothingLost(run, n - 1)
    ensures (forall i :: 0 <= i <= n ==> Woken(run[i])) <==> NothingLost(run, n)
  {
    LastState(run, n);
    LastLoss(run, n);
    assert Step(run[n - 1], run[n]);
    if NothingLost(run, n - 1) { StepWokenExactly(run[n - 1], run[n]); }
  }

  lemma {:induction false} LastState(run: seq<World>, n: nat)
    requires 0 < n < |run|
    ensures (forall i :: 0 <= i <= n ==> Woken(run[i])) <==> (forall i :: 0 <= i < n ==> Woken(run[i])) && Woken(run[n])
  {
  }

  lemma {:induction false} LastLoss(run: seq<World>, n: nat)
    requires 0 < n < |run|
    ensures NothingLost(run, n) <==> NothingLost(run, n - 1) && !LosesStep(run[n - 1], run[n])
  {
  }
}
