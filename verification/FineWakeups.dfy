/**
 Wake-ups at the grain of row locks: jobs start transactions that acquire their locks one by one, and a job stays with
 its queue until its transaction ends. A transaction that throws or is aborted takes its job with it; one whose worker
 stalls is delivered again. `FineLoses` says exactly when a wake-up is lost.
 */
module FineWakeups {
  import opened Domain
  import opened Transactions
  import opened Interleaving
  import opened Wakeups

  /** `serves[t]` is the job that transaction `t` was started for. */
  datatype Fine = Fine(
    state: State, serves: map<Id, Job>, jobs: multiset<Job>, owed: multiset<Effect>, clock: Time)

  /** What the atomic world sees. */
  function Seen(f: Fine): World { World(f.state.db, f.jobs, f.owed, f.clock) }

  function Without(jobs: multiset<Job>, serves: map<Id, Job>, t: Id): multiset<Job> {
    if t in serves then jobs - multiset{serves[t]} else jobs
  }

  /** Transaction `t` starts, for a job that is due or for a user; it may read the clock at any later time. */
  ghost predicate Starts(f: Fine, f': Fine, t: Id, op: Op, j: Option<Job>) {
    && Begins(f.state, f'.state, t, op) && !op.Purge?
    && match j
       case None => f' == f.(state := f'.state)
       case Some(job) =>
         && job in f.jobs && job.due <= f.clock && (exists now :: f.clock <= now && Runs(job.task, op, now))
         && f' == f.(state := f'.state, serves := f.serves[t := job])
  }

  /** Lock, read and query steps. */
  ghost predicate Works(f: Fine, f': Fine) {
    && ((exists t, row :: Locks(f.state, f'.state, t, row)) || (exists t, r :: Reads(f.state, f'.state, t, r))
        || (exists t :: Lists(f.state, f'.state, t)))
    && f' == f.(state := f'.state)
  }

  /** An error, a deadlock or a lost connection: no effect, and the job is not tried again. */
  ghost predicate Fails(f: Fine, f': Fine, t: Id) {
    && Ends(f.state, f'.state, t)
    && f' == f.(state := f'.state, serves := f.serves - {t}, jobs := Without(f.jobs, f.serves, t))
  }

  /** The worker stalls and its connection is closed: no effect, and the queue delivers the job again. */
  ghost predicate Stalls(f: Fine, f': Fine, t: Id) {
    Ends(f.state, f'.state, t) && f' == f.(state := f'.state, serves := f.serves - {t})
  }

  function Effects(out: Outcome): multiset<Effect> { if out.Done? then multiset(out.after) else multiset{} }

  /** The clock its transaction reads has come. */
  ghost predicate ClockRead(f: Fine, t: Id)
    requires t in f.state.txns
  {
    t in f.serves ==> exists now :: f.serves[t].due <= now <= f.clock && Runs(f.serves[t].task, f.state.txns[t].op, now)
  }

  /** A commit, or a throw where the transaction calls for one, ends the job; effects are computed from cached rows. */
  ghost predicate Completes(f: Fine, f': Fine, t: Id) {
    && Commits(f.state, f'.state, t) && ClockRead(f, t)
    && var txn := f.state.txns[t];
       f' == Fine(f'.state, f.serves - {t}, Without(f.jobs, f.serves, t),
                  f.owed + Effects(Run(View(f.state.db, txn.cache), txn.op)), f.clock)
  }

  /** The row an early return depends on is locked, or there is none. */
  predicate LooksLocked(db: Db, t: Txn) {
    match t.op
    case Pass(p) => p.request in t.cache.requests || p.request !in db.requests
    case Timeout(o, _) => o in t.cache.offers || o !in db.offers
    case AutoSettle(k) => k in t.cache.matches || k >= |db.matches|
    case _ => false
  }

  /** A transaction that finds nothing to write returns without the locks it would have needed for writing. */
  ghost predicate Returns(f: Fine, f': Fine, t: Id) {
    && Ends(f.state, f'.state, t) && ClockRead(f, t)
    && var op := f.state.txns[t].op;
    && LooksLocked(f.state.db, f.state.txns[t]) && Legal(f.state.db, op)
    && Run(f.state.db, op).Done? && After(f.state.db, op) == f.state.db
    && f' == Fine(f'.state, f.serves - {t}, Without(f.jobs, f.serves, t), f.owed + Effects(Run(f.state.db, op)), f.clock)
  }

  ghost predicate Performs(f: Fine, f': Fine, op: Op) {
    && Executes(f.state, f'.state, op) && !op.Purge?
    && f' == f.(state := f'.state, owed := f.owed + Effects(Run(f.state.db, op)))
  }

  /** Steps of the queues and the clock. */
  ghost predicate Queueing(f: Fine, f': Fine) {
    && ((exists e :: Queues(Seen(f), Seen(f'), e)) || (exists j :: Sweeps(Seen(f), Seen(f'), j)) || Ticks(Seen(f), Seen(f')))
    && f'.state == f.state && f'.serves == f.serves
  }

  ghost predicate FineStep(f: Fine, f': Fine) {
    || (exists t, op, j :: Starts(f, f', t, op, j))
    || Works(f, f')
    || (exists t :: Fails(f, f', t))
    || (exists t :: Stalls(f, f', t))
    || (exists t :: Completes(f, f', t))
    || (exists t :: Returns(f, f', t))
    || (exists op :: Performs(f, f', op))
    || Queueing(f, f')
  }

  // --------------------------------------------------------------- invariant

  ghost predicate Serving(f: Fine, t: Id) {
    (t in f.serves ==> t in f.state.txns) && (t in f.state.txns ==> !f.state.txns[t].op.Purge?)
  }

  ghost predicate FineWoken(f: Fine) {
    && FineInv(f.state) && Woken(Seen(f))
    && forall t {:trigger Serving(f, t)} :: Serving(f, t)
  }

  /** A woken world without running transactions is a start; the empty one is woken. */
  lemma {:induction false} QuietStart(w: World)
    requires Woken(w)
    ensures FineWoken(Fine(State(w.db, map[]), map[], w.jobs, w.owed, w.clock))
  {
    var f := Fine(State(w.db, map[]), map[], w.jobs, w.owed, w.clock);
    assert Seen(f) == w;
  }

  lemma {:induction false} EmptyIsWoken(clock: Time)
    ensures Woken(World(Db(map[], map[], [], map[]), multiset{}, multiset{}, clock))
  {
  }

  lemma {:induction false} StartKeepsWoken(f: Fine, f': Fine, t: Id, op: Op, j: Option<Job>)
    requires FineWoken(f) && Starts(f, f', t, op, j)
    ensures FineWoken(f')
  {
    LocalKeepsFineInv(f.state, f'.state);
    forall u ensures Serving(f', u) { assert Serving(f, u) && Serving(f, t); }
  }

  lemma {:induction false} WorkKeepsWoken(f: Fine, f': Fine)
    requires FineWoken(f) && Works(f, f')
    ensures FineWoken(f')
  {
    if t, row :| Locks(f.state, f'.state, t, row) { LockKeepsFineInv(f.state, f'.state, t, row); }
    else if t, r :| Reads(f.state, f'.state, t, r) { ReadKeepsFineInv(f.state, f'.state, t, r); }
    else { LocalKeepsFineInv(f.state, f'.state); }
    forall u ensures Serving(f', u) { assert Serving(f, u); }
  }

  lemma {:induction false} StallKeepsWoken(f: Fine, f': Fine, t: Id)
    requires FineWoken(f) && Stalls(f, f', t)
    ensures FineWoken(f')
  {
    LocalKeepsFineInv(f.state, f'.state);
    forall u ensures Serving(f', u) { assert Serving(f, u); }
  }

  /** The job of `t`, if the queue still has it. */
  predicate HasJob(f: Fine, t: Id) { t in f.serves && f.serves[t] in f.jobs }

  /** Nothing but the job of `t` wakes what it is for. */
  ghost predicate Sole(f: Fine, t: Id) {
    HasJob(f, t) && !SubjectWoken(Seen(f).(jobs := f.jobs - multiset{f.serves[t]}), f.serves[t])
  }

  /** An abort loses a wake-up exactly when its job was the sole one. */
  lemma {:induction false} FailureWokenExactly(f: Fine, f': Fine, t: Id)
    requires FineWoken(f) && Fails(f, f', t)
    ensures FineWoken(f') <==> !Sole(f, t)
  {
    LocalKeepsFineInv(f.state, f'.state);
    forall u ensures Serving(f', u) { assert Serving(f, u); }
    if HasJob(f, t) {
      WithoutJob(Seen(f), f.serves[t]);
      assert Seen(f') == Seen(f).(jobs := f.jobs - multiset{f.serves[t]});
    } else {
      assert Seen(f') == Seen(f);
    }
  }

  /** What a commit computes from its cache is what the transaction does to the committed tables. */
  lemma {:induction false} CommitComputes(s: State, s': State, t: Id)
    requires FineInv(s) && Commits(s, s', t)
    ensures View(s.db, s.txns[t].cache) == s.db && Legal(s.db, s.txns[t].op) && s'.db == After(s.db, s.txns[t].op)
    ensures FineInv(s')
  {
    assert FreshAt(s, t);
    CommitIsAtomic(s.db, s.txns[t]);
    CommitKeepsFineInv(s, s', t);
  }

  lemma {:induction false} RanAs(w: World, op: Op)
    requires Legal(w.db, op)
    ensures Ran(w, op) == w.(db := After(w.db, op), owed := w.owed + Effects(Run(w.db, op)))
  {
  }

  /** Ending a transaction with its effects owed: a delivery of its job, or an extra transaction if that is gone already. */
  lemma {:induction false} EndIsAtomic(f: Fine, t: Id, w': World)
    requires t in f.state.txns && Serving(f, t) && ClockRead(f, t) && Legal(f.state.db, f.state.txns[t].op)
    requires var op := f.state.txns[t].op;
      w' == World(After(f.state.db, op), Without(f.jobs, f.serves, t), f.owed + Effects(Run(f.state.db, op)), f.clock)
    ensures HasJob(f, t) ==> Delivers(Seen(f), w', f.serves[t], f.state.txns[t].op)
    ensures !HasJob(f, t) ==> Acts(Seen(f), w', f.state.txns[t].op)
  {
    var op := f.state.txns[t].op;
    RanAs(Seen(f), op);
    if HasJob(f, t) { RanAs(Seen(f).(jobs := f.jobs - multiset{f.serves[t]}), op); }
  }

  /** The transaction is a pass that throws for want of its winner's item while its job is the only wake-up of the request. */
  ghost predicate LosesAtEnd(f: Fine, t: Id) {
    && t in f.state.txns && Legal(f.state.db, f.state.txns[t].op)
    && HasJob(f, t) && Loses(Seen(f), f.serves[t], f.state.txns[t].op)
  }

  lemma {:induction false} EndWokenExactly(f: Fine, t: Id, w': World)
    requires Woken(Seen(f)) && t in f.state.txns && Serving(f, t) && ClockRead(f, t) && Legal(f.state.db, f.state.txns[t].op)
    requires var op := f.state.txns[t].op;
      w' == World(After(f.state.db, op), Without(f.jobs, f.serves, t), f.owed + Effects(Run(f.state.db, op)), f.clock)
    ensures Woken(w') <==> !LosesAtEnd(f, t)
  {
    var op := f.state.txns[t].op;
    EndIsAtomic(f, t, w');
    if HasJob(f, t) { DeliveryWokenExactly(Seen(f), w', f.serves[t], op); } else { ActKeepsWoken(Seen(f), w', op); }
  }

  lemma {:induction false} CompletionWokenExactly(f: Fine, f': Fine, t: Id)
    requires FineWoken(f) && Completes(f, f', t)
    ensures FineWoken(f') <==> !LosesAtEnd(f, t)
  {
    CommitComputes(f.state, f'.state, t);
    assert Serving(f, t);
    EndWokenExactly(f, t, Seen(f'));
    forall u ensures Serving(f', u) { assert Serving(f, u); }
  }

  lemma {:induction false} ReturnKeepsWoken(f: Fine, f': Fine, t: Id)
    requires FineWoken(f) && Returns(f, f', t)
    ensures FineWoken(f')
  {
    LocalKeepsFineInv(f.state, f'.state);
    assert Serving(f, t);
    EndIsAtomic(f, t, Seen(f'));
    if HasJob(f, t) { DeliveryKeepsWoken(Seen(f), Seen(f'), f.serves[t], f.state.txns[t].op); }
    else { ActKeepsWoken(Seen(f), Seen(f'), f.state.txns[t].op); }
    forall u ensures Serving(f', u) { assert Serving(f, u); }
  }

  lemma {:induction false} PerformKeepsWoken(f: Fine, f': Fine, op: Op)
    requires FineWoken(f) && Performs(f, f', op)
    ensures FineWoken(f')
  {
    StatementKeepsFineInv(f.state, f'.state, op);
    RanAs(Seen(f), op);
    ActKeepsWoken(Seen(f), Seen(f'), op);
    forall u ensures Serving(f', u) { assert Serving(f, u); }
  }

  lemma {:induction false} QueueingKeepsWoken(f: Fine, f': Fine)
    requires FineWoken(f) && Queueing(f, f')
    ensures FineWoken(f')
  {
    if e :| Queues(Seen(f), Seen(f'), e) { QueueKeepsWoken(Seen(f), Seen(f'), e); }
    else if j :| Sweeps(Seen(f), Seen(f'), j) { SweepKeepsWoken(Seen(f), Seen(f'), j); }
    else { SweepKeepsWoken(Seen(f), Seen(f'), Job(RunMatch(0), 0)); }
    forall u ensures Serving(f', u) { assert Serving(f, u); }
  }

  /** The step loses a wake-up: an abort with the sole job, or a pass that throws for want of its winner's item. */
  ghost predicate FineLoses(f: Fine, f': Fine) {
    || (exists t :: Fails(f, f', t) && Sole(f, t))
    || (exists t :: Completes(f, f', t) && LosesAtEnd(f, t))
  }

  /** Every step but an abort and a completion keeps everything woken. */
  lemma {:induction false} OtherStepsKeepWoken(f: Fine, f': Fine)
    requires FineWoken(f)
    requires (exists t, op, j :: Starts(f, f', t, op, j)) || Works(f, f') || (exists t :: Stalls(f, f', t))
      || (exists t :: Returns(f, f', t)) || (exists op :: Performs(f, f', op)) || Queueing(f, f')
    ensures FineWoken(f')
  {
    if t, op, j :| Starts(f, f', t, op, j) { StartKeepsWoken(f, f', t, op, j); }
    else if t :| Returns(f, f', t) { ReturnKeepsWoken(f, f', t); }
    else if t :| Stalls(f, f', t) { StallKeepsWoken(f, f', t); }
    else if op :| Performs(f, f', op) { PerformKeepsWoken(f, f', op); }
    else if Works(f, f') { WorkKeepsWoken(f, f'); }
    else { QueueingKeepsWoken(f, f'); }
  }

  lemma {:induction false} FineStepWokenExactly(f: Fine, f': Fine)
    requires FineWoken(f) && FineStep(f, f')
    ensures FineWoken(f') <==> !FineLoses(f, f')
  {
    if FineLoses(f, f') {
      LossIsNotWoken(f, f');
    } else if t :| Completes(f, f', t) {
      CompletionWokenExactly(f, f', t);
    } else if t :| Fails(f, f', t) {
      FailureWokenExactly(f, f', t);
    } else {
      OtherStepsKeepWoken(f, f');
    }
  }

  lemma {:induction false} LossIsNotWoken(f: Fine, f': Fine)
    requires FineWoken(f) && FineLoses(f, f')
    ensures !FineWoken(f')
  {
    if t :| Fails(f, f', t) && Sole(f, t) {
      FailureWokenExactly(f, f', t);
    } else {
      var t :| Completes(f, f', t) && LosesAtEnd(f, t);
      CompletionWokenExactly(f, f', t);
    }
  }

  ghost predicate IsFineRun(run: seq<Fine>) {
    |run| > 0 && forall i {:trigger run[i]} :: 0 < i < |run| ==> FineStep(run[i - 1], run[i])
  }

  ghost predicate NothingLostInterleaved(run: seq<Fine>, n: nat)
    requires n < |run|
  {
    forall i {:trigger run[i]} :: 0 < i <= n ==> !FineLoses(run[i - 1], run[i])
  }

  /**
   Wake-ups with transactions interleaved at their row locks, jobs delivered more than once and aborts: every state is
   woken if and only if no abort takes the sole job of its subject and no pass throws for want of its winner's item while
   its job is the sole one. Every open request then has a prompt pass pending, or an open offer whose timeout is pending.
   */
  lemma {:induction false} NoLostWakeUpInterleaved(run: seq<Fine>, n: nat)
    requires IsFineRun(run) && FineWoken(run[0]) && n < |run|
    ensures (forall i :: 0 <= i <= n ==> FineWoken(run[i])) <==> NothingLostInterleaved(run, n)
    ensures NothingLostInterleaved(run, n) ==>
      forall r :: r in run[n].state.db.requests && IsOpen(run[n].state.db.requests[r].status) ==>
        WakeUpPending(Seen(run[n]), r)
  {
    if n > 0 {
      NoLostWakeUpInterleaved(run, n - 1);
      OneMoreFineStep(run, n);
    }
    if NothingLostInterleaved(run, n) { WokenMeansPending(Seen(run[n])); }
  }

  lemma {:induction false} OneMoreFineStep(run: seq<Fine>, n: nat)
    requires IsFineRun(run) && 0 < n < |run|
    requires (forall i :: 0 <= i < n ==> FineWoken(run[i])) <==> NothingLostInterleaved(run, n - 1)
    ensures (forall i :: 0 <= i <= n ==> FineWoken(run[i])) <==> NothingLostInterleaved(run, n)
  {
    assert FineStep(run[n - 1], run[n]);
    if forall i :: 0 <= i < n ==> FineWoken(run[i]) { FineStepWokenExactly(run[n - 1], run[n]); }
  }
}
