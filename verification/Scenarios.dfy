/** Concrete legal runs and tables for the states in which a promise of the code fails. */
module Scenarios {
  import opened Domain
  import opened Ranking
  import opened Transactions
  import opened Invariants
  import opened Runs
  import opened Eligibility
  import opened Expiry
  import opened Interleaving
  import W = Wakeups
  import F = FineWakeups
  import Retention

  const NEWCOMER := Counters(0, 0, 0, 0, 0, 0, 0)
  const EVENT := Event(Running, false, 5_000, 45)

  // ------------------------------------------------- one request, one helper

  /** User 1 asks for one unit; user 2 has one and is asked. */
  const ASKING := Request(0, 1, 0, 1.0, 0.0, Searching, INITIAL_RADIUS, 0, 900_000)
  const STOCK := Item(2, 0, 0, 1.0, 0.0, true, None)
  const FIRST_PASS := PassInput(0, 0, Some(EVENT), false, None, [Candidate(2, 0, 1.0, None, 0, NEWCOMER)], [0.0], 0)
  const MADE := Offer(0, 2, 0, 1.0, Offered, 45_000)

  function SetUp(): seq<Op> { [Create(0, ASKING, 0), Add(0, STOCK), Pass(FIRST_PASS)] }

  const OFFERED_DB := Db(map[0 := ASKING.(status := Offering, attempts := 1)], map[0 := MADE], [], map[0 := STOCK])

  /** A later pass on the same request with the same query answer. */
  function PassAt(now: Time, newOffer: Id): PassInput { FIRST_PASS.(now := now, newOffer := newOffer) }

  function SearchingDb(q: Request): Db { Db(map[0 := q], map[], [], map[0 := STOCK]) }

  /** The tables once user 2 has been asked at `now`. */
  function OfferedDb(q: Request, now: Time, o: Id): Db {
    Db(map[0 := q.(status := Offering, attempts := q.attempts + 1)], map[o := MADE.(respondBy := now + 45_000)], [],
       map[0 := STOCK])
  }

  lemma {:induction false} SearchOffers(q: Request, p: PassInput)
    requires q.qty == 1.0 && q.fulfilled == 0.0 && p == PassAt(p.now, p.newOffer)
    ensures Search(SearchingDb(q), p) == Done(OfferedDb(q, p.now, p.newOffer), [Deadline(p.newOffer, p.now + 45_000)])
  {
    PicksTheHelper(q, p);
  }

  lemma {:induction false} PassOffers(q: Request, now: Time, o: Id)
    requires q.status.Searching? && q.requester == 1 && q.qty == 1.0 && q.fulfilled == 0.0 && q.expiresAt > now
    ensures Legal(SearchingDb(q), Pass(PassAt(now, o)))
    ensures After(SearchingDb(q), Pass(PassAt(now, o))) == OfferedDb(q, now, o)
  {
    var db, p := SearchingDb(q), PassAt(now, o);
    SearchOffers(q, p);
    assert OpenOffers(db.offers, 0) == {};
    assert RunPass(db, p) == Search(db, p);
  }

  lemma {:induction false} PicksTheHelper(q: Request, p: PassInput)
    requires q.qty == 1.0 && q.fulfilled == 0.0 && p == PassAt(p.now, p.newOffer)
    ensures PickFor(q, p) == Some(Pick(p.shortlist[0], 1.0))
    ensures forall x :: x in p.shortlist ==> x == p.shortlist[0]
  {
    assert Gives(p.shortlist[0], 1.0, false);
    WinnerIsBest(p.shortlist, p.jitters, 1.0, false);
  }

  lemma {:induction false} AskThen(c: Op)
    requires Legal(SearchingDb(ASKING), c)
    ensures var ops := [Create(0, ASKING, 0), Add(0, STOCK), c];
      LegalRun(EMPTY, ops) && Final(EMPTY, ops) == After(SearchingDb(ASKING), c)
  {
    var a, b := Create(0, ASKING, 0), Add(0, STOCK);
    var db1 := After(EMPTY, a);
    assert After(db1, b) == SearchingDb(ASKING);
    StepThen(SearchingDb(ASKING), c, []);
    StepThen(db1, b, [c]);
    StepThen(EMPTY, a, [b, c]);
    assert [c] + [] == [c] && [b] + [c] == [b, c] && [a] + [b, c] == [a, b, c];
  }

  /** Putting a legal transaction before a legal run. */
  lemma {:induction false} StepThen(db: Db, op: Op, rest: seq<Op>)
    requires Legal(db, op) && LegalRun(After(db, op), rest)
    ensures LegalRun(db, [op] + rest) && Final(db, [op] + rest) == Final(After(db, op), rest)
  {
    assert ([op] + rest)[1..] == rest;
  }

  lemma {:induction false} SetUpOffers()
    ensures LegalRun(EMPTY, SetUp()) && Final(EMPTY, SetUp()) == OFFERED_DB
  {
    PassOffers(ASKING, 0, 0);
    AskThen(Pass(FIRST_PASS));
  }

  /** Appending a legal transaction to a legal run. */
  lemma {:induction false} RunOneMore(db: Db, ops: seq<Op>, op: Op)
    requires LegalRun(db, ops) && Legal(Final(db, ops), op)
    ensures LegalRun(db, ops + [op]) && Final(db, ops + [op]) == After(Final(db, ops), op)
    decreases |ops|
  {
    if ops == [] {
      assert [op][1..] == [] && ops + [op] == [op];
    } else {
      assert (ops + [op])[1..] == ops[1..] + [op];
      RunOneMore(After(db, ops[0]), ops[1..], op);
    }
  }

  /** Event 0 ends after ten minutes and keeps its rows for one day. */
  const ENDS: map<Id, Closing> := map[0 := Closing(600_000, 1)]
  const LATE: Time := 600_000 + DAY + 1
  const LATE_PASS := FIRST_PASS.(now := LATE, shortlist := [], jitters := [], newOffer := 1)

  lemma {:induction false} LatePurge(db: Db, f: Offer)
    requires 0 in db.requests && db.requests[0].event == 0 && f.request == 0 && db.matches == [] && db.offers == map[0 := f]
    ensures After(db, Purge(ENDS, LATE)) == db.(offers := map[])
  {
    assert Purged(db, ENDS, LATE) == {0};
    assert db.offers - {0} == map[];
  }

  /**
   From the empty tables: asked, offered, and then nothing runs until a day after the event's end, when the purge comes
   first. The request is stranded and its expiry pass throws.
   */
  lemma {:induction false} StrandedRun()
    ensures var ops := SetUp() + [Purge(ENDS, LATE)];
      && LegalRun(EMPTY, ops) && Stranded(Final(EMPTY, ops), 0)
      && Legal(Final(EMPTY, ops), Pass(LATE_PASS)) && RunPass(Final(EMPTY, ops), LATE_PASS) == Thrown(Conflict)
  {
    SetUpOffers();
    RunOneMore(EMPTY, SetUp(), Purge(ENDS, LATE));
    LatePurge(OFFERED_DB, MADE);
    var db := OFFERED_DB.(offers := map[]);
    assert OpenOffers(db.offers, 0) == {};
  }

  const CANCELLED_DB := Db(map[0 := ASKING.(status := Cancelled, attempts := 1)], map[0 := MADE.(status := TimedOut)], [], map[0 := STOCK])
  const RENEWED := ASKING.(attempts := 1, expiresAt := LATE + 900_000)

  lemma {:induction false} TimedOutAndCancelled()
    ensures var db := After(OFFERED_DB, Timeout(0, 45_000));
      db == CANCELLED_DB.(requests := map[0 := ASKING.(attempts := 1)]) && After(db, CancelRequest(0, 1)) == CANCELLED_DB
  {
    var db := After(OFFERED_DB, Timeout(0, 45_000));
    assert db.requests == map[0 := ASKING.(attempts := 1)] && db.offers == CANCELLED_DB.offers;
    assert Supersede(db.offers, 0) == db.offers;
  }

  lemma {:induction false} RenewedAfterPurge()
    ensures After(CANCELLED_DB.(offers := map[]), Renew(0, 1, LATE, 15)) == SearchingDb(RENEWED)
  {
  }

  /** The offer times out, the owner cancels, the purge comes, the owner renews at the reopened event: user 2 is asked again. */
  lemma {:induction false} AskedAgainRun()
    ensures var ops := SetUp() + [Timeout(0, 45_000)] + [CancelRequest(0, 1)] + [Purge(ENDS, LATE)] + [Renew(0, 1, LATE, 15)];
      && LegalRun(EMPTY, ops) && Legal(Final(EMPTY, ops), Pass(PassAt(LATE, 1)))
      && Offers(Final(EMPTY, ops), Pass(PassAt(LATE, 1)), 0, 2)
  {
    var a := SetUp() + [Timeout(0, 45_000)];
    var b := a + [CancelRequest(0, 1)];
    var c := b + [Purge(ENDS, LATE)];
    SetUpOffers();
    RunOneMore(EMPTY, SetUp(), Timeout(0, 45_000));
    RunOneMore(EMPTY, a, CancelRequest(0, 1));
    TimedOutAndCancelled();
    RunOneMore(EMPTY, b, Purge(ENDS, LATE));
    LatePurge(CANCELLED_DB, MADE.(status := TimedOut));
    RunOneMore(EMPTY, c, Renew(0, 1, LATE, 15));
    RenewedAfterPurge();
    PassOffers(RENEWED, LATE, 1);
  }

  const ACCEPT := Op.Accept(0, 2, 1, false)
  const MATCHED_DB := Db(
    map[0 := ASKING.(status := Matched, attempts := 1)], map[0 := MADE.(status := Accepted)],
    [Match(0, 0, 1, 2, 0, 1.0, Active, None, None, false)], map[0 := STOCK.(reserved := 1.0)])

  /** An acceptance that finds everything in order. */
  lemma {:induction false} AcceptGoesThrough(db: Db, o: Id, helper: Id, now: Time, qty: real)
    requires AnswerableBy(db, o, helper) && db.offers[o].status.Offered? && db.offers[o].respondBy > now
    requires db.offers[o].request in db.requests && db.requests[db.offers[o].request].status.Offering?
    requires db.offers[o].item in db.items && db.items[db.offers[o].item].active && db.matches == []
    requires qty == ReserveQty(db.offers[o].qty, Remaining(db.requests[db.offers[o].request]),
                               Available(db.items[db.offers[o].item]), false) > 0.0
    ensures Committed(db, AcceptOffer(db, o, helper, now, false)) == Accepting(db, o, qty)
  {
  }

  lemma {:induction false} AcceptReserves(db: Db)
    requires 0 in db.requests && db.requests[0] == OFFERED_DB.requests[0] && db.matches == []
    requires 0 in db.offers && db.offers[0] == MADE && 0 in db.items && db.items[0] == STOCK
    ensures Committed(db, AcceptOffer(db, 0, 2, 1, false)) == Accepting(db, 0, 1.0)
  {
    ReservesOne();
    AcceptGoesThrough(db, 0, 2, 1, 1.0);
  }

  lemma {:induction false} AcceptingOne()
    ensures Accepting(OFFERED_DB, 0, 1.0) == MATCHED_DB
  {
    var db := Accepting(OFFERED_DB, 0, 1.0);
    assert db.requests == MATCHED_DB.requests && db.offers == MATCHED_DB.offers && db.items == MATCHED_DB.items;
    assert db.matches == MATCHED_DB.matches;
  }

  lemma {:induction false} ReservesOne()
    ensures ReserveQty(1.0, 1.0, 1.0, false) == 1.0
  {
  }

  lemma {:induction false} ZeroKeepsReserved(items: map<Id, Item>)
    requires items == map[0 := STOCK.(reserved := 1.0)]
    ensures Zeroed(items, 2) == map[0 := STOCK.(onHand := 1.0, reserved := 1.0, active := false)]
  {
  }

  /** The helper accepts between the cancel step of the account deletion and its stock step: one unit stays on hand. */
  lemma {:induction false} ReservedStockRun()
    ensures var ops := (SetUp() + [ACCEPT]) + [Zero(2)];
      && LegalRun(EMPTY, ops)
      && Final(EMPTY, ops).items == map[0 := STOCK.(onHand := 1.0, reserved := 1.0, active := false)]
  {
    SetUpOffers();
    RunOneMore(EMPTY, SetUp(), ACCEPT);
    AcceptReserves(OFFERED_DB);
    AcceptingOne();
    RunOneMore(EMPTY, SetUp() + [ACCEPT], Zero(2));
    ZeroKeepsReserved(MATCHED_DB.items);
  }

  // ------------------------------------------------- a lost wake-up

  const PROMPT := W.Job(W.RunMatch(0), 0)
  const AT_EXPIRY := W.Job(W.RunMatch(0), 901_000)

  function Waiting(db: Db): W.World { W.World(db, multiset{PROMPT, AT_EXPIRY}, multiset{}, 0) }

  const CREATE := Create(0, ASKING, 0)
  const ADD := Add(0, STOCK)
  const NOTHING := W.World(EMPTY, multiset{}, multiset{}, 0)
  const CREATED := W.World(EMPTY.(requests := map[0 := ASKING]), multiset{}, multiset{Rematch(0, 0), Rematch(0, 901_000)}, 0)
  const QUEUED := CREATED.(owed := multiset{Rematch(0, 901_000)}, jobs := multiset{PROMPT})
  const BOTH := QUEUED.(owed := multiset{}, jobs := multiset{PROMPT, AT_EXPIRY})

  lemma {:induction false} CreateRuns()
    ensures W.Acts(NOTHING, CREATED, CREATE)
  {
    assert Run(EMPTY, CREATE) == Done(CREATED.db, [Rematch(0, 0), Rematch(0, 901_000)]);
    assert multiset([Rematch(0, 0), Rematch(0, 901_000)]) == multiset{Rematch(0, 0), Rematch(0, 901_000)};
  }

  lemma {:induction false} JobsAreQueued()
    ensures W.Queues(CREATED, QUEUED, Rematch(0, 0)) && W.Queues(QUEUED, BOTH, Rematch(0, 901_000))
  {
  }

  lemma {:induction false} ItemIsAdded()
    ensures W.Acts(BOTH, Waiting(SearchingDb(ASKING)), ADD)
  {
    assert Run(BOTH.db, ADD) == Done(SearchingDb(ASKING), []);
  }

  /** The empty world, a request with its two jobs, and the helper's item. */
  lemma {:induction false} WaitingIsWoken()
    ensures W.Woken(Waiting(SearchingDb(ASKING)))
  {
    F.EmptyIsWoken(0);
    CreateRuns();
    JobsAreQueued();
    ItemIsAdded();
    Chain(NOTHING, CREATED, QUEUED, BOTH, Waiting(SearchingDb(ASKING)), CREATE, Rematch(0, 0), Rematch(0, 901_000), ADD);
  }

  lemma {:induction false} Chain(
    a: W.World, b: W.World, c: W.World, d: W.World, e: W.World, first: Op, one: Effect, two: Effect, last: Op)
    requires W.Woken(a) && W.Acts(a, b, first) && W.Queues(b, c, one) && W.Queues(c, d, two) && W.Acts(d, e, last)
    ensures W.Woken(e)
  {
    W.ActKeepsWoken(a, b, first);
    W.QueueKeepsWoken(b, c, one);
    W.QueueKeepsWoken(c, d, two);
    W.ActKeepsWoken(d, e, last);
  }

  const REMOVE := Op.Remove(0, 2)
  const PASSING := Txn(Pass(FIRST_PASS), NO_LOCKS.(requests := map[0 := ASKING]), map[0 := {}], map[0 := None], true)
  const REMOVING := Txn(REMOVE, NO_LOCKS.(items := map[0 := STOCK]), map[], map[], false)
  const EMPTIED := Db(map[0 := ASKING], map[], [], map[])

  /** The pass (1) has run its query, then the helper's removal (2) starts and locks the item. */
  function Racing(db: Db, txns: map<Id, Txn>): F.Fine {
    F.Fine(State(db, txns), map[1 := PROMPT], multiset{PROMPT, AT_EXPIRY}, multiset{}, 0)
  }

  lemma {:induction false} Begun(op: Op)
    ensures Locking(SearchingDb(ASKING), Txn(Pass(FIRST_PASS), NO_LOCKS, map[], map[], false), RequestRow(0))
         == PASSING.(saw := map[], sawMatch := map[], listed := false)
    ensures Reading(SearchingDb(ASKING), PASSING.(saw := map[], sawMatch := map[], listed := false), 0)
         == PASSING.(listed := false)
    ensures Locking(SearchingDb(ASKING), Txn(REMOVE, NO_LOCKS, map[], map[], false), ItemRow(0)) == REMOVING
  {
    assert OpenOffers(map[], 0) == {};
  }

  /** The removal commits, the item being referenced by nothing. */
  lemma {:induction false} RemovalCommits()
    ensures Commits(State(SearchingDb(ASKING), map[1 := PASSING, 2 := REMOVING]), State(EMPTIED, map[1 := PASSING]), 2)
    ensures Run(SearchingDb(ASKING), REMOVE) == Done(EMPTIED, [])
  {
    var db := SearchingDb(ASKING);
    assert db.items - {0} == map[];
    ViewIsDb(db, REMOVING);
    assert Install(db, EMPTIED, REMOVING.cache) == EMPTIED;
    assert map[1 := PASSING, 2 := REMOVING] - {2} == map[1 := PASSING];
  }

  /** The pass offers an item that is gone. */
  lemma {:induction false} PassThrows()
    ensures Legal(EMPTIED, Pass(FIRST_PASS)) && Run(EMPTIED, Pass(FIRST_PASS)) == Thrown(Conflict)
    ensures W.WinnerGone(EMPTIED, FIRST_PASS)
  {
    PicksTheHelper(ASKING, FIRST_PASS);
    assert OpenOffers(EMPTIED.offers, 0) == {};
  }

  lemma {:induction false} ThrowingPassEnds(p: PassInput, txn: Txn)
    requires txn == PASSING.(op := Pass(p)) && p.request == 0 && p.open.None?
    requires Legal(EMPTIED, Pass(p)) && Run(EMPTIED, Pass(p)) == Thrown(Conflict)
    ensures View(EMPTIED, txn.cache) == EMPTIED
    ensures Commits(State(EMPTIED, map[1 := txn]), State(EMPTIED, map[]), 1)
  {
    ViewIsDb(EMPTIED, txn);
    assert Install(EMPTIED, EMPTIED, txn.cache) == EMPTIED;
    assert map[1 := txn] - {1} == map[];
  }

  const BEGUN := Txn(Pass(FIRST_PASS), NO_LOCKS, map[], map[], false)
  const LOCKED := PASSING.(saw := map[], sawMatch := map[], listed := false)
  const READ := PASSING.(listed := false)
  const STARTED := Txn(REMOVE, NO_LOCKS, map[], map[], false)

  function Quiet(): F.Fine { Racing(SearchingDb(ASKING), map[]).(serves := map[]) }
  function Over(): F.Fine { F.Fine(State(EMPTIED, map[]), map[], multiset{AT_EXPIRY}, multiset{}, 0) }

  lemma {:induction false} Step1()
    ensures F.Starts(Quiet(), Racing(SearchingDb(ASKING), map[1 := BEGUN]), 1, Pass(FIRST_PASS), Some(PROMPT))
  {
    assert W.Runs(PROMPT.task, Pass(FIRST_PASS), 0);
  }

  lemma {:induction false} Step2()
    ensures F.Works(Racing(SearchingDb(ASKING), map[1 := BEGUN]), Racing(SearchingDb(ASKING), map[1 := LOCKED]))
  {
    Begun(REMOVE);
    assert map[1 := BEGUN][1 := LOCKED] == map[1 := LOCKED];
    assert Locks(State(SearchingDb(ASKING), map[1 := BEGUN]), State(SearchingDb(ASKING), map[1 := LOCKED]), 1, RequestRow(0));
  }

  lemma {:induction false} Step3()
    ensures F.Works(Racing(SearchingDb(ASKING), map[1 := LOCKED]), Racing(SearchingDb(ASKING), map[1 := READ]))
  {
    Begun(REMOVE);
    assert map[1 := LOCKED][1 := READ] == map[1 := READ];
    assert Reads(State(SearchingDb(ASKING), map[1 := LOCKED]), State(SearchingDb(ASKING), map[1 := READ]), 1, 0);
  }

  lemma {:induction false} Step4()
    ensures F.Works(Racing(SearchingDb(ASKING), map[1 := READ]), Racing(SearchingDb(ASKING), map[1 := PASSING]))
  {
    assert map[1 := READ][1 := PASSING] == map[1 := PASSING];
    assert Lists(State(SearchingDb(ASKING), map[1 := READ]), State(SearchingDb(ASKING), map[1 := PASSING]), 1);
  }

  lemma {:induction false} Step5()
    ensures F.Starts(Racing(SearchingDb(ASKING), map[1 := PASSING]),
                     Racing(SearchingDb(ASKING), map[1 := PASSING, 2 := STARTED]), 2, REMOVE, None)
  {
  }

  lemma {:induction false} Step6()
    ensures F.Works(Racing(SearchingDb(ASKING), map[1 := PASSING, 2 := STARTED]),
                    Racing(SearchingDb(ASKING), map[1 := PASSING, 2 := REMOVING]))
  {
    Begun(REMOVE);
    assert map[1 := PASSING, 2 := STARTED][2 := REMOVING] == map[1 := PASSING, 2 := REMOVING];
    assert Locks(State(SearchingDb(ASKING), map[1 := PASSING, 2 := STARTED]),
                 State(SearchingDb(ASKING), map[1 := PASSING, 2 := REMOVING]), 2, ItemRow(0));
  }

  lemma {:induction false} Step7()
    ensures F.Completes(Racing(SearchingDb(ASKING), map[1 := PASSING, 2 := REMOVING]), Racing(EMPTIED, map[1 := PASSING]), 2)
  {
    RemovalCommits();
    ViewIsDb(SearchingDb(ASKING), REMOVING);
  }

  lemma {:induction false} Step8()
    ensures F.Completes(Racing(EMPTIED, map[1 := PASSING]), Over(), 1)
  {
    PassThrows();
    ThrowingPassEnds(FIRST_PASS, PASSING);
    assert W.Runs(PROMPT.task, Pass(FIRST_PASS), 0);
    assert multiset{PROMPT, AT_EXPIRY} - multiset{PROMPT} == multiset{AT_EXPIRY};
  }

  lemma {:induction false} LosesAtTheEnd()
    ensures F.LosesAtEnd(Racing(EMPTIED, map[1 := PASSING]), 1) && !W.WakeUpPending(F.Seen(Over()), 0)
  {
    PassThrows();
    assert multiset{PROMPT, AT_EXPIRY} - multiset{PROMPT} == multiset{AT_EXPIRY};
    assert !W.MatchPending(F.Seen(Over()), 0);
    assert OpenOffers(EMPTIED.offers, 0) == {};
  }

  lemma {:induction false} RunOn(r: seq<F.Fine>, last: F.Fine, f: F.Fine)
    requires F.IsFineRun(r) && r[|r| - 1] == last
    requires (exists t, op, j :: F.Starts(last, f, t, op, j)) || F.Works(last, f) || (exists t :: F.Completes(last, f, t))
    ensures F.IsFineRun(r + [f])
  {
    assert F.FineStep(last, f);
  }

  /** The pass starts, locks its request, reads and runs the query. */
  lemma {:induction false} QueryIsRun() returns (r: seq<F.Fine>)
    ensures |r| == 5 && F.IsFineRun(r) && r[0] == Quiet() && r[4] == Racing(SearchingDb(ASKING), map[1 := PASSING])
  {
    Step1();
    Step2();
    Step3();
    Step4();
    r := [Quiet()];
    RunOn(r, r[|r| - 1], Racing(SearchingDb(ASKING), map[1 := BEGUN]));
    r := r + [Racing(SearchingDb(ASKING), map[1 := BEGUN])];
    RunOn(r, r[|r| - 1], Racing(SearchingDb(ASKING), map[1 := LOCKED]));
    r := r + [Racing(SearchingDb(ASKING), map[1 := LOCKED])];
    RunOn(r, r[|r| - 1], Racing(SearchingDb(ASKING), map[1 := READ]));
    r := r + [Racing(SearchingDb(ASKING), map[1 := READ])];
    RunOn(r, r[|r| - 1], Racing(SearchingDb(ASKING), map[1 := PASSING]));
    r := r + [Racing(SearchingDb(ASKING), map[1 := PASSING])];
  }

  /** The removal starts, locks the item and commits. */
  lemma {:induction false} RemovalIsRun() returns (r: seq<F.Fine>)
    ensures |r| == 8 && F.IsFineRun(r) && r[0] == Quiet() && r[7] == Racing(EMPTIED, map[1 := PASSING])
  {
    r := RemovalIsReady();
    Step7();
    RunOn(r, r[|r| - 1], Racing(EMPTIED, map[1 := PASSING]));
    r := r + [Racing(EMPTIED, map[1 := PASSING])];
  }

  lemma {:induction false} RemovalIsReady() returns (r: seq<F.Fine>)
    ensures |r| == 7 && F.IsFineRun(r) && r[0] == Quiet()
    ensures r[6] == Racing(SearchingDb(ASKING), map[1 := PASSING, 2 := REMOVING])
  {
    Step5();
    Step6();
    r := QueryIsRun();
    RunOn(r, r[|r| - 1], Racing(SearchingDb(ASKING), map[1 := PASSING, 2 := STARTED]));
    r := r + [Racing(SearchingDb(ASKING), map[1 := PASSING, 2 := STARTED])];
    RunOn(r, r[|r| - 1], Racing(SearchingDb(ASKING), map[1 := PASSING, 2 := REMOVING]));
    r := r + [Racing(SearchingDb(ASKING), map[1 := PASSING, 2 := REMOVING])];
  }

  lemma {:induction false} LosingSteps() returns (r: seq<F.Fine>)
    ensures |r| == 9 && F.IsFineRun(r) && r[0] == Quiet() && r[7] == Racing(EMPTIED, map[1 := PASSING]) && r[8] == Over()
  {
    Step8();
    r := RemovalIsRun();
    RunOn(r, r[|r| - 1], Over());
    r := r + [Over()];
  }

  lemma {:induction false} QuietIsWoken()
    ensures F.FineWoken(Quiet())
  {
    WaitingIsWoken();
    F.QuietStart(Waiting(SearchingDb(ASKING)));
  }

  /**
   A woken start, eight steps in which the helper removes the item between the query and the offer, and a searching request
   without a prompt pass at the end.
   */
  lemma {:induction false} WakeUpIsLost() returns (r: seq<F.Fine>)
    ensures |r| == 9 && F.IsFineRun(r) && F.FineWoken(r[0]) && F.FineLoses(r[7], r[8])
    ensures r[8] == Over() && Over().state.db.requests[0].status.Searching? && !W.WakeUpPending(F.Seen(Over()), 0)
  {
    r := LosingSteps();
    QuietIsWoken();
    Step8();
    LosesAtTheEnd();
  }

  // ------------------------------------------------- eight fractions and one unit

  const HELPERS: set<Id> := {1, 2, 3, 4, 5, 6, 7, 8, 9}

  /** Helper `u` stands `u` metres from the requester; the first eight hold half a unit each, the ninth a whole one. */
  function Half(u: Id): real { if u == 9 then 1.0 else 0.5 }

  function CrowdedDb(): Db {
    Db(map[0 := Request(0, 0, 0, 1.0, 0.0, Searching, INITIAL_RADIUS, 0, 900_000)], map[], [],
       map u | u in HELPERS :: Item(u, 0, 0, Half(u), 0.0, true, None))
  }

  /** Keys of these users at event 0. */
  function At(us: set<Id>): (ks: set<(Id, Id)>)
    ensures forall u :: u in us <==> (u, 0) in ks
  {
    set u | u in us :: (u, 0)
  }

  function CrowdedEnv(): Env {
    Env(map u | u in HELPERS :: User(ActiveUser, true, true, None, false),
        map k | k in At(HELPERS) :: Membership(false, false),
        map k | k in At(HELPERS) :: Availability(true, None),
        map k | k in At(HELPERS + {0}) :: Location(Point(k.0 as real, 0.0), 900_000),
        {},
        (a: Point, b: Point) => if a.lat >= b.lat then a.lat - b.lat else b.lat - a.lat)
  }

  function Row(u: Id): Candidate { Candidate(u, u, 0.5, Some(u as real), 0, NEWCOMER) }

  const EIGHT: seq<Candidate> := seq(SHORTLIST_SIZE, i requires 0 <= i < SHORTLIST_SIZE => Row(i + 1))
  const CROWDED_PASS := PassInput(0, 0, Some(EVENT), false, None, EIGHT, seq(SHORTLIST_SIZE, _ => 0.0), 0)

  lemma {:induction false} CrowdedIsSound()
    ensures Inv(CrowdedDb())
  {
    var db := CrowdedDb();
    assert OffersOf(db.offers, 0) == {};
    forall i ensures ItemSound(db, i) { }
    forall r ensures RequestSound(db, r) { }
  }

  lemma {:induction false} LocatedAt(u: Id)
    ensures u in HELPERS || u == 0 ==> LiveLocation(CrowdedEnv(), u, 0, 0) == Some(Point(u as real, 0.0))
    ensures u in HELPERS ==> (u, 0) in CrowdedEnv().members && (u, 0) in CrowdedEnv().availability
    ensures u !in HELPERS ==> u !in CrowdedEnv().users
  {
    assert u in HELPERS ==> (u, 0) in At(HELPERS);
    assert u in HELPERS || u == 0 ==> (u, 0) in At(HELPERS + {0});
  }

  lemma {:induction false} Standing(u: Id)
    ensures u in HELPERS ==>
      && Distance(CrowdedEnv(), CrowdedDb().requests[0], u, 0) == Some(u as real)
      && InRing(CrowdedEnv(), CrowdedDb().requests[0], u, 0, 5_000)
  {
    LocatedAt(u);
    LocatedAt(0);
  }

  lemma {:induction false} MayBeAsked(u: Id)
    requires u in HELPERS
    ensures var env := CrowdedEnv(); MayHelp(env, u) && IsMember(env, u, 0) && IsAvailable(env, u, 0, 0) && !Blocked(env, u, 0)
  {
    LocatedAt(u);
  }

  lemma {:induction false} HoldsOneItem(u: Id, i: Id)
    requires u in HELPERS
    ensures UsableItem(CrowdedDb(), CrowdedDb().requests[0], u, i, 0) <==> i == u
  {
  }

  lemma {:induction false} HelperIsEligible(u: Id)
    requires u in HELPERS
    ensures EligibleHelper(CrowdedDb(), CrowdedEnv(), 0, u, 0, 5_000)
  {
    var db := CrowdedDb();
    MayBeAsked(u);
    Standing(u);
    HoldsOneItem(u, u);
    assert ActiveMatchesOf(db.matches, u) == {};
  }

  lemma {:induction false} EveryHelperIsEligible(u: Id)
    ensures EligibleHelper(CrowdedDb(), CrowdedEnv(), 0, u, 0, 5_000) <==> u in HELPERS
    ensures u in HELPERS ==> Distance(CrowdedEnv(), CrowdedDb().requests[0], u, 0) == Some(u as real)
  {
    if u in HELPERS {
      HelperIsEligible(u);
      Standing(u);
    } else {
      LocatedAt(u);
    }
  }

  lemma {:induction false} RowIsTrue(u: Id)
    requires 1 <= u <= 8
    ensures RowFor(CrowdedDb(), CrowdedEnv(), 0, Row(u), 0)
  {
    EveryHelperIsEligible(u);
  }

  lemma {:induction false} EntryIsTrue(i: nat)
    requires i < SHORTLIST_SIZE
    ensures EIGHT[i] == Row(i + 1)
    ensures EligibleHelper(CrowdedDb(), CrowdedEnv(), 0, EIGHT[i].helper, 0, 5_000)
    ensures RowFor(CrowdedDb(), CrowdedEnv(), 0, EIGHT[i], 0)
  {
    EveryHelperIsEligible(i + 1);
    RowIsTrue(i + 1);
  }

  lemma {:induction false} OnlyNinthIsLeftOut(u: Id)
    requires EligibleHelper(CrowdedDb(), CrowdedEnv(), 0, u, 0, 5_000) && !Listed(EIGHT, u)
    ensures u == 9 && Distance(CrowdedEnv(), CrowdedDb().requests[0], u, 0) == Some(9.0)
  {
    EveryHelperIsEligible(u);
    assert 1 <= u <= 8 ==> EIGHT[u - 1] == Row(u);
  }

  ghost predicate Entry(db: Db, env: Env, c: Candidate)
    requires 0 in db.requests
  {
    EligibleHelper(db, env, 0, c.helper, 0, 5_000) && RowFor(db, env, 0, c, 0)
  }

  ghost predicate NoneNearer(db: Db, env: Env, cs: seq<Candidate>, u: Id)
    requires 0 in db.requests
  {
    EligibleHelper(db, env, 0, u, 0, 5_000) && !Listed(cs, u) ==>
      forall c :: c in cs ==> NoFarther(c.distance, Distance(env, db.requests[0], u, 0))
  }

  predicate NearestFirst(cs: seq<Candidate>) {
    forall i, j :: 0 <= i < j < |cs| ==> cs[i].helper != cs[j].helper && NoFarther(cs[i].distance, cs[j].distance)
  }

  /** Assembling a query answer from its parts. */
  lemma {:induction false} Assemble(db: Db, env: Env, cs: seq<Candidate>)
    requires 0 in db.requests && |cs| == SHORTLIST_SIZE && NearestFirst(cs)
    requires forall i {:trigger cs[i]} :: 0 <= i < |cs| ==> Entry(db, env, cs[i])
    requires forall u {:trigger NoneNearer(db, env, cs, u)} :: NoneNearer(db, env, cs, u)
    ensures IsShortlist(db, env, 0, 0, 5_000, cs)
  {
    forall i | 0 <= i < |cs|
      ensures EligibleHelper(db, env, 0, cs[i].helper, 0, 5_000) && RowFor(db, env, 0, cs[i], 0)
    {
      assert Entry(db, env, cs[i]);
    }
    forall u | EligibleHelper(db, env, 0, u, 0, 5_000) && !Listed(cs, u)
      ensures forall c :: c in cs ==> NoFarther(c.distance, Distance(env, db.requests[0], u, 0))
    {
      assert NoneNearer(db, env, cs, u);
    }
  }

  lemma {:induction false} EntryAt(i: nat)
    requires i < |EIGHT|
    ensures Entry(CrowdedDb(), CrowdedEnv(), EIGHT[i])
  {
    EntryIsTrue(i);
  }

  lemma {:induction false} NoneIsNearer(u: Id)
    ensures NoneNearer(CrowdedDb(), CrowdedEnv(), EIGHT, u)
  {
    var db, env := CrowdedDb(), CrowdedEnv();
    if EligibleHelper(db, env, 0, u, 0, 5_000) && !Listed(EIGHT, u) { OnlyNinthIsLeftOut(u); }
  }

  lemma {:induction false} AllEntries()
    ensures |EIGHT| == SHORTLIST_SIZE
    ensures forall i {:trigger EIGHT[i]} :: 0 <= i < |EIGHT| ==> Entry(CrowdedDb(), CrowdedEnv(), EIGHT[i])
  {
    forall i | 0 <= i < |EIGHT| ensures Entry(CrowdedDb(), CrowdedEnv(), EIGHT[i]) { EntryAt(i); }
  }

  lemma {:induction false} EightNearestFirst()
    ensures NearestFirst(EIGHT)
  {
    forall i, j | 0 <= i < j < |EIGHT|
      ensures EIGHT[i].helper != EIGHT[j].helper && NoFarther(EIGHT[i].distance, EIGHT[j].distance)
    {
      assert EIGHT[i] == Row(i + 1) && EIGHT[j] == Row(j + 1);
    }
  }

  lemma {:induction false} EightIsShortlist()
    ensures IsShortlist(CrowdedDb(), CrowdedEnv(), 0, 0, 5_000, EIGHT)
  {
    AllEntries();
    EightNearestFirst();
    forall u ensures NoneNearer(CrowdedDb(), CrowdedEnv(), EIGHT, u) { NoneIsNearer(u); }
    Assemble(CrowdedDb(), CrowdedEnv(), EIGHT);
  }

  lemma {:induction false} NinthHasUnit()
    ensures HasUnit(CrowdedDb(), CrowdedEnv(), CROWDED_PASS, 9)
  {
    var db := CrowdedDb();
    EveryHelperIsEligible(9);
    assert UsableItem(db, db.requests[0], 9, 9, 0) && Available(db.items[9]) >= 1.0;
  }

  lemma {:induction false} CrowdedSearches()
    ensures Legal(CrowdedDb(), Pass(CROWDED_PASS)) && Searches(CrowdedDb(), CROWDED_PASS)
  {
    var db := CrowdedDb();
    ShortlistIsSound(db, CrowdedEnv(), 0, 0, 5_000, EIGHT) by { EightIsShortlist(); }
    assert OpenOffers(db.offers, 0) == {};
  }

  lemma {:induction false} EightAreFractions()
    ensures FullOfFractions(CROWDED_PASS.shortlist)
  {
    forall c | c in EIGHT ensures c.available < 1.0 { }
  }

  /** The tables, the query answer and the pass fit together. */
  ghost predicate Crowded(db: Db, env: Env, p: PassInput) {
    && Inv(db) && Legal(db, Pass(p)) && Searches(db, p) && !p.fractional && Remaining(db.requests[p.request]) >= 1.0
    && IsShortlist(db, env, p.request, p.now, p.event.value.maxRadius, p.shortlist)
  }

  lemma {:induction false} CrowdedFits()
    ensures Crowded(CrowdedDb(), CrowdedEnv(), CROWDED_PASS)
  {
    CrowdedIsSound();
    CrowdedSearches();
    EightIsShortlist();
  }

  lemma {:induction false} Starve(db: Db, env: Env, p: PassInput, u: Id)
    requires Crowded(db, env, p) && FullOfFractions(p.shortlist) && HasUnit(db, env, p, u)
    ensures Starved(db, env, p)
  {
    StarvedExactly(db, env, p);
  }

  /** Nobody is asked, and the ninth helper, who could give the whole unit, is starved. */
  lemma {:induction false} NinthIsStarved() returns (db: Db, env: Env, p: PassInput)
    ensures Crowded(db, env, p) && HasUnit(db, env, p, 9) && Starved(db, env, p)
  {
    CrowdedFits();
    EightAreFractions();
    NinthHasUnit();
    db, env, p := CrowdedDb(), CrowdedEnv(), CROWDED_PASS;
    Starve(db, env, p, 9);
  }

  // ------------------------------------------------- a row switched on at a completed event

  /** Event 0 is completed with a helper still on; event 1 is still running. */
  const RACED := Retention.Life(
    map[0 := Retention.EventRow(Ended, 0, 0, 0), 1 := Retention.EventRow(Running, 0, 10 * DAY, 0)],
    map[(5, 0) := Availability(true, None)], map[], {})

  lemma {:induction false} OnlySecondCompletes()
    ensures !Retention.AnyCompletes(RACED.events, DAY)
    ensures Retention.AnyCompletes(RACED.events, 11 * DAY)
  {
    var t := 11 * DAY;
    assert Retention.Completes(Retention.Activated(RACED.events[1], t), t);
  }

  /** A run on day 1 archives event 0; the run after event 1 has ended then leaves the row on, and alone it would not. */
  lemma {:induction false} RacedRowIsMissed()
    ensures Retention.Missed(RACED, (5, 0), DAY, 11 * DAY)
    ensures (5, 0) in Retention.CompletedOff(RACED, 11 * DAY)
    ensures !Retention.CompletedOff(RACED, 11 * DAY)[(5, 0)].isOn
    ensures var mid := Retention.Lifecycle(RACED, DAY);
      (5, 0) in Retention.CompletedOff(mid, 11 * DAY)
      && Retention.CompletedOff(mid, 11 * DAY)[(5, 0)].isOn
  {
    OnlySecondCompletes();
    Retention.RowAfterTwo(RACED, DAY, 11 * DAY, (5, 0));
  }
}
