/**
 Expiry over whole runs: the pass that closes an overdue request, the sweep that calls for it, and the one state in
 which it fails.
 */
module Expiry {
  import opened Domain
  import opened Transactions
  import opened Invariants
  import opened Interleaving
  import opened Runs

  /** An offering request whose offers a purge has deleted. */
  predicate Stranded(db: Db, r: Id) {
    r in db.requests && db.requests[r].status.Offering? && OffersOf(db.offers, r) == {}
  }

  /**
   A pass on an overdue request closes it whatever the event's state, as expired exactly when an offer row exists;
   it fails exactly when the request is stranded, because offering has no transition to no_match.
   */
  lemma {:induction false} ExpiryCloses(db: Db, p: PassInput)
    requires PassReadable(db, p) && p.request in db.requests
    requires IsOpen(db.requests[p.request].status) && db.requests[p.request].expiresAt <= p.now
    ensures RunPass(db, p).Done? <==> !Stranded(db, p.request)
    ensures RunPass(db, p) == Thrown(Conflict) <==> Stranded(db, p.request)
    ensures RunPass(db, p).Done? ==>
      && RunPass(db, p).db.requests[p.request].status == (if OffersOf(db.offers, p.request) != {} then Expired else NoMatch)
      && OpenOffers(RunPass(db, p).db.offers, p.request) == {}
  {
  }

  // ------------------------------------------------------------- the sweep

  /** The outcome a request is closed with. */
  function ClosingStatus(q: Request): RequestStatus { if q.attempts > 0 then Expired else NoMatch }

  /**
   Whatever ran before, except a purge: right after a pass at or past its expiry a request is not open, and the pass
   that found it open closed it as expired if any offer was ever made, else as no_match.
   */
  lemma {:induction false} PassClosesOverdue(db: Db, ops: seq<Op>, p: PassInput)
    requires Inv(db) && Backed(db) && AttemptsExact(db) && LegalRun(db, ops) && NoPurge(ops)
    requires Legal(Final(db, ops), Pass(p)) && p.request in Final(db, ops).requests
    requires Final(db, ops).requests[p.request].expiresAt <= p.now
    ensures var before, after := Final(db, ops), After(Final(db, ops), Pass(p));
      && p.request in after.requests && !IsOpen(after.requests[p.request].status)
      && OpenOffers(after.offers, p.request) == {}
      && (IsOpen(before.requests[p.request].status) ==>
            after.requests[p.request] == before.requests[p.request].(status := ClosingStatus(before.requests[p.request])))
  {
    RunKeepsInv(db, ops);
    var before, r := Final(db, ops), p.request;
    assert ExactAt(before, r) && BackedAt(before, r);
    assert OpenOffers(before.offers, r) <= OffersOf(before.offers, r);
    if IsOpen(before.requests[r].status) {
      ExpiryCloses(before, p);
    } else {
      forall o ensures o !in OpenOffers(before.offers, r) { assert OfferSound(before, o); }
    }
  }

  predicate IsPassOn(op: Op, r: Id) { op.Pass? && op.input.request == r }

  /** Passes on `r` read the clock no earlier than `now`. */
  predicate PassesFrom(ops: seq<Op>, r: Id, now: Time) { forall op :: op in ops && IsPassOn(op, r) ==> op.input.now >= now }

  /** At some point of the run the request is not open. */
  ghost predicate Closes(db: Db, ops: seq<Op>, r: Id)
    requires LegalRun(db, ops)
    decreases |ops|
  {
    r in db.requests && (!IsOpen(db.requests[r].status) || (ops != [] && Closes(After(db, ops[0]), ops[1..], r)))
  }

  /** Nothing moves the expiry of a request that stays open. */
  lemma {:induction false} ExpiryFixed(db: Db, op: Op, r: Id)
    requires Inv(db) && Legal(db, op) && r in db.requests && IsOpen(db.requests[r].status)
    ensures r in After(db, op).requests
    ensures IsOpen(After(db, op).requests[r].status) ==> After(db, op).requests[r].expiresAt == db.requests[r].expiresAt
  {
    if op.Pass? {
      if op.input.request != r { PassKeepsRest(db, op.input); }
    } else if op.Cancel? || op.Moderate? || op.Confirm? || op.AutoSettle? {
      ExpiryFixedByMatchOp(db, op, r);
    } else {
      ExpiryFixedByOther(db, op, r);
    }
  }

  lemma {:induction false} ExpiryFixedByMatchOp(db: Db, op: Op, r: Id)
    requires r in db.requests && (op.Cancel? || op.Moderate? || op.Confirm? || op.AutoSettle?)
    ensures r in After(db, op).requests && After(db, op).requests[r].expiresAt == db.requests[r].expiresAt
  {
  }

  lemma {:induction false} ExpiryFixedByOther(db: Db, op: Op, r: Id)
    requires Legal(db, op) && r in db.requests && IsOpen(db.requests[r].status)
    requires !op.Pass? && !op.Cancel? && !op.Moderate? && !op.Confirm? && !op.AutoSettle?
    ensures r in After(db, op).requests && After(db, op).requests[r].expiresAt == db.requests[r].expiresAt
  {
  }

  /**
   Every request overdue at the sweep has been closed by the time the pass that the sweep enqueues has run, whatever
   jobs were lost and whatever transactions run in between, purges excepted.
   */
  lemma {:induction false} SweptRequestsClose(db: Db, ops: seq<Op>, now: Time, r: Id)
    requires Inv(db) && Backed(db) && AttemptsExact(db) && LegalRun(db, ops) && NoPurge(ops) && PassesFrom(ops, r, now)
    requires r in db.requests && db.requests[r].expiresAt <= now
    requires exists op :: op in ops && IsPassOn(op, r)
    ensures Closes(db, ops, r)
    decreases |ops|
  {
    if IsOpen(db.requests[r].status) {
      assert ops[0] in ops;
      TransactionKeepsInv(db, ops[0]);
      if IsPassOn(ops[0], r) {
        PassClosesOverdue(db, [], ops[0].input);
        assert Closes(After(db, ops[0]), ops[1..], r);
      } else {
        ExpiryFixed(db, ops[0], r);
        assert NoPurge(ops[1..]) && PassesFrom(ops[1..], r, now);
        var op :| op in ops && IsPassOn(op, r);
        assert op in ops[1..];
        if IsOpen(After(db, ops[0]).requests[r].status) {
          SweptRequestsClose(After(db, ops[0]), ops[1..], now, r);
        } else {
          assert Closes(After(db, ops[0]), ops[1..], r);
        }
      }
    }
  }

  // ------------------------------------------------------------- stranded requests

  /** A purge strands an offering request exactly when its event is past retention and no match refers to its offers. */
  lemma {:induction false} PurgeStrands(db: Db, ends: map<Id, Closing>, now: Time, r: Id)
    requires Inv(db) && r in db.requests && db.requests[r].status.Offering? && OffersOf(db.offers, r) != {}
    ensures Stranded(After(db, Purge(ends, now)), r) <==>
      && db.requests[r].event in ends
      && now > ends[db.requests[r].event].endsAt + ends[db.requests[r].event].retentionDays * 86_400_000
      && forall k :: 0 <= k < |db.matches| ==> db.matches[k].offer !in OffersOf(db.offers, r)
  {
    var mine, dead := OffersOf(db.offers, r), Purged(db, ends, now);
    var left := OffersOf(After(db, Purge(ends, now)).offers, r);
    assert left == mine - dead;
    if left == {} {
      forall o | o in mine ensures o in dead { assert o !in left; }
      var o :| o in mine;
      assert o in dead;
    }
  }

  /** The owner's cancel, account deletion and event disabling let a stranded request go. */
  predicate LetsGo(q: Request, op: Op, r: Id) {
    || (op.CancelRequest? && op.request == r && op.user == q.requester)
    || (op.CloseAll? && r in op.requests)
  }

  /** They are the only ones, once the request is overdue. */
  lemma {:induction false} StrandedStep(db: Db, op: Op, r: Id)
    requires Inv(db) && Legal(db, op) && Stranded(db, r)
    requires IsPassOn(op, r) ==> db.requests[r].expiresAt <= op.input.now
    ensures r in After(db, op).requests
    ensures LetsGo(db.requests[r], op, r) ==> !IsOpen(After(db, op).requests[r].status)
    ensures !LetsGo(db.requests[r], op, r) ==> Stranded(After(db, op), r) && After(db, op).requests[r] == db.requests[r]
    ensures IsPassOn(op, r) ==> Run(db, op) == Thrown(Conflict)
  {
    if op.Pass? {
      if op.input.request == r {
        ExpiryCloses(db, op.input);
      } else {
        PassKeepsRest(db, op.input);
        forall o ensures o !in OffersOf(After(db, op).offers, r) {
          PassTouchesOwn(db, op.input, o);
          assert o !in OffersOf(db.offers, r);
        }
      }
    } else if op.Timeout? || op.Decline? || op.Accept? {
      StrandedAnswer(db, op, r);
    } else if op.Cancel? || op.Moderate? || op.Confirm? || op.AutoSettle? {
      StrandedMatchOp(db, op, r);
    } else if op.CancelRequest? {
      StrandedCancel(db, op, r);
    } else if op.CloseAll? {
      StrandedClose(db, op, r);
    } else {
      StrandedOther(db, op, r);
    }
  }

  lemma {:induction false} StrandedAnswer(db: Db, op: Op, r: Id)
    requires Inv(db) && Stranded(db, r) && (op.Timeout? || op.Decline? || op.Accept?)
    ensures r in After(db, op).requests && After(db, op).requests[r] == db.requests[r] && Stranded(After(db, op), r)
  {
    assert op.offer !in OffersOf(db.offers, r);
    forall o ensures o !in OffersOf(After(db, op).offers, r) { assert o !in OffersOf(db.offers, r); }
  }

  lemma {:induction false} StrandedMatchOp(db: Db, op: Op, r: Id)
    requires Inv(db) && Stranded(db, r) && (op.Cancel? || op.Moderate? || op.Confirm? || op.AutoSettle?)
    ensures r in After(db, op).requests && After(db, op).requests[r] == db.requests[r] && Stranded(After(db, op), r)
  {
    assert MatchSound(db, op.matchId);
    assert After(db, op).offers == db.offers;
  }

  lemma {:induction false} StrandedCancel(db: Db, op: Op, r: Id)
    requires Inv(db) && Stranded(db, r) && op.CancelRequest?
    ensures r in After(db, op).requests
    ensures LetsGo(db.requests[r], op, r) ==> !IsOpen(After(db, op).requests[r].status)
    ensures !LetsGo(db.requests[r], op, r) ==> Stranded(After(db, op), r) && After(db, op).requests[r] == db.requests[r]
  {
    forall o ensures o !in OffersOf(After(db, op).offers, r) { assert o !in OffersOf(db.offers, r); }
    if op.request in db.requests && ActiveMatch(db.matches, op.request).Some? {
      assert MatchSound(db, ActiveMatch(db.matches, op.request).value);
    }
  }

  lemma {:induction false} StrandedClose(db: Db, op: Op, r: Id)
    requires Stranded(db, r) && op.CloseAll? && Legal(db, op)
    ensures r in After(db, op).requests
    ensures LetsGo(db.requests[r], op, r) ==> !IsOpen(After(db, op).requests[r].status)
    ensures !LetsGo(db.requests[r], op, r) ==> Stranded(After(db, op), r) && After(db, op).requests[r] == db.requests[r]
  {
    forall o ensures o !in OffersOf(After(db, op).offers, r) { assert o !in OffersOf(db.offers, r); }
  }

  lemma {:induction false} StrandedOther(db: Db, op: Op, r: Id)
    requires Legal(db, op) && Stranded(db, r)
    requires op.Create? || op.Renew? || op.Continue? || op.Add? || op.Edit? || op.Remove? || op.Zero? || op.Purge?
    ensures r in After(db, op).requests && Stranded(After(db, op), r) && After(db, op).requests[r] == db.requests[r]
  {
    assert After(db, op).offers.Keys <= db.offers.Keys;
    forall o ensures o !in OffersOf(After(db, op).offers, r) { assert o !in OffersOf(db.offers, r); }
  }

  /** No transaction of the run lets the request go. */
  predicate Held(q: Request, ops: seq<Op>, r: Id) { forall op :: op in ops ==> !LetsGo(q, op, r) }

  /**
   A stranded overdue request never expires: through any legal run it stays as it is, every pass on it throwing, until
   its owner or a moderator lets it go.
   */
  lemma {:induction false} StrandedForever(db: Db, ops: seq<Op>, now: Time, r: Id)
    requires Inv(db) && LegalRun(db, ops) && Stranded(db, r) && db.requests[r].expiresAt <= now
    requires PassesFrom(ops, r, now) && Held(db.requests[r], ops, r)
    ensures Stranded(Final(db, ops), r) && Final(db, ops).requests[r] == db.requests[r]
    decreases |ops|
  {
    if ops != [] {
      assert ops[0] in ops;
      StrandedStep(db, ops[0], r);
      TransactionKeepsInv(db, ops[0]);
      assert PassesFrom(ops[1..], r, now) && Held(db.requests[r], ops[1..], r);
      StrandedForever(After(db, ops[0]), ops[1..], now, r);
    }
  }
}
