/**
 The life of an offer, told row by row: what closes an open one, what an answer does, which passes leave it alone, and
 that it stands until its deadline. Conditions are on the rows themselves.
 */
module OfferLife {
  import opened Domain
  import opened Ranking
  import opened Transactions
  import opened Invariants
  import opened Interleaving
  import opened Runs
  import opened Expiry
  import opened Eligibility
  import Wakeups

  // ------------------------------------------------------- which passes search

  /** The event is active and its matching is not paused. */
  predicate TakesMatches(e: Option<Event>) {
    match e case None => false case Some(v) => v.status.Running? && !v.matchingPaused
  }

  predicate Unanswered(f: Offer, r: Id) { f.request == r && f.status.Offered? }

  /** A pass searches exactly on an open unexpired request of an active event that no open offer still holds. */
  lemma {:induction false} SearchesExactly(db: Db, p: PassInput)
    requires Inv(db) && Legal(db, Pass(p))
    ensures Searches(db, p) <==>
      && p.request in db.requests && (db.requests[p.request].status.Searching? || db.requests[p.request].status.Offering?)
      && db.requests[p.request].expiresAt > p.now && TakesMatches(p.event)
      && forall o :: o in db.offers && Unanswered(db.offers[o], p.request) ==> db.offers[o].respondBy <= p.now
  {
    forall o | o in db.offers && Unanswered(db.offers[o], p.request)
      ensures p.request in db.requests && db.requests[p.request].status.Offering? && p.open == Some(o)
    {
      assert OfferSound(db, o);
      assert o in OpenOffers(db.offers, p.request);
      assert OffersApart(db.offers, o, p.open.value);
    }
  }

  /** Every other pass on a request that is not overdue changes nothing; for an inactive event it comes back in 30 seconds. */
  lemma {:induction false} PassIdles(db: Db, p: PassInput)
    requires Legal(db, Pass(p)) && !Searches(db, p)
    requires p.request in db.requests && IsOpen(db.requests[p.request].status) ==> db.requests[p.request].expiresAt > p.now
    ensures RunPass(db, p).Done? && RunPass(db, p).db == db
    ensures RunPass(db, p).after ==
      if p.request in db.requests && IsOpen(db.requests[p.request].status) && !TakesMatches(p.event)
      then [Rematch(p.request, 30_000)] else []
  {
  }

  // ------------------------------------------------------- what closes an offer

  /** The event ended more than its retention ago. */
  predicate RetentionOver(ends: map<Id, Closing>, e: Id, now: Time) {
    e in ends && now > ends[e].endsAt + ends[e].retentionDays * 86_400_000
  }

  /**
   Its deadline, by the timeout or by a pass that goes through; its helper's answer before the deadline; its request's
   expiry or closing; the purge of its event.
   */
  ghost predicate ClosesOffer(db: Db, op: Op, o: Id)
    requires Legal(db, op) && o in db.offers && db.offers[o].request in db.requests
  {
    var f := db.offers[o];
    var q := db.requests[f.request];
    match op
    case Pass(p) =>
      p.request == f.request
      && (q.expiresAt <= p.now || (f.respondBy <= p.now && TakesMatches(p.event) && !Wakeups.WinnerGone(db, p)))
    case Timeout(x, now) => x == o && f.respondBy <= now
    case Accept(x, helper, now, _) => x == o && helper == f.helper && now < f.respondBy
    case Decline(x, helper, now) => x == o && helper == f.helper && now < f.respondBy
    case CancelRequest(r, user) => r == f.request && user == q.requester
    case CloseAll(rs, _) => f.request in rs
    case Purge(ends, now) => RetentionOver(ends, q.event, now) && forall k :: 0 <= k < |db.matches| ==> db.matches[k].offer != o
    case _ => false
  }

  /** The status it is closed with. */
  ghost predicate ClosedAs(q: Request, op: Op, status: OfferStatus) {
    match op
    case Pass(p) => status == if q.expiresAt <= p.now then Superseded else TimedOut
    case Timeout(_, _) => status.TimedOut?
    case Accept(_, _, _, _) => status.Accepted? || status.TimedOut?
    case Decline(_, _, _) => status.Declined?
    case _ => status.Superseded?
  }

  /** An open offer and its request either stay as they are, or the offer is closed or gone. */
  ghost predicate OfferFate(db: Db, op: Op, o: Id)
    requires Legal(db, op) && o in db.offers && db.offers[o].request in db.requests
  {
    var f, r, db' := db.offers[o], db.offers[o].request, After(db, op);
    if !ClosesOffer(db, op, o) then
      o in db'.offers && db'.offers[o] == f && r in db'.requests && db'.requests[r] == db.requests[r]
    else if op.Purge? then o !in db'.offers
    else o in db'.offers && ClosedAs(db.requests[r], op, db'.offers[o].status) && db'.offers[o] == f.(status := db'.offers[o].status)
  }

  lemma {:induction false} PassFate(db: Db, p: PassInput, o: Id)
    requires Inv(db) && Legal(db, Pass(p)) && o in db.offers && db.offers[o].status.Offered?
    ensures db.offers[o].request in db.requests && OfferFate(db, Pass(p), o)
  {
    assert OfferSound(db, o);
    PassTouchesOwn(db, p, o);
    PassKeepsRest(db, p);
    if p.request == db.offers[o].request {
      assert o in OpenOffers(db.offers, p.request) && OffersApart(db.offers, o, p.open.value);
      assert p.open == Some(o);
      if db.requests[p.request].expiresAt <= p.now {
        assert o in OffersOf(db.offers, p.request);
        ExpiryCloses(db, p);
      } else {
        Wakeups.PassThrowsExactly(db, p);
        if Searches(db, p) && !Wakeups.WinnerGone(db, p) { SearchCloses(db, p, o); } else if !Searches(db, p) { PassIdles(db, p); }
      }
    }
  }

  /** A search that goes through has swept the lapsed offer. */
  lemma {:induction false} SearchCloses(db: Db, p: PassInput, o: Id)
    requires Legal(db, Pass(p)) && p.open == Some(o) && Searches(db, p) && RunPass(db, p).Done?
    requires db.requests[p.request].status.Offering?
    ensures After(db, Pass(p)).offers[o] == db.offers[o].(status := TimedOut)
  {
  }

  lemma {:induction false} AnswerFate(db: Db, op: Op, o: Id)
    requires Inv(db) && (op.Timeout? || op.Accept? || op.Decline?) && o in db.offers && db.offers[o].status.Offered?
    ensures db.offers[o].request in db.requests && OfferFate(db, op, o)
  {
    assert OfferSound(db, o);
    if op.offer != o {
      assert OffersApart(db.offers, o, op.offer);
      assert OfferSound(db, op.offer);
    } else if op.Accept? {
      AcceptedExactly(db, o, op.helper, op.now, op.fractional);
    }
  }

  lemma {:induction false} MatchOpFate(db: Db, op: Op, o: Id)
    requires Inv(db) && (op.Cancel? || op.Moderate? || op.Confirm? || op.AutoSettle?)
    requires o in db.offers && db.offers[o].status.Offered?
    ensures db.offers[o].request in db.requests && OfferFate(db, op, o)
  {
    assert OfferSound(db, o) && MatchSound(db, op.matchId);
  }

  lemma {:induction false} RequesterOpFate(db: Db, op: Op, o: Id)
    requires Inv(db) && Legal(db, op) && (op.Create? || op.CancelRequest? || op.Renew? || op.Continue? || op.CloseAll?)
    requires o in db.offers && db.offers[o].status.Offered?
    ensures db.offers[o].request in db.requests && OfferFate(db, op, o)
  {
    assert OfferSound(db, o);
    if op.CancelRequest? && ActiveMatch(db.matches, op.request).Some? {
      assert MatchSound(db, ActiveMatch(db.matches, op.request).value);
    }
  }

  /** What closes an open offer, exactly, and how; until then neither it nor its request changes. */
  lemma {:induction false} OfferClosesExactly(db: Db, op: Op, o: Id)
    requires Inv(db) && Legal(db, op) && o in db.offers && db.offers[o].status.Offered?
    ensures db.offers[o].request in db.requests && OfferFate(db, op, o)
  {
    assert OfferSound(db, o);
    if op.Pass? {
      PassFate(db, op.input, o);
    } else if op.Timeout? || op.Accept? || op.Decline? {
      AnswerFate(db, op, o);
    } else if op.Cancel? || op.Moderate? || op.Confirm? || op.AutoSettle? {
      MatchOpFate(db, op, o);
    } else if op.Create? || op.CancelRequest? || op.Renew? || op.Continue? || op.CloseAll? {
      RequesterOpFate(db, op, o);
    }
  }

  /** A closed offer never changes again. */
  lemma {:induction false} ClosedOfferStays(db: Db, op: Op, o: Id)
    requires Inv(db) && Legal(db, op) && o in db.offers && !db.offers[o].status.Offered? && o !in Deletes(db, op)
    ensures o in After(db, op).offers && After(db, op).offers[o] == db.offers[o]
  {
    if op.Pass? {
      PassTouchesOwn(db, op.input, o);
      ClosedStaysUnderPass(db, op.input, o);
    } else if op.Cancel? || op.Moderate? || op.Confirm? || op.AutoSettle? {
      assert After(db, op).offers == db.offers;
    }
  }

  lemma {:induction false} ClosedStaysUnderPass(db: Db, p: PassInput, o: Id)
    requires Legal(db, Pass(p)) && o in db.offers && !db.offers[o].status.Offered?
    ensures o in After(db, Pass(p)).offers && After(db, Pass(p)).offers[o] == db.offers[o]
  {
    if p.request in db.requests && TakesMatches(p.event) {
      assert SweepOpen(db, p).offers[o] == db.offers[o];
    }
  }

  /** A purge deletes exactly the offers of events past their retention that no match refers to. */
  lemma {:induction false} PurgedExactly(db: Db, ends: map<Id, Closing>, now: Time, o: Id)
    requires Inv(db) && o in db.offers
    ensures db.offers[o].request in db.requests
    ensures o !in After(db, Purge(ends, now)).offers <==>
      && RetentionOver(ends, db.requests[db.offers[o].request].event, now)
      && forall k :: 0 <= k < |db.matches| ==> db.matches[k].offer != o
  {
    assert OfferSound(db, o);
  }

  // ------------------------------------------------------- until the deadline

  /** The transaction is none of the things that can close offer `f` of request `q` before its deadline. */
  predicate LeavesAlone(q: Request, f: Offer, o: Id, op: Op) {
    match op
    case Pass(p) => p.request == f.request ==> p.now < f.respondBy && p.now < q.expiresAt
    case Timeout(x, now) => x == o ==> now < f.respondBy
    case Accept(x, helper, _, _) => x != o || helper != f.helper
    case Decline(x, helper, _) => x != o || helper != f.helper
    case CancelRequest(r, user) => r != f.request || user != q.requester
    case CloseAll(rs, _) => f.request !in rs
    case Purge(ends, now) => !RetentionOver(ends, q.event, now)
    case _ => true
  }

  /**
   An offer stands until its deadline: over any run, whatever passes and timeouts are delivered early or twice, only its
   helper's answer, its request's expiry or closing, and the purge of its event can close it.
   */
  lemma {:induction false} OfferStands(db: Db, ops: seq<Op>, o: Id)
    requires Inv(db) && LegalRun(db, ops) && o in db.offers && db.offers[o].status.Offered?
    requires db.offers[o].request in db.requests
    requires forall op :: op in ops ==> LeavesAlone(db.requests[db.offers[o].request], db.offers[o], o, op)
    ensures o in Final(db, ops).offers && Final(db, ops).offers[o] == db.offers[o]
    ensures var r := db.offers[o].request; r in Final(db, ops).requests && Final(db, ops).requests[r] == db.requests[r]
    decreases |ops|
  {
    if ops != [] {
      assert LeavesAlone(db.requests[db.offers[o].request], db.offers[o], o, ops[0]);
      OfferClosesExactly(db, ops[0], o);
      TransactionKeepsInv(db, ops[0]);
      OfferStands(After(db, ops[0]), ops[1..], o);
    }
  }

  // ------------------------------------------------------- answers

  /** A quantity an acceptance could reserve. */
  predicate Reservable(f: Offer, q: Request, item: Item, x: real, fractional: bool) {
    && 0.0 < x && x <= f.qty && x <= q.qty - q.fulfilled && x <= item.onHand - item.reserved && item.active
    && (fractional || IsWhole(x))
  }

  predicate Answerable(db: Db, o: Id, helper: Id, now: Time) {
    o in db.offers && db.offers[o].status.Offered? && db.offers[o].helper == helper && now < db.offers[o].respondBy
  }

  /**
   An acceptance goes through exactly on an open offer, by its helper and in time. It matches the request with the
   largest quantity that offer, need and free stock allow; if they allow none the offer lapses and the search goes on.
   */
  lemma {:induction false} AcceptedExactly(db: Db, o: Id, helper: Id, now: Time, fractional: bool)
    requires Inv(db)
    ensures var out := AcceptOffer(db, o, helper, now, fractional);
      && (out.Done? <==> Answerable(db, o, helper, now))
      && (Answerable(db, o, helper, now) ==>
            var f := db.offers[o];
            && f.request in db.requests && f.item in db.items
            && var q, item := db.requests[f.request], db.items[f.item];
               if exists x :: Reservable(f, q, item, x, fractional) then
                 exists x :: Reservable(f, q, item, x, fractional) && out == Done(Accepting(db, o, x), [])
                             && forall y :: Reservable(f, q, item, y, fractional) ==> y <= x
               else
                 out == Done(WithRequest(db.(offers := db.offers[o := f.(status := TimedOut)]), f.request,
                                         q.(status := Searching)), [Rematch(f.request, 0)]))
  {
    if Answerable(db, o, helper, now) {
      var f := db.offers[o];
      assert OfferSound(db, o);
      var q, item := db.requests[f.request], db.items[f.item];
      var k := ActiveMatch(db.matches, f.request);
      assert k.Some? ==> MatchSound(db, k.value);
      var free := if item.active then item.onHand - item.reserved else 0.0;
      var x := ReserveQty(f.qty, Remaining(q), free, fractional);
      ReserveQtyIsLargest(f.qty, Remaining(q), free, fractional);
      assert x > 0.0 ==> Reservable(f, q, item, x, fractional);
    }
  }

  /** A decline goes through exactly on an open offer, by its helper and in time, and sends the request back to searching. */
  lemma {:induction false} DeclinedExactly(db: Db, o: Id, helper: Id, now: Time)
    requires Inv(db)
    ensures var out := DeclineOffer(db, o, helper, now);
      && (out.Done? <==> Answerable(db, o, helper, now))
      && (Answerable(db, o, helper, now) ==>
            var f := db.offers[o];
            && f.request in db.requests
            && out == Done(WithRequest(db.(offers := db.offers[o := f.(status := Declined)]), f.request,
                                       db.requests[f.request].(status := Searching)), [Rematch(f.request, 0)]))
  {
    assert OfferSound(db, o);
  }

  /** A timeout closes an open offer exactly from its deadline on, and sends the request back to searching. */
  lemma {:induction false} TimedOutExactly(db: Db, o: Id, now: Time)
    requires Inv(db)
    ensures ExpireOffer(db, o, now) ==
      if o in db.offers && db.offers[o].status.Offered? && db.offers[o].respondBy <= now && db.offers[o].request in db.requests
      then
        var f := db.offers[o];
        Done(WithRequest(db.(offers := db.offers[o := f.(status := TimedOut)]), f.request,
                         db.requests[f.request].(status := Searching)), [Rematch(f.request, 0)])
      else Done(db, [])
  {
    assert OfferSound(db, o);
  }
}
