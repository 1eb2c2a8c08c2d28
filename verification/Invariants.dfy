/**
 The invariant of every committed state and its preservation by every transaction.

 Each table contributes one predicate per row (or pair of rows); the quantifiers around them are
 triggered by those predicates only, so proofs name the rows they are about.
 */
module Invariants {
  import opened Domain
  import opened Ranking
  import opened Transactions
  import opened Ledger

  // ------------------------------------------------------------ the invariant

  /** An open offer belongs to an offering request; an offer quotes its helper's own stock, never the requester's. */
  ghost predicate OfferSound(db: Db, o: Id) {
    o in db.offers ==>
      var f := db.offers[o];
      && f.request in db.requests && db.requests[f.request].requester != f.helper
      && f.item in db.items && db.items[f.item].owner == f.helper
      && (f.status.Offered? ==> db.requests[f.request].status.Offering?)
  }

  /** A request has at most one open offer, and no helper is asked twice for one request. */
  ghost predicate OffersApart(offers: map<Id, Offer>, o: Id, p: Id) {
    o in offers && p in offers && o != p && offers[o].request == offers[p].request ==>
      !(offers[o].status.Offered? && offers[p].status.Offered?) && offers[o].helper != offers[p].helper
  }

  ghost predicate QtyWithin(c: Option<real>, max: real) { c.Some? ==> 0.0 <= c.value <= max }

  /** An active match belongs to a matched request whose open need covers the reservation. */
  ghost predicate MatchSound(db: Db, k: Id) {
    k < |db.matches| ==>
      var m := db.matches[k];
      && m.request in db.requests && m.item in db.items
      && m.requester == db.requests[m.request].requester
      && m.helper == db.items[m.item].owner && m.helper != m.requester
      && m.reserved > 0.0
      && QtyWithin(m.requesterConfirmed, m.reserved) && QtyWithin(m.helperConfirmed, m.reserved)
      && (m.applied <==> !m.status.Active?)
      && (m.status.Active? ==>
            && db.requests[m.request].status.Matched?
            && m.reserved <= Remaining(db.requests[m.request])
            && (m.requesterConfirmed.None? || m.helperConfirmed.None?))
  }

  ghost predicate MatchesApart(ms: seq<Match>, j: Id, k: Id) {
    j < |ms| && k < |ms| && j != k && ms[j].request == ms[k].request ==>
      !(ms[j].status.Active? && ms[k].status.Active?)
  }

  /**
   A request is credited exactly with what was delivered to it and never beyond its quantity; the offers
   it has never outnumber its attempts; a matched request has its active match.
   */
  ghost predicate RequestSound(db: Db, r: Id) {
    r in db.requests ==>
      var q := db.requests[r];
      && q.fulfilled == Sum(db.matches, DeliveredTo(r)) && 0.0 <= q.fulfilled <= q.qty
      && |OffersOf(db.offers, r)| <= q.attempts
      && (q.status.Matched? ==> ActiveMatch(db.matches, r).Some?)
  }

  /** Reservations are exactly what active matches hold, and never exceed stock. */
  ghost predicate ItemSound(db: Db, i: Id) {
    i in db.items ==>
      db.items[i].reserved == Sum(db.matches, Reserving(i)) && 0.0 <= db.items[i].reserved <= db.items[i].onHand
  }

  ghost predicate Inv(db: Db) {
    && (forall o {:trigger OfferSound(db, o)} :: OfferSound(db, o))
    && (forall o, p {:trigger OffersApart(db.offers, o, p)} :: OffersApart(db.offers, o, p))
    && (forall k {:trigger MatchSound(db, k)} :: MatchSound(db, k))
    && (forall j, k {:trigger MatchesApart(db.matches, j, k)} :: MatchesApart(db.matches, j, k))
    && (forall r {:trigger RequestSound(db, r)} :: RequestSound(db, r))
    && (forall i {:trigger ItemSound(db, i)} :: ItemSound(db, i))
  }

  /** An offering request is backed by an open offer; only a retention purge can break this. */
  ghost predicate BackedAt(db: Db, r: Id) {
    r in db.requests && db.requests[r].status.Offering? ==> OpenOffers(db.offers, r) != {}
  }

  ghost predicate Backed(db: Db) { forall r {:trigger BackedAt(db, r)} :: BackedAt(db, r) }

  /** Without purges the attempt count is the number of offers ever made. */
  ghost predicate ExactAt(db: Db, r: Id) {
    r in db.requests ==> |OffersOf(db.offers, r)| == db.requests[r].attempts
  }

  ghost predicate AttemptsExact(db: Db) { forall r {:trigger ExactAt(db, r)} :: ExactAt(db, r) }

  /** What every transaction but the purge does with the three state predicates. */
  ghost predicate Keeps(db: Db, db': Db) {
    Inv(db') && (Backed(db) ==> Backed(db')) && (AttemptsExact(db) ==> AttemptsExact(db'))
  }

  // ------------------------------------------------- changes to the offer side

  predicate SameNeed(q: Request, q': Request) {
    q'.qty == q.qty && q'.fulfilled == q.fulfilled && q'.requester == q.requester && q'.attempts == q.attempts
    && (q'.status.Matched? <==> q.status.Matched?)
  }

  /** Row `o` is unchanged or closed, and open only under an offering request. */
  ghost predicate OfferStep(db: Db, db': Db, o: Id) {
    o in db.offers && db.offers[o].request in db'.requests ==>
      && o in db'.offers
      && (db'.offers[o] == db.offers[o]
          || (!db'.offers[o].status.Offered? && db'.offers[o] == db.offers[o].(status := db'.offers[o].status)))
      && (db'.offers[o].status.Offered? ==> db'.requests[db'.offers[o].request].status.Offering?)
  }

  /** Row `r` moves between unmatched states; it stays offering only with its open offer untouched. */
  ghost predicate RequestStep(db: Db, db': Db, r: Id) {
    r in db.requests ==>
      && r in db'.requests && SameNeed(db.requests[r], db'.requests[r])
      && (db'.requests[r].status.Offering? ==>
            db.requests[r].status.Offering? && OpenOffers(db'.offers, r) == OpenOffers(db.offers, r))
  }

  /** A transaction that only closes offers and moves requests between unmatched states. */
  ghost predicate Closing(db: Db, db': Db) {
    && db'.matches == db.matches && db'.items == db.items
    && db'.requests.Keys == db.requests.Keys && db'.offers.Keys == db.offers.Keys
    && (forall o {:trigger OfferStep(db, db', o)} :: OfferStep(db, db', o))
    && (forall r {:trigger RequestStep(db, db', r)} :: RequestStep(db, db', r))
  }

  lemma {:induction false} ClosingKeepsInv(db: Db, db': Db)
    requires Inv(db) && Closing(db, db')
    ensures Keeps(db, db')
  {
    forall o ensures OfferSound(db', o) {
      assert OfferSound(db, o) && OfferStep(db, db', o);
      if o in db.offers { assert RequestStep(db, db', db.offers[o].request); }
    }
    forall o, p ensures OffersApart(db'.offers, o, p) {
      assert OffersApart(db.offers, o, p) && OfferStep(db, db', o) && OfferStep(db, db', p);
      assert OfferSound(db, o) && OfferSound(db, p);
    }
    forall k: Id ensures MatchSound(db', k) {
      assert MatchSound(db, k);
      if k < |db.matches| { assert RequestStep(db, db', db.matches[k].request); }
    }
    forall j: Id, k: Id ensures MatchesApart(db'.matches, j, k) { assert MatchesApart(db.matches, j, k); }
    forall i ensures ItemSound(db', i) { assert ItemSound(db, i); }
    forall r ensures RequestSound(db', r) {
      SameOffersOf(db, db', r);
      assert RequestSound(db, r) && RequestStep(db, db', r);
    }
    forall r ensures (BackedAt(db, r) ==> BackedAt(db', r)) && (ExactAt(db, r) ==> ExactAt(db', r)) {
      SameOffersOf(db, db', r);
      assert RequestStep(db, db', r);
    }
  }

  lemma {:induction false} SameOffersOf(db: Db, db': Db, r: Id)
    requires Inv(db) && Closing(db, db')
    ensures OffersOf(db'.offers, r) == OffersOf(db.offers, r)
  {
    forall o ensures o in OffersOf(db'.offers, r) <==> o in OffersOf(db.offers, r) {
      assert OfferStep(db, db', o) && OfferSound(db, o);
    }
  }

  /** Closing all open offers of `r` while `r` leaves the open states. */
  lemma {:induction false} ClosingOne(db: Db, r: Id, q': Request)
    requires Inv(db) && r in db.requests && SameNeed(db.requests[r], q') && !q'.status.Offering?
    ensures Keeps(db, WithRequest(db.(offers := Supersede(db.offers, r)), r, q'))
  {
    var db' := WithRequest(db.(offers := Supersede(db.offers, r)), r, q');
    forall o ensures OfferStep(db, db', o) { assert OfferSound(db, o); }
    forall x ensures RequestStep(db, db', x) {
      if x != r { assert OpenOffers(db'.offers, x) == OpenOffers(db.offers, x); }
    }
    ClosingKeepsInv(db, db');
  }

  /** A request without open offers moves between states other than offering and matched. */
  lemma {:induction false} MovingOne(db: Db, r: Id, q': Request)
    requires Inv(db) && r in db.requests && SameNeed(db.requests[r], q')
    requires !q'.status.Offering? && !db.requests[r].status.Offering?
    ensures Keeps(db, WithRequest(db, r, q'))
  {
    var db' := WithRequest(db, r, q');
    forall o ensures OfferStep(db, db', o) { assert OfferSound(db, o); }
    forall x ensures RequestStep(db, db', x) { }
    ClosingKeepsInv(db, db');
  }

  /** Closing one open offer `o` and moving its request back to searching. */
  lemma {:induction false} AnswerKeepsInv(db: Db, o: Id, status: OfferStatus)
    requires Inv(db) && o in db.offers && db.offers[o].status.Offered? && !status.Offered?
    ensures var f := db.offers[o];
      && f.request in db.requests && db.requests[f.request].status.Offering?
      && Keeps(db, WithRequest(db.(offers := db.offers[o := f.(status := status)]), f.request,
                               db.requests[f.request].(status := Searching)))
  {
    var f := db.offers[o];
    assert OfferSound(db, o);
    var db' := WithRequest(db.(offers := db.offers[o := f.(status := status)]), f.request,
                           db.requests[f.request].(status := Searching));
    forall x ensures OfferStep(db, db', x) { assert OfferSound(db, x) && OffersApart(db.offers, o, x); }
    forall r ensures RequestStep(db, db', r) {
      if r != f.request { assert OpenOffers(db'.offers, r) == OpenOffers(db.offers, r); }
    }
    ClosingKeepsInv(db, db');
  }

  // -------------------------------------------------------------- match pass

  lemma {:induction false} SweepOpenKeepsInv(db: Db, p: PassInput)
    requires Inv(db) && PassReadable(db, p) && OpenRowRead(db, p)
    requires p.request in db.requests && IsOpen(db.requests[p.request].status)
    ensures var db' := SweepOpen(db, p);
      && Keeps(db, db')
      && db'.requests[p.request] == db.requests[p.request].(status := Searching)
      && db'.offers.Keys == db.offers.Keys
      && forall o :: o in db.offers ==> db'.offers[o] == db.offers[o].(status := db'.offers[o].status)
  {
    var q := db.requests[p.request];
    if q.status.Offering? {
      if p.open.Some? {
        AnswerKeepsInv(db, p.open.value, TimedOut);
      } else {
        var db' := SweepOpen(db, p);
        forall o ensures OfferStep(db, db', o) {
          assert OfferSound(db, o);
          assert o !in OpenOffers(db.offers, p.request);
        }
        forall r ensures RequestStep(db, db', r) { }
        ClosingKeepsInv(db, db');
      }
    }
  }

  /** Making an offer: one fresh row, one more attempt, nothing else. */
  lemma {:induction false} OfferingKeepsInv(db: Db, r: Id, o: Id, f: Offer)
    requires Inv(db) && r in db.requests && db.requests[r].status.Searching? && o !in db.offers
    requires f.request == r && f.status.Offered? && !Asked(db.offers, r, f.helper)
    requires f.item in db.items && db.items[f.item].owner == f.helper && f.helper != db.requests[r].requester
    ensures Keeps(db, WithRequest(db.(offers := db.offers[o := f]), r,
                                  db.requests[r].(status := Offering, attempts := db.requests[r].attempts + 1)))
  {
    var q := db.requests[r];
    var db' := WithRequest(db.(offers := db.offers[o := f]), r, q.(status := Offering, attempts := q.attempts + 1));
    forall x ensures OfferSound(db', x) { assert OfferSound(db, x); }
    forall x ensures OffersApart(db'.offers, x, o) && OffersApart(db'.offers, o, x) { assert OfferSound(db, x); }
    forall x, y ensures OffersApart(db'.offers, x, y) { assert OffersApart(db.offers, x, y); }
    OfferingKeepsRest(db, r, o, f);
    OfferingCounts(db, r, o, f);
  }

  lemma {:induction false} OfferingKeepsRest(db: Db, r: Id, o: Id, f: Offer)
    requires Inv(db) && r in db.requests && db.requests[r].status.Searching? && o !in db.offers
    requires f.request == r && f.status.Offered?
    ensures var db' := WithRequest(db.(offers := db.offers[o := f]), r,
                                   db.requests[r].(status := Offering, attempts := db.requests[r].attempts + 1));
      && (forall k {:trigger MatchSound(db', k)} :: MatchSound(db', k))
      && (forall j, k {:trigger MatchesApart(db'.matches, j, k)} :: MatchesApart(db'.matches, j, k))
      && (forall i {:trigger ItemSound(db', i)} :: ItemSound(db', i))
  {
    var q := db.requests[r];
    var db' := WithRequest(db.(offers := db.offers[o := f]), r, q.(status := Offering, attempts := q.attempts + 1));
    forall k: Id ensures MatchSound(db', k) { assert MatchSound(db, k); }
    forall j: Id, k: Id ensures MatchesApart(db'.matches, j, k) { assert MatchesApart(db.matches, j, k); }
    forall i ensures ItemSound(db', i) { assert ItemSound(db, i); }
  }

  lemma {:induction false} OfferingCounts(db: Db, r: Id, o: Id, f: Offer)
    requires Inv(db) && r in db.requests && db.requests[r].status.Searching? && o !in db.offers
    requires f.request == r && f.status.Offered?
    ensures var db' := WithRequest(db.(offers := db.offers[o := f]), r,
                                   db.requests[r].(status := Offering, attempts := db.requests[r].attempts + 1));
      && (forall x {:trigger RequestSound(db', x)} :: RequestSound(db', x))
      && (Backed(db) ==> Backed(db')) && (AttemptsExact(db) ==> AttemptsExact(db'))
  {
    var q := db.requests[r];
    var db' := WithRequest(db.(offers := db.offers[o := f]), r, q.(status := Offering, attempts := q.attempts + 1));
    forall x ensures RequestSound(db', x) && (ExactAt(db, x) ==> ExactAt(db', x)) {
      assert RequestSound(db, x);
      assert OffersOf(db'.offers, x) == if x == r then OffersOf(db.offers, x) + {o} else OffersOf(db.offers, x);
    }
    forall x ensures BackedAt(db, x) ==> BackedAt(db', x) {
      if x == r {
        assert o in OpenOffers(db'.offers, r);
      } else {
        assert OpenOffers(db'.offers, x) == OpenOffers(db.offers, x);
      }
    }
  }

  /** The unique (request, helper) index never fires: a sound shortlist only names helpers not asked yet. */
  lemma {:induction false} PickNotAsked(db: Db, p: PassInput)
    requires |p.shortlist| <= |p.jitters| && p.request in db.requests
    requires ShortlistSound(db, p.request, p.shortlist)
    ensures var w := PickFor(db.requests[p.request], p);
      w.Some? ==>
        && w.value.c in p.shortlist && !Asked(db.offers, p.request, w.value.c.helper)
        && 0.0 < w.value.qty <= Remaining(db.requests[p.request])
  {
    WinnerIsBest(p.shortlist, p.jitters, Remaining(db.requests[p.request]), p.fractional);
  }

  lemma {:induction false} SearchKeepsInv(db: Db, p: PassInput)
    requires Inv(db) && |p.shortlist| <= |p.jitters| && p.request in db.requests && Matching(p.event)
    requires db.requests[p.request].status.Searching?
    requires p.newOffer !in db.offers && ShortlistSound(db, p.request, p.shortlist) && ItemsTheirs(db, p.shortlist)
    ensures Search(db, p).Done? ==> Keeps(db, Search(db, p).db)
  {
    var q := db.requests[p.request];
    PickNotAsked(db, p);
    match PickFor(q, p)
    case Some(w) =>
      if Search(db, p).Done? {
        OfferingKeepsInv(db, p.request, p.newOffer, Search(db, p).db.offers[p.newOffer]);
      }
    case None =>
      MovingOne(db, p.request, q);
      MovingOne(db, p.request, q.(radius := Widen(q.radius, p.event.value.maxRadius)));
      assert WithRequest(db, p.request, q) == db;
  }

  /** Sweeping changes no (request, helper) pair, so the shortlist stays sound. */
  lemma {:induction false} ShortlistSurvivesSweep(db: Db, db': Db, r: Id, cs: seq<Candidate>)
    requires ShortlistSound(db, r, cs) && db'.items == db.items && db'.offers.Keys == db.offers.Keys
    requires forall o :: o in db.offers ==> db'.offers[o] == db.offers[o].(status := db'.offers[o].status)
    requires r in db.requests && r in db'.requests && db'.requests[r].requester == db.requests[r].requester
    ensures ShortlistSound(db', r, cs)
  {
    forall c | c in cs ensures Asked(db'.offers, r, c.helper) ==> Asked(db.offers, r, c.helper) { }
  }

  lemma {:induction false} PassKeepsInv(db: Db, p: PassInput)
    requires Inv(db) && Legal(db, Pass(p))
    ensures RunPass(db, p).Done? ==> Keeps(db, RunPass(db, p).db)
  {
    if p.request in db.requests && IsOpen(db.requests[p.request].status) {
      var q := db.requests[p.request];
      if q.expiresAt <= p.now {
        ClosingOne(db, p.request, q.(status := Expired));
        ClosingOne(db, p.request, q.(status := NoMatch));
      } else if Matching(p.event) {
        SweepOpenKeepsInv(db, p);
        var db1 := SweepOpen(db, p);
        ShortlistSurvivesSweep(db, db1, p.request, p.shortlist);
        SearchKeepsInv(db1, p);
      }
    }
  }

  // ------------------------------------------------------------ acceptance

  lemma {:induction false} AcceptKeepsInv(db: Db, o: Id, helper: Id, now: Time, fractional: bool)
    requires Inv(db)
    ensures var out := AcceptOffer(db, o, helper, now, fractional); out.Done? ==> Keeps(db, out.db)
  {
    var out := AcceptOffer(db, o, helper, now, fractional);
    if out.Done? {
      var f := db.offers[o];
      var q, item := db.requests[f.request], db.items[f.item];
      var qty := ReserveQty(f.qty, Remaining(q), if item.active then item.onHand - item.reserved else 0.0, fractional);
      if qty <= 0.0 {
        AnswerKeepsInv(db, o, TimedOut);
      } else {
        AcceptedKeepsInv(db, o, qty);
      }
    }
  }

  function Accepting(db: Db, o: Id, qty: real): Db
    requires o in db.offers && db.offers[o].request in db.requests && db.offers[o].item in db.items
  {
    var f := db.offers[o];
    var q, item := db.requests[f.request], db.items[f.item];
    Db(db.requests[f.request := q.(status := Matched)],
       db.offers[o := f.(status := Accepted)],
       db.matches + [Match(f.request, o, q.requester, f.helper, f.item, qty, Active, None, None, false)],
       db.items[f.item := item.(reserved := item.reserved + qty)])
  }

  /** An acceptance reserves the same quantity on the item and in the new match. */
  lemma {:induction false} AcceptedKeepsInv(db: Db, o: Id, qty: real)
    requires Inv(db) && o in db.offers && db.offers[o].status.Offered?
    requires db.offers[o].request in db.requests && db.offers[o].item in db.items
    requires ActiveMatch(db.matches, db.offers[o].request).None?
    requires 0.0 < qty <= Remaining(db.requests[db.offers[o].request])
    requires qty <= db.items[db.offers[o].item].onHand - db.items[db.offers[o].item].reserved
    ensures Keeps(db, Accepting(db, o, qty))
  {
    var db' := Accepting(db, o, qty);
    var r := db.offers[o].request;
    assert OfferSound(db, o);
    forall x ensures OfferSound(db', x) { assert OfferSound(db, x) && OffersApart(db.offers, o, x); }
    forall x, y ensures OffersApart(db'.offers, x, y) { assert OffersApart(db.offers, x, y); }
    forall k: Id ensures MatchSound(db', k) { assert MatchSound(db, k); }
    forall j: Id, k: Id ensures MatchesApart(db'.matches, j, k) { assert MatchesApart(db.matches, j, k); }
    var m := db'.matches[|db.matches|];
    forall i ensures ItemSound(db', i) {
      assert ItemSound(db, i);
      SumAppend(db.matches, m, Reserving(i));
    }
    forall x ensures RequestSound(db', x) && (ExactAt(db, x) ==> ExactAt(db', x)) {
      assert RequestSound(db, x);
      SumAppend(db.matches, m, DeliveredTo(x));
      assert OffersOf(db'.offers, x) == OffersOf(db.offers, x);
      StillActive(db.matches, db'.matches, x);
    }
    forall x ensures BackedAt(db, x) ==> BackedAt(db', x) {
      if x != r { assert OpenOffers(db'.offers, x) == OpenOffers(db.offers, x); }
    }
  }

  /** An active match of `r` that survives a change keeps `r` matched. */
  lemma {:induction false} StillActive(ms: seq<Match>, ms': seq<Match>, r: Id)
    ensures (exists k :: 0 <= k < |ms'| && ms'[k].request == r && ms'[k].status.Active?) ==> ActiveMatch(ms', r).Some?
    ensures ActiveMatch(ms, r).Some? ==> exists k :: 0 <= k < |ms| && ms[k].request == r && ms[k].status.Active?
    ensures |ms| < |ms'| && ms'[|ms|].request == r && ms'[|ms|].status.Active? ==> ActiveMatch(ms', r).Some?
    ensures |ms| <= |ms'| && ActiveMatch(ms, r).Some? && ms'[ActiveMatch(ms, r).value] == ms[ActiveMatch(ms, r).value] ==>
      ActiveMatch(ms', r).Some?
  {
  }

  // ------------------------------------------------------------ match closing

  /** The tables after closing match `k` as `m'`. */
  ghost function ClosingMatch(db: Db, k: Id, m': Match, to: RequestStatus): Db
    requires Lockable(db, k)
  {
    var m := db.matches[k];
    var q, item := db.requests[m.request], db.items[m.item];
    Db(db.requests[m.request := q.(status := to, fulfilled := q.fulfilled + Delivered(m'))],
       db.offers,
       db.matches[k := m'],
       db.items[m.item := item.(onHand := item.onHand - Delivered(m'), reserved := item.reserved - m.reserved)])
  }

  ghost predicate ClosedVersion(m: Match, m': Match) {
    && !m'.status.Active?
    && m' == m.(status := m'.status, applied := true,
                requesterConfirmed := m'.requesterConfirmed, helperConfirmed := m'.helperConfirmed)
    && QtyWithin(m'.requesterConfirmed, m.reserved) && QtyWithin(m'.helperConfirmed, m.reserved)
  }

  /**
   Closing a match removes its reservation from both sides of the ledger and moves the delivered
   quantity from stock to the request.
   */
  lemma {:induction false} ClosingMatchKeepsInv(db: Db, k: Id, m': Match, to: RequestStatus)
    requires Inv(db) && Lockable(db, k) && db.matches[k].status.Active? && ClosedVersion(db.matches[k], m')
    requires !to.Matched? && !to.Offering?
    ensures Keeps(db, ClosingMatch(db, k, m', to))
  {
    var db' := ClosingMatch(db, k, m', to);
    var m := db.matches[k];
    assert MatchSound(db, k);
    assert 0.0 <= Delivered(m') <= m.reserved;
    forall o ensures OfferSound(db', o) { assert OfferSound(db, o); }
    forall o, p ensures OffersApart(db'.offers, o, p) { assert OffersApart(db.offers, o, p); }
    forall j: Id ensures MatchSound(db', j) { assert MatchSound(db, j) && MatchesApart(db.matches, j, k); }
    forall i: Id, j: Id ensures MatchesApart(db'.matches, i, j) { assert MatchesApart(db.matches, i, j); }
    forall i ensures ItemSound(db', i) { ItemAfterClosing(db, k, m', to, i); }
    forall r ensures RequestSound(db', r) {
      assert RequestSound(db, r);
      SumUpdate(db.matches, k, m', DeliveredTo(r));
      StillActive(db.matches, db'.matches, r);
    }
    forall r ensures (BackedAt(db, r) ==> BackedAt(db', r)) && (ExactAt(db, r) ==> ExactAt(db', r)) { }
  }

  lemma {:induction false} ItemAfterClosing(db: Db, k: Id, m': Match, to: RequestStatus, i: Id)
    requires Inv(db) && Lockable(db, k) && db.matches[k].status.Active? && ClosedVersion(db.matches[k], m')
    requires 0.0 <= Delivered(m') <= db.matches[k].reserved
    ensures ItemSound(ClosingMatch(db, k, m', to), i)
  {
    assert ItemSound(db, i);
    SumUpdate(db.matches, k, m', Reserving(i));
    forall j | 0 <= j < |db.matches| ensures Reserving(i)(db.matches[j]) >= 0.0 { assert MatchSound(db, j); }
    SumAtLeast(db.matches, k, Reserving(i));
  }

  lemma {:induction false} CancelKeepsInv(db: Db, k: Id, who: Canceller, unsafe: bool)
    requires Inv(db) && Lockable(db, k)
    ensures var out := CancelLocked(db, k, who, unsafe);
      (out.Done? <==> db.matches[k].status.Active?) && (out.Done? ==> Keeps(db, out.db))
  {
    assert MatchSound(db, k);
    if db.matches[k].status.Active? {
      var out := CancelLocked(db, k, who, unsafe);
      var to := out.db.requests[db.matches[k].request].status;
      ClosingMatchKeepsInv(db, k, out.db.matches[k], to);
      assert out.db == ClosingMatch(db, k, out.db.matches[k], to);
    }
  }

  /** Settlement of an active match is never refused by the transition table. */
  lemma {:induction false} SettleKeepsInv(db: Db, k: Id, m: Match, disputed: bool)
    requires Inv(db) && Lockable(db, k) && db.matches[k].status.Active?
    requires m == db.matches[k].(requesterConfirmed := m.requesterConfirmed, helperConfirmed := m.helperConfirmed)
    requires QtyWithin(m.requesterConfirmed, m.reserved) && QtyWithin(m.helperConfirmed, m.reserved)
    ensures var out := Settle(db, k, m, FinalQty(m), disputed); out.Done? && Keeps(db, out.db)
  {
    assert MatchSound(db, k) && RequestSound(db, m.request);
    var out := Settle(db, k, m, FinalQty(m), disputed);
    var to := out.db.requests[m.request].status;
    ClosingMatchKeepsInv(db, k, out.db.matches[k], to);
    assert out.db == ClosingMatch(db, k, out.db.matches[k], to);
  }

  lemma {:induction false} FirstConfirmationKeepsInv(db: Db, k: Id, m': Match)
    requires Inv(db) && k < |db.matches| && db.matches[k].status.Active?
    requires m' == db.matches[k].(requesterConfirmed := m'.requesterConfirmed, helperConfirmed := m'.helperConfirmed)
    requires QtyWithin(m'.requesterConfirmed, m'.reserved) && QtyWithin(m'.helperConfirmed, m'.reserved)
    requires m'.requesterConfirmed.None? || m'.helperConfirmed.None?
    ensures Keeps(db, db.(matches := db.matches[k := m']))
  {
    var db' := db.(matches := db.matches[k := m']);
    forall o ensures OfferSound(db', o) { assert OfferSound(db, o); }
    forall o, p ensures OffersApart(db'.offers, o, p) { assert OffersApart(db.offers, o, p); }
    forall j: Id ensures MatchSound(db', j) { assert MatchSound(db, j) && MatchSound(db, k); }
    forall i: Id, j: Id ensures MatchesApart(db'.matches, i, j) { assert MatchesApart(db.matches, i, j); }
    forall i ensures ItemSound(db', i) {
      assert ItemSound(db, i);
      SumUpdate(db.matches, k, m', Reserving(i));
    }
    forall r ensures RequestSound(db', r) {
      assert RequestSound(db, r);
      SumUpdate(db.matches, k, m', DeliveredTo(r));
      StillActive(db.matches, db'.matches, r);
      if ActiveMatch(db.matches, r) == Some(k) { assert db'.matches[k].request == r; }
    }
    forall r ensures (BackedAt(db, r) ==> BackedAt(db', r)) && (ExactAt(db, r) ==> ExactAt(db', r)) { }
  }

  lemma {:induction false} ConfirmKeepsInv(db: Db, k: Id, viewer: Id, qty: real, fractional: bool)
    requires Inv(db)
    ensures var out := ConfirmCompletion(db, k, viewer, qty, fractional); out.Done? ==> Keeps(db, out.db)
  {
    var out := ConfirmCompletion(db, k, viewer, qty, fractional);
    if out.Done? && out.db != db {
      var m := db.matches[k];
      assert MatchSound(db, k);
      var isRequester := m.requester == viewer;
      var m' := if isRequester then m.(requesterConfirmed := Some(qty)) else m.(helperConfirmed := Some(qty));
      var other := if isRequester then m.helperConfirmed else m.requesterConfirmed;
      if other.None? {
        FirstConfirmationKeepsInv(db, k, m');
      } else {
        assert FinalQty(m') == Min(qty, other.value);
        SettleKeepsInv(db, k, m', qty != other.value);
      }
    }
  }

  lemma {:induction false} AutoFinalizeKeepsInv(db: Db, k: Id)
    requires Inv(db)
    ensures AutoFinalize(db, k).Done? && Keeps(db, AutoFinalize(db, k).db)
  {
    if Lockable(db, k) && HalfConfirmed(db.matches[k]) {
      assert MatchSound(db, k);
      SettleKeepsInv(db, k, db.matches[k], false);
    }
  }

  // ------------------------------------------------------------------- stock

  ghost predicate ItemStep(db: Db, items': map<Id, Item>, i: Id) {
    && (i in db.items && (i in items' || Referenced(db, i)) ==>
          i in items' && items'[i].owner == db.items[i].owner && items'[i].reserved == db.items[i].reserved)
    && (i in items' ==> items'[i].reserved <= items'[i].onHand)
    && (i in items' && i !in db.items ==> items'[i].reserved == 0.0)
  }

  /** Stock edits keep the invariant when no referenced item disappears and no reservation changes. */
  lemma {:induction false} ItemsKeepInv(db: Db, items': map<Id, Item>)
    requires Inv(db) && forall i {:trigger ItemStep(db, items', i)} :: ItemStep(db, items', i)
    ensures Keeps(db, db.(items := items'))
  {
    var db' := db.(items := items');
    forall o ensures OfferSound(db', o) {
      assert OfferSound(db, o);
      if o in db.offers { assert ItemStep(db, items', db.offers[o].item); }
    }
    forall o, p ensures OffersApart(db'.offers, o, p) { assert OffersApart(db.offers, o, p); }
    forall k: Id ensures MatchSound(db', k) {
      assert MatchSound(db, k);
      if k < |db.matches| { assert ItemStep(db, items', db.matches[k].item); }
    }
    forall j: Id, k: Id ensures MatchesApart(db'.matches, j, k) { assert MatchesApart(db.matches, j, k); }
    forall i ensures ItemSound(db', i) {
      assert ItemSound(db, i) && ItemStep(db, items', i);
      if i !in db.items {
        forall k | 0 <= k < |db.matches| ensures Reserving(i)(db.matches[k]) == 0.0 { assert MatchSound(db, k); }
        SumZero(db.matches, Reserving(i));
      }
    }
    forall r ensures RequestSound(db', r) { assert RequestSound(db, r); }
    forall r ensures (BackedAt(db, r) ==> BackedAt(db', r)) && (ExactAt(db, r) ==> ExactAt(db', r)) { }
  }

  lemma {:induction false} StockOpKeepsInv(db: Db, op: Op)
    requires Inv(db) && Legal(db, op)
    requires op.Add? || op.Edit? || op.Remove? || op.Zero?
    ensures Keeps(db, After(db, op))
  {
    var items' := After(db, op).items;
    forall i ensures ItemStep(db, items', i) { assert ItemSound(db, i); }
    ItemsKeepInv(db, items');
    assert After(db, op) == db.(items := items');
  }

  lemma {:induction false} PurgeKeepsInv(db: Db, ends: map<Id, Closing>, now: Time)
    requires Inv(db)
    ensures Inv(PurgeOffers(db, ends, now).db)
  {
    var db' := PurgeOffers(db, ends, now).db;
    forall o ensures OfferSound(db', o) { assert OfferSound(db, o); }
    forall o, p ensures OffersApart(db'.offers, o, p) { assert OffersApart(db.offers, o, p); }
    forall k: Id ensures MatchSound(db', k) { assert MatchSound(db, k); }
    forall j: Id, k: Id ensures MatchesApart(db'.matches, j, k) { assert MatchesApart(db.matches, j, k); }
    forall i ensures ItemSound(db', i) { assert ItemSound(db, i); }
    forall r ensures RequestSound(db', r) {
      assert RequestSound(db, r);
      SubsetSize(OffersOf(db'.offers, r), OffersOf(db.offers, r));
    }
  }

  lemma {:induction false} SubsetSize(a: set<Id>, b: set<Id>)
    requires a <= b
    ensures |a| <= |b|
  {
    assert b == a + (b - a) && a !! (b - a);
  }

  // ---------------------------------------------------------- requester side

  lemma {:induction false} CreateKeepsInv(db: Db, r: Id, row: Request)
    requires Inv(db) && r !in db.requests
    requires row.status.Searching? && row.fulfilled == 0.0 && row.qty > 0.0 && row.attempts == 0
    ensures Keeps(db, WithRequest(db, r, row))
  {
    var db' := WithRequest(db, r, row);
    forall o ensures OfferSound(db', o) { assert OfferSound(db, o); }
    forall o, p ensures OffersApart(db'.offers, o, p) { assert OffersApart(db.offers, o, p); }
    forall k: Id ensures MatchSound(db', k) { assert MatchSound(db, k); }
    forall j: Id, k: Id ensures MatchesApart(db'.matches, j, k) { assert MatchesApart(db.matches, j, k); }
    forall i ensures ItemSound(db', i) { assert ItemSound(db, i); }
    assert OffersOf(db.offers, r) == {} by {
      forall o ensures o !in OffersOf(db.offers, r) { assert OfferSound(db, o); }
    }
    forall k | 0 <= k < |db.matches| ensures DeliveredTo(r)(db.matches[k]) == 0.0 { assert MatchSound(db, k); }
    SumZero(db.matches, DeliveredTo(r));
    forall x ensures RequestSound(db', x) && (ExactAt(db, x) ==> ExactAt(db', x)) { assert RequestSound(db, x); }
    forall x ensures BackedAt(db, x) ==> BackedAt(db', x) { }
  }

  lemma {:induction false} CloseOpenKeepsInv(db: Db, rs: set<Id>, to: RequestStatus)
    requires Inv(db) && (to.Cancelled? || to.Moderated?)
    ensures Keeps(db, CloseOpen(db, rs, to).db)
  {
    var db' := CloseOpen(db, rs, to).db;
    forall o ensures OfferStep(db, db', o) { assert OfferSound(db, o); }
    forall r ensures RequestStep(db, db', r) {
      if r in db.requests && db'.requests[r].status.Offering? {
        assert OpenOffers(db'.offers, r) == OpenOffers(db.offers, r);
      }
    }
    ClosingKeepsInv(db, db');
  }

  lemma {:induction false} RequesterOpKeepsInv(db: Db, op: Op)
    requires Inv(db) && Legal(db, op)
    requires op.Create? || op.CancelRequest? || op.Renew? || op.Continue? || op.CloseAll?
    ensures Keeps(db, After(db, op))
  {
    var db' := After(db, op);
    match op
    case Create(r, row, now) =>
      if row.qty > 0.0 { CreateKeepsInv(db, r, db'.requests[r]); }
    case CancelRequest(r, user) =>
      if r in db.requests && db.requests[r].requester == user {
        assert RequestSound(db, r);
        if db.requests[r].status.Matched? {
          var k := ActiveMatch(db.matches, r).value;
          assert MatchSound(db, k);
          CancelKeepsInv(db, k, ByRequester, false);
        } else if IsOpen(db.requests[r].status) {
          ClosingOne(db, r, db.requests[r].(status := Cancelled));
        }
      }
    case Renew(r, _, _, _) => if db' != db { MovingOne(db, r, db'.requests[r]); }
    case Continue(r, _, _, _) => if db' != db { MovingOne(db, r, db'.requests[r]); }
    case CloseAll(rs, to) => CloseOpenKeepsInv(db, rs, to);
  }

  // -------------------------------------------------------------- the theorem

  lemma {:induction false} AnswerOpKeepsInv(db: Db, op: Op)
    requires Inv(db) && (op.Timeout? || op.Decline? || op.Accept?)
    ensures Keeps(db, After(db, op))
  {
    match op
    case Timeout(o, now) =>
      if o in db.offers && db.offers[o].status.Offered? && db.offers[o].respondBy <= now {
        AnswerKeepsInv(db, o, TimedOut);
      }
    case Decline(o, helper, now) =>
      if DeclineOffer(db, o, helper, now).Done? { AnswerKeepsInv(db, o, Declined); }
    case Accept(o, helper, now, fractional) => AcceptKeepsInv(db, o, helper, now, fractional);
  }

  lemma {:induction false} MatchOpKeepsInv(db: Db, op: Op)
    requires Inv(db) && (op.Cancel? || op.Moderate? || op.Confirm? || op.AutoSettle?)
    ensures Keeps(db, After(db, op))
  {
    match op
    case Cancel(k, viewer, unsafe) =>
      if Lockable(db, k) {
        CancelKeepsInv(db, k, ByRequester, unsafe);
        CancelKeepsInv(db, k, ByHelper, unsafe);
      }
    case Moderate(k) => if Lockable(db, k) { CancelKeepsInv(db, k, ByModerator, false); }
    case Confirm(k, viewer, qty, fractional) => ConfirmKeepsInv(db, k, viewer, qty, fractional);
    case AutoSettle(k) => AutoFinalizeKeepsInv(db, k);
  }

  /**
   Every transaction keeps the invariant. All but the retention purge also keep offering requests
   backed by an open offer and the attempt count equal to the number of offers made.
   */
  lemma {:induction false} TransactionKeepsInv(db: Db, op: Op)
    requires Inv(db) && Legal(db, op)
    ensures Inv(After(db, op))
    ensures !op.Purge? ==> Keeps(db, After(db, op))
  {
    if op.Pass? {
      PassKeepsInv(db, op.input);
    } else if op.Timeout? || op.Decline? || op.Accept? {
      AnswerOpKeepsInv(db, op);
    } else if op.Cancel? || op.Moderate? || op.Confirm? || op.AutoSettle? {
      MatchOpKeepsInv(db, op);
    } else if op.Add? || op.Edit? || op.Remove? || op.Zero? {
      StockOpKeepsInv(db, op);
    } else if op.Purge? {
      PurgeKeepsInv(db, op.ends, op.now);
    } else {
      RequesterOpKeepsInv(db, op);
    }
  }
}
