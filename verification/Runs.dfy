/**
 Properties of whole runs of transactions: nobody is asked twice, attempts count offers, rounds are
 bounded by the number of helpers, and goods only move from stock to requests.
 */
module Runs {
  import opened Domain
  import opened Ranking
  import opened Transactions
  import opened Ledger
  import opened Invariants
  import opened Interleaving

  ghost predicate LegalRun(db: Db, ops: seq<Op>)
    decreases |ops|
  {
    ops == [] || (Legal(db, ops[0]) && LegalRun(After(db, ops[0]), ops[1..]))
  }

  ghost function Final(db: Db, ops: seq<Op>): Db
    requires LegalRun(db, ops)
    decreases |ops|
  {
    if ops == [] then db else Final(After(db, ops[0]), ops[1..])
  }

  predicate NoPurge(ops: seq<Op>) { forall op :: op in ops ==> !op.Purge? }

  const EMPTY := Db(map[], map[], [], map[])

  lemma {:induction false} EmptyIsSound()
    ensures Inv(EMPTY) && Backed(EMPTY) && AttemptsExact(EMPTY)
  {
  }

  /** The invariant of every run; purge-free runs also keep attempts exact and offering requests backed. */
  lemma {:induction false} RunKeepsInv(db: Db, ops: seq<Op>)
    requires Inv(db) && LegalRun(db, ops)
    ensures Inv(Final(db, ops))
    ensures NoPurge(ops) ==> Keeps(db, Final(db, ops))
    decreases |ops|
  {
    if ops != [] {
      TransactionKeepsInv(db, ops[0]);
      RunKeepsInv(After(db, ops[0]), ops[1..]);
      assert NoPurge(ops) ==> !ops[0].Purge? && NoPurge(ops[1..]);
    }
  }

  // ------------------------------------------------------------ nobody twice

  /** `op` makes an offer for request `r` to helper `h`. */
  ghost predicate Offers(db: Db, op: Op, r: Id, h: Id)
    requires Legal(db, op)
  {
    op.Pass? && op.input.newOffer in After(db, op).offers
    && After(db, op).offers[op.input.newOffer].request == r && After(db, op).offers[op.input.newOffer].helper == h
  }

  lemma {:induction false} OfferMeansNotAskedBefore(db: Db, op: Op, r: Id, h: Id)
    requires Inv(db) && Legal(db, op) && Offers(db, op, r, h)
    ensures !Asked(db.offers, r, h) && Asked(After(db, op).offers, r, h)
    ensures r in db.requests && r in After(db, op).requests
      && After(db, op).requests[r].attempts == db.requests[r].attempts + 1
  {
    var p := op.input;
    if p.request in db.requests && Matching(p.event) {
      var db1 := SweepOpen(db, p);
      PickNotAsked(db, p);
      assert PickFor(db1.requests[p.request], p) == PickFor(db.requests[p.request], p);
    }
    assert Asked(After(db, op).offers, r, h);
  }

  /** Whoever was asked stays recorded until a purge deletes the row. */
  lemma {:induction false} AskedPersists(db: Db, op: Op, r: Id, h: Id)
    requires Inv(db) && Legal(db, op) && Asked(db.offers, r, h)
    requires forall o :: o in Deletes(db, op) ==> db.offers[o].request != r || db.offers[o].helper != h
    ensures Asked(After(db, op).offers, r, h)
  {
    var o :| o in db.offers && db.offers[o].request == r && db.offers[o].helper == h;
    RowKept(db, op, o);
  }

  lemma {:induction false} RowKept(db: Db, op: Op, o: Id)
    requires Legal(db, op) && o in db.offers && o !in Deletes(db, op)
    ensures var offers' := After(db, op).offers;
      o in offers' && offers'[o].request == db.offers[o].request && offers'[o].helper == db.offers[o].helper
  {
    if op.Pass? {
      PassTouchesOwn(db, op.input, o);
    } else if op.Confirm? || op.AutoSettle? || op.Cancel? || op.Moderate? {
      assert After(db, op).offers == db.offers;
    }
  }

  /** No purge in the run deletes the record that `h` was asked for `r`. */
  ghost predicate RecordKept(db: Db, ops: seq<Op>, r: Id, h: Id)
    requires LegalRun(db, ops)
    decreases |ops|
  {
    ops != [] ==>
      && (forall o :: o in Deletes(db, ops[0]) ==> db.offers[o].request != r || db.offers[o].helper != h)
      && RecordKept(After(db, ops[0]), ops[1..], r, h)
  }

  ghost predicate OffersDuring(db: Db, ops: seq<Op>, r: Id, h: Id)
    requires LegalRun(db, ops)
    decreases |ops|
  {
    ops != [] && (Offers(db, ops[0], r, h) || OffersDuring(After(db, ops[0]), ops[1..], r, h))
  }

  /** Once asked, a helper is not asked again for that request, whatever the run does, unless the record is purged. */
  lemma {:induction false} NeverAskedAgain(db: Db, ops: seq<Op>, r: Id, h: Id)
    requires Inv(db) && LegalRun(db, ops) && Asked(db.offers, r, h) && RecordKept(db, ops, r, h)
    ensures !OffersDuring(db, ops, r, h) && Asked(Final(db, ops).offers, r, h)
    decreases |ops|
  {
    if ops != [] {
      TransactionKeepsInv(db, ops[0]);
      AskedPersists(db, ops[0], r, h);
      if Offers(db, ops[0], r, h) { OfferMeansNotAskedBefore(db, ops[0], r, h); }
      NeverAskedAgain(After(db, ops[0]), ops[1..], r, h);
    }
  }

  /** The purge is the exact boundary: once it deletes the records of `h`, a pass that finds `h` alone asks `h` again. */
  lemma {:induction false} PurgedHelperAskedAgain(db: Db, ends: map<Id, Closing>, at: Time, p: PassInput, h: Id)
    requires Inv(db) && at <= p.now && Asked(db.offers, p.request, h)
    requires forall o :: o in db.offers && db.offers[o].request == p.request && db.offers[o].helper == h ==>
      o in Purged(db, ends, at)
    requires p.request in db.requests && db.requests[p.request].status.Searching? && db.requests[p.request].expiresAt > p.now
    requires Matching(p.event) && p.open.None? && p.newOffer !in db.offers
    requires |p.shortlist| == 1 <= |p.jitters| && p.shortlist[0].helper == h && h != db.requests[p.request].requester
    requires p.shortlist[0].item in db.items && db.items[p.shortlist[0].item].owner == h
    requires Gives(p.shortlist[0], Remaining(db.requests[p.request]), p.fractional)
    ensures var db' := After(db, Purge(ends, at)); Legal(db', Pass(p)) && Offers(db', Pass(p), p.request, h)
  {
    var db' := After(db, Purge(ends, at));
    forall o ensures o !in OpenOffers(db'.offers, p.request) { assert OfferSound(db, o); }
    assert OpenOffers(db'.offers, p.request) == {};
    assert forall c :: c in p.shortlist ==> c == p.shortlist[0];
    assert Legal(db', Pass(p));
    WinnerIsBest(p.shortlist, p.jitters, Remaining(db'.requests[p.request]), p.fractional);
    assert SweepOpen(db', p) == db';
  }

  // ----------------------------------------------------------- bounded rounds

  ghost function HelpersOf(offers: map<Id, Offer>, os: set<Id>): set<Id>
    requires forall o :: o in os ==> o in offers
  {
    set o | o in os :: offers[o].helper
  }

  lemma {:induction false} DistinctHelpers(offers: map<Id, Offer>, os: set<Id>)
    requires forall o :: o in os ==> o in offers
    requires forall o, p :: o in os && p in os && o != p ==> offers[o].helper != offers[p].helper
    ensures |HelpersOf(offers, os)| == |os|
    decreases |os|
  {
    if os != {} {
      var o :| o in os;
      var rest := os - {o};
      DistinctHelpers(offers, rest);
      assert HelpersOf(offers, os) == HelpersOf(offers, rest) + {offers[o].helper};
      assert offers[o].helper !in HelpersOf(offers, rest);
    }
  }

  /** Before any purge a request has been offered at most once per helper, so rounds are bounded by the helpers there are. */
  lemma {:induction false} RoundsBounded(db: Db, r: Id, helpers: set<Id>)
    requires Inv(db) && AttemptsExact(db) && r in db.requests
    requires forall o :: o in OffersOf(db.offers, r) ==> db.offers[o].helper in helpers
    ensures db.requests[r].attempts == |HelpersOf(db.offers, OffersOf(db.offers, r))| <= |helpers|
  {
    var os := OffersOf(db.offers, r);
    forall o, p | o in os && p in os && o != p ensures db.offers[o].helper != db.offers[p].helper {
      assert OffersApart(db.offers, o, p);
    }
    DistinctHelpers(db.offers, os);
    assert ExactAt(db, r);
    SubsetSize(HelpersOf(db.offers, os), helpers);
  }

  // ------------------------------------------------------------- conservation

  /** Stock on hand plus everything already delivered from it. */
  ghost function Supply(db: Db, i: Id): real
    requires i in db.items
  {
    db.items[i].onHand + Sum(db.matches, DeliveredFrom(i))
  }

  predicate EditsStock(op: Op) { op.Add? || op.Edit? || op.Remove? || op.Zero? }

  lemma {:induction false} ClosingMatchSupply(db: Db, k: Id, m': Match, to: RequestStatus, i: Id)
    requires Lockable(db, k) && Delivered(db.matches[k]) == 0.0 && m'.item == db.matches[k].item && i in db.items
    ensures i in ClosingMatch(db, k, m', to).items && Supply(ClosingMatch(db, k, m', to), i) == Supply(db, i)
  {
    SumUpdate(db.matches, k, m', DeliveredFrom(i));
  }

  lemma {:induction false} SettleSupply(db: Db, k: Id, m: Match, disputed: bool, i: Id)
    requires Inv(db) && Lockable(db, k) && db.matches[k].status.Active? && i in db.items
    requires m == db.matches[k].(requesterConfirmed := m.requesterConfirmed, helperConfirmed := m.helperConfirmed)
    ensures var out := Settle(db, k, m, FinalQty(m), disputed);
      out.Done? ==> i in out.db.items && Supply(out.db, i) == Supply(db, i)
  {
    assert MatchSound(db, k);
    var out := Settle(db, k, m, FinalQty(m), disputed);
    if out.Done? {
      var to := out.db.requests[m.request].status;
      ClosingMatchSupply(db, k, out.db.matches[k], to, i);
      assert out.db == ClosingMatch(db, k, out.db.matches[k], to);
    }
  }

  lemma {:induction false} CancelSupply(db: Db, k: Id, who: Canceller, unsafe: bool, i: Id)
    requires Inv(db) && Lockable(db, k) && i in db.items
    ensures var out := CancelLocked(db, k, who, unsafe);
      out.Done? ==> i in out.db.items && Supply(out.db, i) == Supply(db, i)
  {
    assert MatchSound(db, k);
    var out := CancelLocked(db, k, who, unsafe);
    if out.Done? {
      var to := out.db.requests[db.matches[k].request].status;
      ClosingMatchSupply(db, k, out.db.matches[k], to, i);
      assert out.db == ClosingMatch(db, k, out.db.matches[k], to);
    }
  }

  lemma {:induction false} ConfirmSupply(db: Db, k: Id, viewer: Id, qty: real, fractional: bool, i: Id)
    requires Inv(db) && i in db.items
    ensures var out := ConfirmCompletion(db, k, viewer, qty, fractional);
      out.Done? ==> i in out.db.items && Supply(out.db, i) == Supply(db, i)
  {
    var out := ConfirmCompletion(db, k, viewer, qty, fractional);
    if out.Done? && out.db != db {
      var m := db.matches[k];
      var isRequester := m.requester == viewer;
      var m' := if isRequester then m.(requesterConfirmed := Some(qty)) else m.(helperConfirmed := Some(qty));
      var other := if isRequester then m.helperConfirmed else m.requesterConfirmed;
      if other.None? {
        SumUpdate(db.matches, k, m', DeliveredFrom(i));
      } else {
        assert FinalQty(m') == Min(qty, other.value);
        SettleSupply(db, k, m', qty != other.value, i);
      }
    }
  }

  /** Goods leave stock only into deliveries: supply is constant under every transaction that is not a stock edit. */
  lemma {:induction false} SupplyConserved(db: Db, op: Op, i: Id)
    requires Inv(db) && Legal(db, op) && i in db.items && !EditsStock(op)
    ensures i in After(db, op).items && Supply(After(db, op), i) == Supply(db, i)
  {
    if op.Cancel? && Lockable(db, op.matchId) {
      CancelSupply(db, op.matchId, ByRequester, op.unsafe, i);
      CancelSupply(db, op.matchId, ByHelper, op.unsafe, i);
    } else if op.Moderate? && Lockable(db, op.matchId) {
      CancelSupply(db, op.matchId, ByModerator, false, i);
    } else if op.Confirm? {
      ConfirmSupply(db, op.matchId, op.viewer, op.qty, op.fractional, i);
    } else if op.AutoSettle? && Lockable(db, op.matchId) && HalfConfirmed(db.matches[op.matchId]) {
      SettleSupply(db, op.matchId, db.matches[op.matchId], false, i);
    } else if op.CancelRequest? && ActiveMatch(db.matches, op.request).Some? {
      var k := ActiveMatch(db.matches, op.request).value;
      if Lockable(db, k) { CancelSupply(db, k, ByRequester, false, i); }
    } else if op.Accept? {
      AcceptSupply(db, op.offer, op.helper, op.now, op.fractional, i);
    }
  }

  lemma {:induction false} AcceptSupply(db: Db, o: Id, helper: Id, now: Time, fractional: bool, i: Id)
    requires i in db.items
    ensures var out := AcceptOffer(db, o, helper, now, fractional);
      out.Done? ==> i in out.db.items && Supply(out.db, i) == Supply(db, i)
  {
    var out := AcceptOffer(db, o, helper, now, fractional);
    if out.Done? && out.db.matches != db.matches {
      var qty := AcceptShape(db, o, helper, now, fractional);
      AcceptedSupply(db, o, qty, i);
    }
  }

  /** An acceptance that makes a match reserves some quantity, and nothing else. */
  lemma {:induction false} AcceptShape(db: Db, o: Id, helper: Id, now: Time, fractional: bool) returns (qty: real)
    requires AcceptOffer(db, o, helper, now, fractional).Done?
    requires AcceptOffer(db, o, helper, now, fractional).db.matches != db.matches
    ensures o in db.offers && db.offers[o].request in db.requests && db.offers[o].item in db.items
    ensures AcceptOffer(db, o, helper, now, fractional).db == Accepting(db, o, qty)
  {
    var offer := db.offers[o];
    var q, item := db.requests[offer.request], db.items[offer.item];
    qty := ReserveQty(offer.qty, Remaining(q), if item.active then item.onHand - item.reserved else 0.0, fractional);
  }

  lemma {:induction false} AcceptedSupply(db: Db, o: Id, qty: real, i: Id)
    requires o in db.offers && db.offers[o].request in db.requests && db.offers[o].item in db.items && i in db.items
    ensures i in Accepting(db, o, qty).items && Supply(Accepting(db, o, qty), i) == Supply(db, i)
  {
    var db' := Accepting(db, o, qty);
    SumAppend(db.matches, db'.matches[|db.matches|], DeliveredFrom(i));
    assert db'.matches == db.matches + [db'.matches[|db.matches|]];
  }

  predicate NoStockEdits(ops: seq<Op>) { forall op :: op in ops ==> !EditsStock(op) }

  /** Over any run without stock edits, what left an item's stock is what its settled matches delivered. */
  lemma {:induction false} RunConservesSupply(db: Db, ops: seq<Op>, i: Id)
    requires Inv(db) && LegalRun(db, ops) && i in db.items && NoStockEdits(ops)
    ensures i in Final(db, ops).items && Supply(Final(db, ops), i) == Supply(db, i)
    decreases |ops|
  {
    if ops != [] {
      assert !EditsStock(ops[0]) && NoStockEdits(ops[1..]);
      SupplyConserved(db, ops[0], i);
      TransactionKeepsInv(db, ops[0]);
      RunConservesSupply(After(db, ops[0]), ops[1..], i);
    }
  }
}
