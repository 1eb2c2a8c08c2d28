/**
 Requests, matches and stock told row by row: what each transaction makes of one row, who may act on it, what a request
 is owed, which states are final, and that the order of the two confirmations does not matter.
 */
module RequestLife {
  import opened Domain
  import opened Ranking
  import opened Transactions
  import opened Ledger
  import opened Invariants
  import opened Interleaving
  import opened Runs
  import opened Expiry
  import opened Eligibility
  import opened OfferLife
  import Wakeups

  // ------------------------------------------------------- matches

  /** The quantity `viewer` may confirm on an active match. */
  predicate Confirmable(m: Match, viewer: Id, qty: real, fractional: bool) {
    && m.status.Active? && 0.0 <= qty <= m.reserved && (fractional || IsWhole(qty))
    && (viewer == m.requester || viewer == m.helper)
    && (if viewer == m.requester then m.requesterConfirmed.None? else m.helperConfirmed.None?)
  }

  /** The match with the quantity `viewer` confirms. */
  function Recorded(m: Match, viewer: Id, qty: real): Match {
    if viewer == m.requester then m.(requesterConfirmed := Some(qty)) else m.(helperConfirmed := Some(qty))
  }

  function Smaller(a: real, b: real): real { if b < a then b else a }

  /** What a transaction settles match `m` with: both quantities once the second is confirmed, or one after the wait. */
  function Settles(m: Match, k: Id, op: Op): Option<(Match, real)> {
    match op
    case Confirm(j, viewer, qty, fractional) =>
      if j != k || !Confirmable(m, viewer, qty, fractional) then None
      else if viewer == m.requester && m.helperConfirmed.Some? then
        Some((Recorded(m, viewer, qty), Smaller(qty, m.helperConfirmed.value)))
      else if viewer == m.helper && m.requesterConfirmed.Some? then
        Some((Recorded(m, viewer, qty), Smaller(qty, m.requesterConfirmed.value)))
      else None
    case AutoSettle(j) =>
      if j != k || !m.status.Active? then None
      else
        (match (m.requesterConfirmed, m.helperConfirmed)
         case (Some(a), None) => Some((m, a))
         case (None, Some(b)) => Some((m, b))
         case _ => None)
    case _ => None
  }

  /** Who ends match `k` without an exchange, and the status that records it. */
  function Cancels(m: Match, k: Id, op: Op): Option<(Canceller, MatchStatus)> {
    if !m.status.Active? then None
    else
      match op
      case Cancel(j, viewer, unsafe) =>
        if j != k then None
        else if viewer == m.requester then Some((ByRequester, if unsafe then CancelledUnsafe else CancelledByRequester))
        else if viewer == m.helper then Some((ByHelper, if unsafe then CancelledUnsafe else CancelledByHelper))
        else None
      case Moderate(j) => if j == k then Some((ByModerator, CancelledModeration)) else None
      case CancelRequest(r, user) =>
        if r == m.request && user == m.requester then Some((ByRequester, CancelledByRequester)) else None
      case _ => None
  }

  /** The status of a settled match, `credited` being what its request has received with it. */
  function SettledStatus(m: Match, op: Op, credited: real, needed: real): MatchStatus {
    if op.Confirm? && m.requesterConfirmed != m.helperConfirmed then DisputedQuantities
    else if credited < needed then PartiallyCompleted
    else Completed
  }

  /** Match `k` after a transaction. */
  function MatchBecomes(db: Db, op: Op, k: Id): Match
    requires k < |db.matches| && db.matches[k].request in db.requests
  {
    var m, q := db.matches[k], db.requests[db.matches[k].request];
    match (Settles(m, k, op), Cancels(m, k, op))
    case (Some(s), _) => s.0.(status := SettledStatus(s.0, op, q.fulfilled + s.1, q.qty), applied := true)
    case (None, Some(c)) => m.(status := c.1, applied := true)
    case (None, None) =>
      if op.Confirm? && op.matchId == k && Confirmable(m, op.viewer, op.qty, op.fractional) then Recorded(m, op.viewer, op.qty)
      else m
  }

  ghost predicate MatchFollows(db: Db, op: Op, k: Id)
    requires Legal(db, op)
  {
    k < |db.matches| ==>
      && db.matches[k].request in db.requests && k < |After(db, op).matches|
      && After(db, op).matches[k] == MatchBecomes(db, op, k)
  }

  lemma {:induction false} ConfirmFollows(db: Db, op: Op, k: Id)
    requires Inv(db) && op.Confirm?
    ensures MatchFollows(db, op, k)
  {
    assert MatchSound(db, k) && MatchSound(db, op.matchId);
    if op.matchId < |db.matches| { ConfirmedExactly(db, op.matchId, op.viewer, op.qty, op.fractional); }
  }

  /** What a confirmation does to the tables, by the case it falls into. */
  lemma {:induction false} ConfirmedExactly(db: Db, k: Id, viewer: Id, qty: real, fractional: bool)
    requires Inv(db) && k < |db.matches|
    ensures var m, op, out := db.matches[k], Op.Confirm(k, viewer, qty, fractional), ConfirmCompletion(db, k, viewer, qty, fractional);
      && Lockable(db, k)
      && (match Settles(m, k, op)
          case Some(s) => out == Settle(db, k, s.0, s.1, s.0.requesterConfirmed != s.0.helperConfirmed) && out.Done?
                          && s.1 == FinalQty(s.0)
          case None =>
            if Confirmable(m, viewer, qty, fractional)
            then out == Done(db.(matches := db.matches[k := Recorded(m, viewer, qty)]), [Finalize(k)])
            else Committed(db, out) == db && (out.Done? ==> out.after == []))
  {
    assert MatchSound(db, k);
    var m, op := db.matches[k], Op.Confirm(k, viewer, qty, fractional);
    if Settles(m, k, op).Some? {
      var s := Settles(m, k, op).value;
      SettleKeepsInv(db, k, s.0, s.0.requesterConfirmed != s.0.helperConfirmed);
    }
  }

  lemma {:induction false} AutoSettledExactly(db: Db, k: Id)
    requires Inv(db) && k < |db.matches|
    ensures var m, out := db.matches[k], AutoFinalize(db, k);
      && Lockable(db, k)
      && match Settles(m, k, AutoSettle(k))
         case Some(s) => out == Settle(db, k, s.0, s.1, false) && out.Done? && s.1 == FinalQty(s.0)
         case None => out == Done(db, [])
  {
    assert MatchSound(db, k);
    if Settles(db.matches[k], k, AutoSettle(k)).Some? { SettleKeepsInv(db, k, db.matches[k], false); }
  }

  lemma {:induction false} AutoSettleFollows(db: Db, op: Op, k: Id)
    requires Inv(db) && op.AutoSettle?
    ensures MatchFollows(db, op, k)
  {
    assert MatchSound(db, k);
    if op.matchId < |db.matches| { AutoSettledExactly(db, op.matchId); }
  }

  lemma {:induction false} CancelFollows(db: Db, op: Op, k: Id)
    requires Inv(db) && (op.Cancel? || op.Moderate? || op.CancelRequest?)
    ensures MatchFollows(db, op, k)
  {
    assert MatchSound(db, k);
    if op.CancelRequest? { OwnCancelFollows(db, op.request, op.user, k); } else { CalledOffExactly(db, op); }
  }

  /** Cancelling a matched request cancels its one active match. */
  lemma {:induction false} OwnCancelFollows(db: Db, r: Id, user: Id, k: Id)
    requires Inv(db)
    ensures MatchFollows(db, CancelRequest(r, user), k)
  {
    assert MatchSound(db, k) && RequestSound(db, r);
    if r in db.requests && db.requests[r].status.Matched? {
      var j := ActiveMatch(db.matches, r).value;
      assert MatchSound(db, j) && MatchesApart(db.matches, j, k);
      CancelKeepsInv(db, j, ByRequester, false);
    }
  }

  lemma {:induction false} OthersKeepMatches(db: Db, op: Op, k: Id)
    requires Inv(db) && Legal(db, op) && k < |db.matches|
    requires !op.Confirm? && !op.AutoSettle? && !op.Cancel? && !op.Moderate? && !op.CancelRequest?
    ensures k < |After(db, op).matches| && After(db, op).matches[k] == db.matches[k]
  {
    if op.Pass? { PassKeepsRest(db, op.input); }
  }

  /** Every transaction makes of every match what its row prescribes. */
  lemma {:induction false} MatchRowExactly(db: Db, op: Op, k: Id)
    requires Inv(db) && Legal(db, op)
    ensures MatchFollows(db, op, k)
  {
    assert MatchSound(db, k);
    if op.Confirm? { ConfirmFollows(db, op, k); }
    else if op.AutoSettle? { AutoSettleFollows(db, op, k); }
    else if op.Cancel? || op.Moderate? || op.CancelRequest? { CancelFollows(db, op, k); }
    else if k < |db.matches| { OthersKeepMatches(db, op, k); }
  }

  // ------------------------------------------------------- requests

  /** The request of a pass after it. */
  ghost function PassMakes(db: Db, p: PassInput): Request
    requires Legal(db, Pass(p)) && p.request in db.requests
  {
    var q := db.requests[p.request];
    if !q.status.Searching? && !q.status.Offering? then q
    else if q.expiresAt <= p.now then
      if exists o :: o in db.offers && db.offers[o].request == p.request then q.(status := Expired)
      else if q.status.Searching? then q.(status := NoMatch)
      else q
    else if !Searches(db, p) || Wakeups.WinnerGone(db, p) then q
    else if SomeoneGives(p, q) then q.(status := Offering, attempts := q.attempts + 1)
    else
      var max := p.event.value.maxRadius;
      q.(status := Searching, radius := if q.radius < max then MinInt(2 * q.radius, max) else q.radius)
  }

  /** The request of an open offer after an answer or a timeout that comes through. */
  ghost function AnswerMakes(db: Db, op: Op, q: Request): Request
    requires op.Timeout? || op.Accept? || op.Decline?
  {
    match op
    case Timeout(o, now) =>
      if o in db.offers && db.offers[o].status.Offered? && db.offers[o].respondBy <= now then q.(status := Searching) else q
    case Decline(o, helper, now) => if Answerable(db, o, helper, now) then q.(status := Searching) else q
    case Accept(o, helper, now, fractional) =>
      if !Answerable(db, o, helper, now) then q
      else if db.offers[o].item in db.items && exists x :: Reservable(db.offers[o], q, db.items[db.offers[o].item], x, fractional)
      then q.(status := Matched)
      else q.(status := Searching)
  }

  /** Where a call-off sends the request. */
  function RouteOf(who: Canceller): RequestStatus {
    match who case ByRequester => Cancelled case ByHelper => Searching case ByModerator => Moderated
  }

  /** A request after its match has been settled or called off. */
  function MatchMakes(m: Match, k: Id, op: Op, q: Request): Request {
    match (Settles(m, k, op), Cancels(m, k, op))
    case (Some(s), _) =>
      var credited := q.fulfilled + s.1;
      q.(fulfilled := credited,
         status := if credited >= q.qty then Fulfilled else if credited > 0.0 then PartiallyFulfilled else Searching)
    case (None, Some(c)) =>
      q.(status := RouteOf(c.0))
    case (None, None) => q
  }

  function RequestUnder(db: Db, k: Id, op: Op, r: Id, q: Request): Request {
    if k < |db.matches| && db.matches[k].request == r then MatchMakes(db.matches[k], k, op, q) else q
  }

  /** A request after something its owner does, or a closing of a set it is in. */
  function OwnerMakes(q: Request, r: Id, op: Op): Request {
    match op
    case CancelRequest(x, user) =>
      if x == r && user == q.requester && q.status in {Searching, Offering, Matched} then q.(status := Cancelled) else q
    case CloseAll(rs, to) => if r in rs && q.status in {Searching, Offering} then q.(status := to) else q
    case Renew(x, user, now, minutes) =>
      if x == r && user == q.requester && q.status in {Expired, NoMatch, Cancelled}
      then q.(status := Searching, expiresAt := now + minutes * 60_000, radius := 400) else q
    case Continue(x, user, search, now) =>
      if x != r || user != q.requester || !q.status.PartiallyFulfilled? then q
      else if !search then q.(status := if q.fulfilled > 0.0 then Fulfilled else Cancelled)
      else if q.fulfilled < q.qty then q.(status := Searching, expiresAt := now + 900_000, radius := 400)
      else q
    case _ => q
  }

  /** Request `r` after a transaction. */
  ghost function RequestBecomes(db: Db, op: Op, r: Id): Request
    requires Legal(db, op) && r in db.requests
  {
    var q := db.requests[r];
    match op
    case Pass(p) => if p.request == r then PassMakes(db, p) else q
    case Timeout(o, _) => if o in db.offers && db.offers[o].request == r then AnswerMakes(db, op, q) else q
    case Accept(o, _, _, _) => if o in db.offers && db.offers[o].request == r then AnswerMakes(db, op, q) else q
    case Decline(o, _, _) => if o in db.offers && db.offers[o].request == r then AnswerMakes(db, op, q) else q
    case Cancel(k, _, _) => RequestUnder(db, k, op, r, q)
    case Moderate(k) => RequestUnder(db, k, op, r, q)
    case Confirm(k, _, _, _) => RequestUnder(db, k, op, r, q)
    case AutoSettle(k) => RequestUnder(db, k, op, r, q)
    case _ => OwnerMakes(q, r, op)
  }

  ghost predicate RequestFollows(db: Db, op: Op, r: Id)
    requires Legal(db, op)
  {
    r in db.requests ==> r in After(db, op).requests && After(db, op).requests[r] == RequestBecomes(db, op, r)
  }

  lemma {:induction false} PassFollows(db: Db, p: PassInput)
    requires Inv(db) && Legal(db, Pass(p)) && p.request in db.requests
    ensures RequestFollows(db, Pass(p), p.request)
  {
    var q := db.requests[p.request];
    if IsOpen(q.status) && q.expiresAt <= p.now {
      ExpiryCloses(db, p);
      if o :| o in db.offers && db.offers[o].request == p.request { assert o in OffersOf(db.offers, p.request); }
    } else if !Searches(db, p) {
      PassIdles(db, p);
    } else {
      Wakeups.PassThrowsExactly(db, p);
      PicksExactly(q, p);
      assert PickFor(SweepOpen(db, p).requests[p.request], p) == PickFor(q, p);
    }
  }

  lemma {:induction false} AnswerFollows(db: Db, op: Op, r: Id)
    requires Inv(db) && (op.Timeout? || op.Accept? || op.Decline?)
    ensures RequestFollows(db, op, r)
  {
    assert OfferSound(db, op.offer);
    match op
    case Timeout(o, now) => TimedOutExactly(db, o, now);
    case Accept(o, helper, now, fractional) => AcceptedExactly(db, o, helper, now, fractional);
    case Decline(o, helper, now) => DeclinedExactly(db, o, helper, now);
    case _ =>
  }

  lemma {:induction false} SettlementFollows(db: Db, op: Op, r: Id)
    requires Inv(db) && (op.Confirm? || op.AutoSettle?)
    ensures RequestFollows(db, op, r)
  {
    var k := op.matchId;
    assert MatchSound(db, k);
    if k < |db.matches| {
      if op.Confirm? { ConfirmedExactly(db, k, op.viewer, op.qty, op.fractional); } else { AutoSettledExactly(db, k); }
    }
  }

  lemma {:induction false} CallOffFollows(db: Db, op: Op, r: Id)
    requires Inv(db) && (op.Cancel? || op.Moderate?)
    ensures RequestFollows(db, op, r)
  {
    CalledOffExactly(db, op);
  }

  /** What a cancel by a participant or a moderator does to the tables. */
  lemma {:induction false} CalledOffExactly(db: Db, op: Op)
    requires Inv(db) && (op.Cancel? || op.Moderate?)
    ensures op.matchId < |db.matches| ==> Lockable(db, op.matchId)
    ensures Run(db, op).Done? <==> op.matchId < |db.matches| && Cancels(db.matches[op.matchId], op.matchId, op).Some?
    ensures Run(db, op).Done? ==>
      var k, m := op.matchId, db.matches[op.matchId];
      var c, q, item := Cancels(m, k, op).value, db.requests[m.request], db.items[m.item];
      Run(db, op) == Done(
        Db(db.requests[m.request := q.(status := RouteOf(c.0))],
           db.offers, db.matches[k := m.(status := c.1, applied := true)],
           db.items[m.item := item.(reserved := item.reserved - m.reserved)]),
        if c.0.ByHelper? then [Rematch(m.request, 0)] else [])
  {
    var k := op.matchId;
    assert MatchSound(db, k);
  }

  lemma {:induction false} OwnerFollows(db: Db, op: Op, r: Id)
    requires Inv(db) && Legal(db, op)
    requires !op.Pass? && !op.Timeout? && !op.Accept? && !op.Decline?
    requires !op.Cancel? && !op.Moderate? && !op.Confirm? && !op.AutoSettle?
    ensures RequestFollows(db, op, r)
  {
    if op.CancelRequest? && op.request in db.requests && db.requests[op.request].status.Matched? {
      assert RequestSound(db, op.request);
      var k := ActiveMatch(db.matches, op.request).value;
      assert MatchSound(db, k);
      CancelKeepsInv(db, k, ByRequester, false);
    }
  }

  /** Every transaction makes of every request what its row, its offer and its match prescribe. */
  lemma {:induction false} RequestRowExactly(db: Db, op: Op, r: Id)
    requires Inv(db) && Legal(db, op)
    ensures RequestFollows(db, op, r)
  {
    if op.Pass? {
      PassKeepsRest(db, op.input);
      if r == op.input.request && r in db.requests { PassFollows(db, op.input); }
    } else if op.Timeout? || op.Accept? || op.Decline? {
      AnswerFollows(db, op, r);
    } else if op.Cancel? || op.Moderate? {
      CallOffFollows(db, op, r);
    } else if op.Confirm? || op.AutoSettle? {
      SettlementFollows(db, op, r);
    } else {
      OwnerFollows(db, op, r);
    }
  }

  // ------------------------------------------------------- stock

  /** An item after the match on it has been settled or called off. */
  function StockAfter(m: Match, k: Id, op: Op, item: Item): Item {
    match (Settles(m, k, op), Cancels(m, k, op))
    case (Some(s), _) => item.(onHand := item.onHand - s.1, reserved := item.reserved - m.reserved)
    case (None, Some(_)) => item.(reserved := item.reserved - m.reserved)
    case (None, None) => item
  }

  function StockUnder(db: Db, k: Id, op: Op, i: Id, item: Item): Item {
    if k < |db.matches| && db.matches[k].item == i then StockAfter(db.matches[k], k, op, item) else item
  }

  /** The acceptance reserves the largest quantity there is, if there is any. */
  ghost predicate Reserves(db: Db, op: Op, item: Item, item': Item)
    requires op.Accept? && op.offer in db.offers && db.offers[op.offer].request in db.requests
  {
    var f, q := db.offers[op.offer], db.requests[db.offers[op.offer].request];
    if Answerable(db, op.offer, op.helper, op.now) && exists x :: Reservable(f, q, item, x, op.fractional) then
      exists x :: Reservable(f, q, item, x, op.fractional) && item' == item.(reserved := item.reserved + x)
                  && forall y :: Reservable(f, q, item, y, op.fractional) ==> y <= x
    else item' == item
  }

  /** Item `i` before and after a transaction. */
  ghost predicate ItemFollows(db: Db, op: Op, i: Id)
    requires Legal(db, op)
  {
    i in db.items ==>
      var item, items' := db.items[i], After(db, op).items;
      if op.Remove? && op.item == i && op.owner == item.owner then
        if (exists o :: o in db.offers && db.offers[o].item == i) || (exists k :: 0 <= k < |db.matches| && db.matches[k].item == i)
        then i in items' && items'[i] == item.(active := false)
        else i !in items'
      else
        i in items' &&
        match op
        case Accept(o, _, _, _) =>
          if o in db.offers && db.offers[o].item == i
          then db.offers[o].request in db.requests && Reserves(db, op, item, items'[i]) else items'[i] == item
        case Cancel(k, _, _) => items'[i] == StockUnder(db, k, op, i, item)
        case Moderate(k) => items'[i] == StockUnder(db, k, op, i, item)
        case Confirm(k, _, _, _) => items'[i] == StockUnder(db, k, op, i, item)
        case AutoSettle(k) => items'[i] == StockUnder(db, k, op, i, item)
        case CancelRequest(r, _) =>
          (match ActiveMatch(db.matches, r)
           case Some(k) => items'[i] == StockUnder(db, k, op, i, item)
           case None => items'[i] == item)
        case Edit(x, owner, total, active) =>
          items'[i] ==
            if x != i || owner != item.owner || (total.Some? && total.value < item.reserved) then item
            else item.(onHand := if total.Some? then total.value else item.onHand,
                       active := if active.Some? then active.value else item.active)
        case Zero(owner) => items'[i] == if owner == item.owner then item.(onHand := item.reserved, active := false) else item
        case _ => items'[i] == item
  }

  lemma {:induction false} AcceptStock(db: Db, op: Op, i: Id)
    requires Inv(db) && op.Accept?
    ensures ItemFollows(db, op, i)
  {
    assert OfferSound(db, op.offer);
    AcceptedExactly(db, op.offer, op.helper, op.now, op.fractional);
  }

  lemma {:induction false} SettlementStock(db: Db, op: Op, i: Id)
    requires Inv(db) && (op.Confirm? || op.AutoSettle?)
    ensures ItemFollows(db, op, i)
  {
    var k := op.matchId;
    assert MatchSound(db, k);
    if k < |db.matches| {
      if op.Confirm? { ConfirmedExactly(db, k, op.viewer, op.qty, op.fractional); } else { AutoSettledExactly(db, k); }
    }
  }

  lemma {:induction false} CallOffStock(db: Db, op: Op, i: Id)
    requires Inv(db) && (op.Cancel? || op.Moderate?)
    ensures ItemFollows(db, op, i)
  {
    CalledOffExactly(db, op);
  }

  lemma {:induction false} OwnCancelStock(db: Db, r: Id, user: Id, i: Id)
    requires Inv(db)
    ensures ItemFollows(db, CancelRequest(r, user), i)
  {
    var k := ActiveMatch(db.matches, r);
    if k.Some? {
      assert MatchSound(db, k.value);
      CancelKeepsInv(db, k.value, ByRequester, false);
    }
  }

  /** Every transaction makes of every item what its row and the match on it prescribe. */
  lemma {:induction false} ItemRowExactly(db: Db, op: Op, i: Id)
    requires Inv(db) && Legal(db, op)
    ensures ItemFollows(db, op, i)
  {
    if op.Pass? { PassKeepsRest(db, op.input); }
    else if op.Accept? { AcceptStock(db, op, i); }
    else if op.Cancel? || op.Moderate? { CallOffStock(db, op, i); }
    else if op.Confirm? || op.AutoSettle? { SettlementStock(db, op, i); }
    else if op.CancelRequest? { OwnCancelStock(db, op.request, op.user, i); }
  }

  /** Only an addition brings a new item: of a positive quantity, active, with nothing reserved. */
  lemma {:induction false} NewItemExactly(db: Db, op: Op, i: Id)
    requires Inv(db) && Legal(db, op) && i !in db.items
    ensures i in After(db, op).items <==> op.Add? && op.item == i && op.itemRow.onHand > 0.0
    ensures i in After(db, op).items ==>
      After(db, op).items[i] ==
        Item(op.itemRow.owner, op.itemRow.event, op.itemRow.category, op.itemRow.onHand, 0.0, true, op.itemRow.expiresAt)
  {
    if op.Pass? { PassKeepsRest(db, op.input); }
    else if op.Accept? { assert OfferSound(db, op.offer); }
    else if op.Cancel? || op.Moderate? || op.Confirm? || op.AutoSettle? { assert MatchSound(db, op.matchId); }
    else if op.CancelRequest? && ActiveMatch(db.matches, op.request).Some? {
      assert MatchSound(db, ActiveMatch(db.matches, op.request).value);
    }
  }

  // ------------------------------------------------------- who may act

  /** The acting user is the one the row names. */
  predicate Entitled(db: Db, op: Op) {
    match op
    case Accept(o, helper, _, _) => o in db.offers && db.offers[o].helper == helper
    case Decline(o, helper, _) => o in db.offers && db.offers[o].helper == helper
    case Cancel(k, viewer, _) => k < |db.matches| && (db.matches[k].requester == viewer || db.matches[k].helper == viewer)
    case Confirm(k, viewer, _, _) => k < |db.matches| && (db.matches[k].requester == viewer || db.matches[k].helper == viewer)
    case CancelRequest(r, user) => r in db.requests && db.requests[r].requester == user
    case Renew(r, user, _, _) => r in db.requests && db.requests[r].requester == user
    case Continue(r, user, _, _) => r in db.requests && db.requests[r].requester == user
    case Edit(i, owner, _, _) => i in db.items && db.items[i].owner == owner
    case Remove(i, owner) => i in db.items && db.items[i].owner == owner
    case _ => true
  }

  /** Nobody acts on another's offer, match, request or stock: the answer is the one for a row that does not exist. */
  lemma {:induction false} StrangersAreRefused(db: Db, op: Op)
    requires Legal(db, op) && !Entitled(db, op)
    ensures Run(db, op) == Thrown(NotFound)
  {
  }

  // ------------------------------------------------------- final states

  predicate IsFinal(s: RequestStatus) { s.Fulfilled? || s.Disputed? || s.Moderated? }

  /** A request in a final state and a closed match do not change in one step; a closed request only by its owner's renewal. */
  lemma {:induction false} FinalStep(db: Db, op: Op, r: Id)
    requires Inv(db) && Legal(db, op) && r in db.requests
    ensures r in After(db, op).requests
    ensures IsFinal(db.requests[r].status) ==> After(db, op).requests[r] == db.requests[r]
    ensures db.requests[r].status in {Cancelled, Expired, NoMatch} ==>
      (After(db, op).requests[r] != db.requests[r] <==> op.Renew? && op.request == r && op.user == db.requests[r].requester)
  {
    RequestRowExactly(db, op, r);
    if op.Timeout? || op.Accept? || op.Decline? { assert OfferSound(db, op.offer); }
    if op.Cancel? || op.Moderate? || op.Confirm? || op.AutoSettle? { assert MatchSound(db, op.matchId); }
  }

  /** Over any run a request in a final state keeps its row. */
  lemma {:induction false} FinalForever(db: Db, ops: seq<Op>, r: Id)
    requires Inv(db) && LegalRun(db, ops) && r in db.requests && IsFinal(db.requests[r].status)
    ensures r in Final(db, ops).requests && Final(db, ops).requests[r] == db.requests[r]
    decreases |ops|
  {
    if ops != [] {
      FinalStep(db, ops[0], r);
      TransactionKeepsInv(db, ops[0]);
      FinalForever(After(db, ops[0]), ops[1..], r);
    }
  }

  /** Over any run a match that is no longer active keeps its row. */
  lemma {:induction false} ClosedMatchForever(db: Db, ops: seq<Op>, k: Id)
    requires Inv(db) && LegalRun(db, ops) && k < |db.matches| && !db.matches[k].status.Active?
    ensures k < |Final(db, ops).matches| && Final(db, ops).matches[k] == db.matches[k]
    decreases |ops|
  {
    if ops != [] {
      MatchRowExactly(db, ops[0], k);
      TransactionKeepsInv(db, ops[0]);
      ClosedMatchForever(After(db, ops[0]), ops[1..], k);
    }
  }

  /** Every change of status is one the table permits. */
  lemma {:induction false} StatusFollowsTable(db: Db, op: Op, r: Id)
    requires Inv(db) && Legal(db, op) && r in db.requests
    ensures r in After(db, op).requests
    ensures var from, to := db.requests[r].status, After(db, op).requests[r].status; to == from || CanTransition(from, to)
  {
    RequestRowExactly(db, op, r);
    if op.Timeout? || op.Accept? || op.Decline? { assert OfferSound(db, op.offer); }
    if op.Cancel? || op.Moderate? || op.Confirm? || op.AutoSettle? { assert MatchSound(db, op.matchId); }
  }

  // ------------------------------------------------------- what is still needed

  /** Something is needed unless the request is fulfilled; something was received if it is fulfilled or partly so. */
  ghost predicate CreditAt(db: Db, r: Id) {
    r in db.requests ==>
      var q := db.requests[r];
      && (q.fulfilled < q.qty || q.status.Fulfilled?)
      && (q.status.Fulfilled? || q.status.PartiallyFulfilled? ==> q.fulfilled > 0.0)
  }

  ghost predicate Credited(db: Db) { forall r {:trigger CreditAt(db, r)} :: CreditAt(db, r) }

  lemma {:induction false} StepKeepsCredit(db: Db, op: Op, r: Id)
    requires Inv(db) && Legal(db, op) && CreditAt(db, r)
    ensures CreditAt(After(db, op), r)
  {
    if r !in db.requests {
      NewRequestExactly(db, op, r);
    } else {
      RequestRowExactly(db, op, r);
      assert RequestSound(db, r);
      if op.Confirm? || op.AutoSettle? { SettlementKeepsCredit(db, op, r); }
    }
  }

  lemma {:induction false} SettlementKeepsCredit(db: Db, op: Op, r: Id)
    requires Inv(db) && (op.Confirm? || op.AutoSettle?) && r in db.requests && CreditAt(db, r)
    ensures var q := RequestBecomes(db, op, r);
      (q.fulfilled < q.qty || q.status.Fulfilled?) && (q.status.Fulfilled? || q.status.PartiallyFulfilled? ==> q.fulfilled > 0.0)
  {
    assert MatchSound(db, op.matchId) && RequestSound(db, r);
  }

  /** Only a creation adds a request: searching, nothing received, the first ring. */
  lemma {:induction false} NewRequestExactly(db: Db, op: Op, r: Id)
    requires Inv(db) && Legal(db, op) && r !in db.requests
    ensures r in After(db, op).requests <==> op.Create? && op.request == r && op.row.qty > 0.0
    ensures r in After(db, op).requests ==>
      After(db, op).requests[r] ==
        Request(op.row.event, op.row.requester, op.row.category, op.row.qty, 0.0, Searching, 400, 0, op.row.expiresAt)
  {
    if op.Pass? { PassKeepsRest(db, op.input); }
    else if op.Cancel? || op.Moderate? || op.Confirm? || op.AutoSettle? { assert MatchSound(db, op.matchId); }
    else if op.CancelRequest? && ActiveMatch(db.matches, op.request).Some? {
      assert MatchSound(db, ActiveMatch(db.matches, op.request).value);
    }
  }

  /** In every run from the empty tables a request that is not fulfilled still needs something. */
  lemma {:induction false} RunKeepsCredit(db: Db, ops: seq<Op>)
    requires Inv(db) && Credited(db) && LegalRun(db, ops)
    ensures Credited(Final(db, ops))
    decreases |ops|
  {
    if ops != [] {
      forall r ensures CreditAt(After(db, ops[0]), r) {
        assert CreditAt(db, r);
        StepKeepsCredit(db, ops[0], r);
      }
      TransactionKeepsInv(db, ops[0]);
      RunKeepsCredit(After(db, ops[0]), ops[1..]);
    }
  }

  /** So the owner of a partly fulfilled request is never refused: it searches on, or it is fulfilled as it is. */
  lemma {:induction false} ContinueGoesThrough(ops: seq<Op>, r: Id, user: Id, search: bool, now: Time)
    requires LegalRun(EMPTY, ops) && r in Final(EMPTY, ops).requests
    requires Final(EMPTY, ops).requests[r].status.PartiallyFulfilled? && Final(EMPTY, ops).requests[r].requester == user
    ensures var db := Final(EMPTY, ops);
      && ContinueRequest(db, r, user, search, now).Done?
      && r in After(db, Op.Continue(r, user, search, now)).requests
      && After(db, Op.Continue(r, user, search, now)).requests[r].status == if search then Searching else Fulfilled
  {
    EmptyIsSound();
    RunKeepsCredit(EMPTY, ops);
    assert CreditAt(Final(EMPTY, ops), r);
  }

  // ------------------------------------------------------- what is owed

  ghost predicate Rematches(after: seq<Effect>, r: Id) { exists delay: nat :: Rematch(r, delay) in after }

  /** The request has just come to searching, or has been searched for in vain, or waits with its offer for an inactive event. */
  ghost predicate NeedsPass(db: Db, op: Op, r: Id)
    requires Legal(db, op)
  {
    || (r in After(db, op).requests && After(db, op).requests[r].status.Searching?
        && (r !in db.requests || !db.requests[r].status.Searching? || IsPassOn(op, r)))
    || (IsPassOn(op, r) && r in db.requests && db.requests[r].status.Offering?
        && db.requests[r].expiresAt > op.input.now && !TakesMatches(op.input.event))
  }

  lemma {:induction false} OnlyRematch(after: seq<Effect>, x: Id, delay: nat)
    requires after == [Rematch(x, delay)]
    ensures forall r :: Rematches(after, r) <==> r == x
    ensures forall e :: e in after ==> e == Rematch(x, delay)
  {
    assert after[0] == Rematch(x, delay) && Rematch(x, delay) in after;
  }

  /** Only a pass and the owner's start of a search put a pass off. */
  ghost predicate AtOnce(op: Op, after: seq<Effect>) {
    !op.Pass? && !op.Create? && !op.Renew? && !op.Continue? ==> forall e :: e in after && e.Rematch? ==> e.delay == 0
  }

  /** A transaction owes passes for exactly the requests that need one, at once unless it is itself a pass or starts a search. */
  lemma {:induction false} OwesPassExactly(db: Db, op: Op, r: Id)
    requires Inv(db) && Legal(db, op) && Run(db, op).Done?
    ensures Rematches(Run(db, op).after, r) <==> NeedsPass(db, op, r)
    ensures AtOnce(op, Run(db, op).after)
  {
    if op.Pass? { PassOwes(db, op.input, r); }
    else if op.Timeout? || op.Accept? || op.Decline? { AnswerOwes(db, op, r); }
    else if op.Cancel? || op.Moderate? || op.Confirm? || op.AutoSettle? { MatchOpOwes(db, op, r); }
    else { OwnerOwes(db, op, r); }
  }

  lemma {:induction false} PassOwes(db: Db, p: PassInput, r: Id)
    requires Inv(db) && Legal(db, Pass(p)) && RunPass(db, p).Done?
    ensures Rematches(RunPass(db, p).after, r) <==> NeedsPass(db, Pass(p), r)
  {
    PassKeepsRest(db, p);
    var after := RunPass(db, p).after;
    if p.request in db.requests && IsOpen(db.requests[p.request].status) && db.requests[p.request].expiresAt > p.now {
      if Searches(db, p) {
        SearchOwes(db, p, r);
      } else {
        PassIdles(db, p);
        if after != [] { OnlyRematch(after, p.request, 30_000); }
      }
    }
  }

  lemma {:induction false} SearchOwes(db: Db, p: PassInput, r: Id)
    requires Inv(db) && Legal(db, Pass(p)) && Searches(db, p) && RunPass(db, p).Done?
    ensures Rematches(RunPass(db, p).after, r) <==> r == p.request && After(db, Pass(p)).requests[r].status.Searching?
  {
    var after := RunPass(db, p).after;
    if After(db, Pass(p)).requests[p.request].status.Searching? { OnlyRematch(after, p.request, after[0].delay); }
  }

  lemma {:induction false} AnswerOwes(db: Db, op: Op, r: Id)
    requires Inv(db) && (op.Timeout? || op.Accept? || op.Decline?) && Run(db, op).Done?
    ensures Rematches(Run(db, op).after, r) <==> NeedsPass(db, op, r)
    ensures AtOnce(op, Run(db, op).after)
  {
    assert OfferSound(db, op.offer);
    var after := Run(db, op).after;
    if after != [] { OnlyRematch(after, db.offers[op.offer].request, 0); }
  }

  lemma {:induction false} MatchOpOwes(db: Db, op: Op, r: Id)
    requires Inv(db) && (op.Cancel? || op.Moderate? || op.Confirm? || op.AutoSettle?) && Run(db, op).Done?
    ensures Rematches(Run(db, op).after, r) <==> NeedsPass(db, op, r)
    ensures AtOnce(op, Run(db, op).after)
  {
    assert MatchSound(db, op.matchId);
    var after := Run(db, op).after;
    if after != [] && after[0].Rematch? { OnlyRematch(after, db.matches[op.matchId].request, 0); }
  }

  lemma {:induction false} OwnerOwes(db: Db, op: Op, r: Id)
    requires Inv(db) && Legal(db, op) && Run(db, op).Done?
    requires !op.Pass? && !op.Timeout? && !op.Accept? && !op.Decline?
    requires !op.Cancel? && !op.Moderate? && !op.Confirm? && !op.AutoSettle?
    ensures Rematches(Run(db, op).after, r) <==> NeedsPass(db, op, r)
    ensures AtOnce(op, Run(db, op).after)
  {
    var after := Run(db, op).after;
    if |after| == 2 { assert after[0] == Rematch(op.request, 0) && after[0] in after; }
    if op.CancelRequest? && ActiveMatch(db.matches, op.request).Some? {
      assert MatchSound(db, ActiveMatch(db.matches, op.request).value);
    }
  }

  /** A timeout is owed for exactly the offer a transaction makes, at its deadline. */
  lemma {:induction false} OwesTimeoutExactly(db: Db, op: Op, o: Id, t: Time)
    requires Inv(db) && Legal(db, op) && Run(db, op).Done?
    ensures Deadline(o, t) in Run(db, op).after <==> o !in db.offers && o in After(db, op).offers && After(db, op).offers[o].respondBy == t
  {
    if op.Pass? {
      if Searches(db, op.input) { SearchOwesTimeout(db, op.input, o, t); }
    } else {
      assert After(db, op).offers.Keys <= db.offers.Keys by { OffersOnlyFromPasses(db, op, o); }
    }
  }

  lemma {:induction false} SearchOwesTimeout(db: Db, p: PassInput, o: Id, t: Time)
    requires Inv(db) && Legal(db, Pass(p)) && Searches(db, p) && RunPass(db, p).Done?
    ensures Deadline(o, t) in RunPass(db, p).after <==>
      o !in db.offers && o in After(db, Pass(p)).offers && After(db, Pass(p)).offers[o].respondBy == t
  {
    var after := RunPass(db, p).after;
    assert after[0] in after && |after| == 1;
    assert SweepOpen(db, p).offers.Keys == db.offers.Keys;
  }

  lemma {:induction false} OffersOnlyFromPasses(db: Db, op: Op, o: Id)
    requires Legal(db, op) && !op.Pass?
    ensures After(db, op).offers.Keys <= db.offers.Keys
  {
    if op.Cancel? || op.Moderate? || op.Confirm? || op.AutoSettle? { assert After(db, op).offers == db.offers; }
  }

  /** The finalize job is owed for exactly the match whose first confirmation the transaction records. */
  lemma {:induction false} OwesFinalizeExactly(db: Db, op: Op, k: Id)
    requires Inv(db) && Legal(db, op) && Run(db, op).Done?
    ensures Finalize(k) in Run(db, op).after <==>
      && op.Confirm? && op.matchId == k && k < |db.matches| && Confirmable(db.matches[k], op.viewer, op.qty, op.fractional)
      && Unconfirmed(db, k)
  {
    if op.Confirm? {
      assert MatchSound(db, op.matchId);
      ConfirmedExactly(db, op.matchId, op.viewer, op.qty, op.fractional);
    } else if op.Cancel? || op.Moderate? {
      CalledOffExactly(db, op);
    }
  }

  /** A search that is begun by its owner gets a pass at once and one a second after it expires. */
  lemma {:induction false} SearchBeginsWithTwoPasses(db: Db, op: Op)
    requires Legal(db, op) && (op.Create? || op.Renew? || (op.Continue? && op.search)) && Run(db, op).Done?
    ensures op.request in After(db, op).requests
    ensures exists delay: nat ::
      && Run(db, op).after == [Rematch(op.request, 0), Rematch(op.request, delay)]
      && op.now + delay == Max(op.now, After(db, op).requests[op.request].expiresAt) + 1000
  {
  }

  // ------------------------------------------------------- confirmations

  predicate Unconfirmed(db: Db, k: Id) {
    k < |db.matches| && db.matches[k].requesterConfirmed.None? && db.matches[k].helperConfirmed.None?
  }

  /** The first of two confirmations only records its quantity. */
  lemma {:induction false} FirstConfirmation(db: Db, k: Id, viewer: Id, a: real, fractional: bool)
    requires Inv(db) && Unconfirmed(db, k) && Confirmable(db.matches[k], viewer, a, fractional)
    ensures var db1 := db.(matches := db.matches[k := Recorded(db.matches[k], viewer, a)]);
      After(db, Confirm(k, viewer, a, fractional)) == db1 && Inv(db1)
  {
    ConfirmedExactly(db, k, viewer, a, fractional);
    TransactionKeepsInv(db, Confirm(k, viewer, a, fractional));
  }

  /** In whichever order the two sides confirm, the same is settled: the smaller quantity changes hands. */
  lemma {:induction false} ConfirmationsCommute(db: Db, k: Id, a: real, b: real, fractional: bool)
    requires Inv(db) && Unconfirmed(db, k)
    requires Confirmable(db.matches[k], db.matches[k].requester, a, fractional)
    requires Confirmable(db.matches[k], db.matches[k].helper, b, fractional)
    ensures var m := db.matches[k];
      var byRequester, byHelper := Op.Confirm(k, m.requester, a, fractional), Op.Confirm(k, m.helper, b, fractional);
      && Run(After(db, byRequester), byHelper) == Run(After(db, byHelper), byRequester)
      && Run(After(db, byRequester), byHelper).Done?
      && m.request in db.requests && m.request in After(After(db, byRequester), byHelper).requests
      && After(After(db, byRequester), byHelper).requests[m.request].fulfilled == db.requests[m.request].fulfilled + Min(a, b)
  {
    var m := db.matches[k];
    assert MatchSound(db, k);
    FirstConfirmation(db, k, m.requester, a, fractional);
    FirstConfirmation(db, k, m.helper, b, fractional);
    var db1 := db.(matches := db.matches[k := Recorded(m, m.requester, a)]);
    var db2 := db.(matches := db.matches[k := Recorded(m, m.helper, b)]);
    ConfirmedExactly(db1, k, m.helper, b, fractional);
    ConfirmedExactly(db2, k, m.requester, a, fractional);
    var done := m.(requesterConfirmed := Some(a), helperConfirmed := Some(b));
    SettleForgets(db, db1, db2, k, done, Min(a, b), Some(a) != Some(b));
  }

  /** A settlement depends on the match it closes only through the row it is given. */
  lemma {:induction false} SettleForgets(db: Db, db1: Db, db2: Db, k: Id, m: Match, qty: real, disputed: bool)
    requires Lockable(db, k) && m.request == db.matches[k].request && m.item == db.matches[k].item
    requires |db1.matches| == |db.matches| == |db2.matches|
    requires db1 == db.(matches := db.matches[k := db1.matches[k]]) && db2 == db.(matches := db.matches[k := db2.matches[k]])
    requires db1.matches[k].request == m.request == db2.matches[k].request && db1.matches[k].item == m.item == db2.matches[k].item
    ensures Lockable(db1, k) && Lockable(db2, k) && Settle(db1, k, m, qty, disputed) == Settle(db2, k, m, qty, disputed)
  {
    var out := Settle(db1, k, m, qty, disputed);
    if out.Done? {
      var x := out.db.matches[k];
      assert db1.matches[k := x] == db2.matches[k := x];
    }
  }

  /** Confirming the same quantity again changes nothing and is no error. */
  lemma {:induction false} ConfirmingTwiceIsOnce(db: Db, k: Id, viewer: Id, a: real, fractional: bool)
    requires Inv(db) && Unconfirmed(db, k) && Confirmable(db.matches[k], viewer, a, fractional)
    ensures var once := After(db, Confirm(k, viewer, a, fractional)); Run(once, Confirm(k, viewer, a, fractional)) == Done(once, [])
  {
    FirstConfirmation(db, k, viewer, a, fractional);
    assert MatchSound(db, k);
  }

  /** Waiting out the other side settles what its confirming the same quantity would have settled. */
  lemma {:induction false} SilenceIsAssent(db: Db, k: Id, viewer: Id, a: real, fractional: bool)
    requires Inv(db) && Unconfirmed(db, k) && Confirmable(db.matches[k], viewer, a, fractional)
    ensures var m := db.matches[k];
      var half := After(db, Op.Confirm(k, viewer, a, fractional));
      var other := if viewer == m.requester then m.helper else m.requester;
      var waited, confirmed := After(half, AutoSettle(k)), After(half, Op.Confirm(k, other, a, fractional));
      && waited.requests == confirmed.requests && waited.items == confirmed.items && waited.offers == confirmed.offers
      && k < |waited.matches| && k < |confirmed.matches|
      && waited.matches[k].status == confirmed.matches[k].status && !confirmed.matches[k].status.DisputedQuantities?
  {
    var m := db.matches[k];
    assert MatchSound(db, k);
    FirstConfirmation(db, k, viewer, a, fractional);
    var half := db.(matches := db.matches[k := Recorded(m, viewer, a)]);
    var other := if viewer == m.requester then m.helper else m.requester;
    AutoSettledExactly(half, k);
    ConfirmedExactly(half, k, other, a, fractional);
  }
}
