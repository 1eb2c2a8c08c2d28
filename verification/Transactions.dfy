/**
 Every database transaction that touches requests, offers, matches or stock, each as a
 function from the tables it sees to the tables it commits plus its after-commit effects.
 A thrown error rolls the transaction back, so it carries no tables.
 */
module Transactions {
  import opened Domain
  import opened Ranking

  datatype Error = Conflict | NotFound | OfferLapsed | Insufficient | Invalid

  /** Jobs queued after commit; `delay` is in milliseconds. */
  datatype Effect = Rematch(request: Id, delay: nat) | Deadline(offer: Id, respondBy: Time) | Finalize(matchId: Id)

  datatype Outcome = Done(db: Db, after: seq<Effect>) | Thrown(error: Error)

  function Committed(db: Db, out: Outcome): Db {
    match out
    case Done(db', _) => db'
    case Thrown(_) => db
  }

  const PAUSED_RETRY_DELAY: nat := 30_000
  const NO_CANDIDATE_RETRY_DELAY: nat := 20_000
  const INITIAL_RADIUS := 400
  const RADIUS_FACTOR := 2

  // ----------------------------------------------------------- table helpers

  predicate IsOpenOffer(o: Offer, r: Id) { o.request == r && o.status.Offered? }

  function OpenOffers(offers: map<Id, Offer>, r: Id): set<Id> {
    set o | o in offers && IsOpenOffer(offers[o], r)
  }

  function OffersOf(offers: map<Id, Offer>, r: Id): set<Id> {
    set o | o in offers && offers[o].request == r
  }

  predicate Asked(offers: map<Id, Offer>, r: Id, helper: Id) {
    exists o :: o in offers && offers[o].request == r && offers[o].helper == helper
  }

  /** The open offers of a request become superseded. */
  function Supersede(offers: map<Id, Offer>, r: Id): map<Id, Offer> {
    map o | o in offers :: if IsOpenOffer(offers[o], r) then offers[o].(status := Superseded) else offers[o]
  }

  function WithRequest(db: Db, r: Id, row: Request): Db {
    db.(requests := db.requests[r := row])
  }

  function Remaining(q: Request): real { q.qty - q.fulfilled }

  /** First active match of a request; the unique partial index allows at most one. */
  function ActiveMatch(ms: seq<Match>, r: Id): (k: Option<Id>)
    ensures k.Some? ==> k.value < |ms| && ms[k.value].request == r && ms[k.value].status.Active?
    ensures k.None? ==> forall i :: 0 <= i < |ms| ==> !(ms[i].request == r && ms[i].status.Active?)
  {
    if ms == [] then None
    else
      var k := |ms| - 1;
      var earlier := ActiveMatch(ms[..k], r);
      if earlier.Some? then earlier
      else if ms[k].request == r && ms[k].status.Active? then Some(k)
      else None
  }

  // -------------------------------------------------------------- match pass

  /**
   What one pass reads besides the four tables: the clock, the event and category rows, the row the
   `LIMIT 1` query for the open offer returned, the shortlist the eligibility query returned, the
   jitter draws and the id the insert would get.
   */
  datatype PassInput = PassInput(
    request: Id, now: Time, event: Option<Event>, fractional: bool, open: Option<Id>,
    shortlist: seq<Candidate>, jitters: seq<real>, newOffer: Id)

  predicate Matching(e: Option<Event>) {
    e.Some? && e.value.status.Running? && !e.value.matchingPaused
  }

  predicate PassReadable(db: Db, p: PassInput) {
    |p.shortlist| <= |p.jitters| && (p.open.Some? ==> p.open.value in db.offers)
  }

  /** (a) expiry, (b) deferral, (c) a live offer, then the search itself. */
  function RunPass(db: Db, p: PassInput): Outcome
    requires PassReadable(db, p)
  {
    if p.request !in db.requests || !IsOpen(db.requests[p.request].status) then Done(db, [])
    else
      var q := db.requests[p.request];
      if q.expiresAt <= p.now then CloseExpired(db, p.request)
      else if !Matching(p.event) then Done(db, [Rematch(p.request, PAUSED_RETRY_DELAY)])
      else if q.status.Offering? && p.open.Some? && db.offers[p.open.value].respondBy > p.now then Done(db, [])
      else Search(SweepOpen(db, p), p)
  }

  function CloseExpired(db: Db, r: Id): Outcome
    requires r in db.requests
  {
    var q := db.requests[r];
    var to := if OffersOf(db.offers, r) != {} then Expired else NoMatch;
    if !CanTransition(q.status, to) then Thrown(Conflict)
    else Done(WithRequest(db.(offers := Supersede(db.offers, r)), r, q.(status := to)), [])
  }

  /** (c) An open offer past its deadline is expired and the request returns to searching. */
  function SweepOpen(db: Db, p: PassInput): (db': Db)
    requires PassReadable(db, p) && p.request in db.requests
    ensures db'.requests.Keys == db.requests.Keys && db'.matches == db.matches && db'.items == db.items
  {
    var q := db.requests[p.request];
    if !q.status.Offering? then db
    else
      var swept :=
        if p.open.None? then db.offers
        else db.offers[p.open.value := db.offers[p.open.value].(status := TimedOut)];
      WithRequest(db.(offers := swept), p.request, q.(status := Searching))
  }

  function PickFor(q: Request, p: PassInput): Option<Pick>
    requires |p.shortlist| <= |p.jitters|
  {
    Winner(p.shortlist, p.jitters, Remaining(q), p.fractional)
  }

  /** (e/f) Offer to the winner, or (g) widen the ring. */
  function Search(db: Db, p: PassInput): Outcome
    requires |p.shortlist| <= |p.jitters| && p.request in db.requests && Matching(p.event)
  {
    var q := db.requests[p.request];
    match PickFor(q, p)
    case Some(w) =>
      // the unique (request, helper) index and the foreign key on the item
      if Asked(db.offers, p.request, w.c.helper) || w.c.item !in db.items then Thrown(Conflict)
      else
        var offer := Offer(p.request, w.c.helper, w.c.item, w.qty, Offered,
                           p.now + p.event.value.responseSeconds * 1000);
        Done(WithRequest(db.(offers := db.offers[p.newOffer := offer]), p.request,
                         q.(status := Offering, attempts := q.attempts + 1)),
             [Deadline(p.newOffer, offer.respondBy)])
    case None =>
      if q.radius < p.event.value.maxRadius then
        Done(WithRequest(db, p.request, q.(radius := Widen(q.radius, p.event.value.maxRadius))), [Rematch(p.request, 0)])
      else Done(db, [Rematch(p.request, NO_CANDIDATE_RETRY_DELAY)])
  }

  function Widen(radius: int, max: int): int { MinInt(radius * RADIUS_FACTOR, max) }

  // ------------------------------------------------------------ offer answers

  function ExpireOffer(db: Db, o: Id, now: Time): Outcome {
    if o !in db.offers || !db.offers[o].status.Offered? || db.offers[o].respondBy > now then Done(db, [])
    else
      var offer := db.offers[o];
      var db1 := db.(offers := db.offers[o := offer.(status := TimedOut)]);
      var db2 :=
        if offer.request in db.requests && db.requests[offer.request].status.Offering? then
          WithRequest(db1, offer.request, db.requests[offer.request].(status := Searching))
        else db1;
      Done(db2, [Rematch(offer.request, 0)])
  }

  predicate AnswerableBy(db: Db, o: Id, helper: Id) { o in db.offers && db.offers[o].helper == helper }

  function DeclineOffer(db: Db, o: Id, helper: Id, now: Time): Outcome {
    if !AnswerableBy(db, o, helper) then Thrown(NotFound)
    else
      var offer := db.offers[o];
      if !offer.status.Offered? then Thrown(Conflict)
      else if offer.respondBy <= now then Thrown(OfferLapsed)
      else if offer.request !in db.requests then Thrown(NotFound)
      else
        var q := db.requests[offer.request];
        var db1 := db.(offers := db.offers[o := offer.(status := Declined)]);
        Done(if q.status.Offering? then WithRequest(db1, offer.request, q.(status := Searching)) else db1,
             [Rematch(offer.request, 0)])
  }

  function ReserveQty(offerQty: real, need: real, available: real, fractional: bool): (qty: real)
    ensures qty >= 0.0
    ensures qty > 0.0 ==> qty <= offerQty && qty <= need && qty <= available
  {
    var qty := Whole(Min(Min(offerQty, need), available), fractional);
    if qty > 0.0 then qty else 0.0
  }

  /** The largest positive quantity that fits all three, whole unless the category is fractional; zero if none does. */
  lemma {:induction false} ReserveQtyIsLargest(offerQty: real, need: real, available: real, fractional: bool)
    ensures var qty := ReserveQty(offerQty, need, available, fractional);
      && (qty > 0.0 ==> qty <= offerQty && qty <= need && qty <= available && (fractional || IsWhole(qty)))
      && forall x :: (x <= offerQty && x <= need && x <= available && (fractional || IsWhole(x))) ==> x <= qty
  {
    OfferQtyIsLargest(Min(offerQty, need), available, fractional);
  }

  function AcceptOffer(db: Db, o: Id, helper: Id, now: Time, fractional: bool): Outcome {
    if !AnswerableBy(db, o, helper) then Thrown(NotFound)
    else
      var offer := db.offers[o];
      if !offer.status.Offered? then Thrown(Conflict)
      else if offer.respondBy <= now then Thrown(OfferLapsed)
      else if offer.request !in db.requests then Thrown(NotFound)
      else if !db.requests[offer.request].status.Offering? then Thrown(Conflict)
      else if offer.item !in db.items then Thrown(NotFound)
      else
        var q, item := db.requests[offer.request], db.items[offer.item];
        var qty := ReserveQty(offer.qty, Remaining(q), if item.active then item.onHand - item.reserved else 0.0, fractional);
        if qty <= 0.0 then
          Done(WithRequest(db.(offers := db.offers[o := offer.(status := TimedOut)]), offer.request, q.(status := Searching)),
               [Rematch(offer.request, 0)])
        else if ActiveMatch(db.matches, offer.request).Some? then Thrown(Conflict)
        else
          var m := Match(offer.request, o, q.requester, helper, offer.item, qty, Active, None, None, false);
          Done(Db(db.requests[offer.request := q.(status := Matched)],
                  db.offers[o := offer.(status := Accepted)],
                  db.matches + [m],
                  db.items[offer.item := item.(reserved := item.reserved + qty)]), [])
  }

  // ----------------------------------------------------------- match closing

  predicate Lockable(db: Db, k: Id) {
    k < |db.matches| && db.matches[k].request in db.requests && db.matches[k].item in db.items
  }

  datatype Canceller = ByRequester | ByHelper | ByModerator

  /** Close an active match without an exchange: release the reservation, route the request. */
  function CancelLocked(db: Db, k: Id, who: Canceller, unsafe: bool): Outcome
    requires Lockable(db, k)
  {
    var m := db.matches[k];
    var q, item := db.requests[m.request], db.items[m.item];
    var to := match who case ByModerator => Moderated case ByRequester => Cancelled case ByHelper => Searching;
    if !m.status.Active? || !CanTransition(q.status, to) then Thrown(Conflict)
    else
      var status :=
        if who.ByModerator? then CancelledModeration
        else if unsafe then CancelledUnsafe
        else if who.ByRequester? then CancelledByRequester
        else CancelledByHelper;
      Done(Db(db.requests[m.request := q.(status := to)],
              db.offers,
              db.matches[k := m.(status := status, applied := true)],
              if m.applied then db.items else db.items[m.item := item.(reserved := item.reserved - m.reserved)]),
           if who.ByHelper? then [Rematch(m.request, 0)] else [])
  }

  function CancelMatch(db: Db, k: Id, viewer: Id, unsafe: bool): Outcome {
    if !Lockable(db, k) then Thrown(NotFound)
    else if db.matches[k].requester == viewer then CancelLocked(db, k, ByRequester, unsafe)
    else if db.matches[k].helper == viewer then CancelLocked(db, k, ByHelper, unsafe)
    else Thrown(NotFound)
  }

  function ModerateMatch(db: Db, k: Id): Outcome {
    if !Lockable(db, k) then Thrown(NotFound) else CancelLocked(db, k, ByModerator, false)
  }

  /** Deduct what changed hands, release the whole reservation, credit the request, close the match. */
  function Settle(db: Db, k: Id, m: Match, finalQty: real, disputed: bool): Outcome
    requires Lockable(db, k) && m.request == db.matches[k].request && m.item == db.matches[k].item
  {
    var q, item := db.requests[m.request], db.items[m.item];
    var credited := q.fulfilled + finalQty;
    var to := if credited >= q.qty then Fulfilled else if credited > 0.0 then PartiallyFulfilled else Searching;
    var status := if disputed then DisputedQuantities else if credited >= q.qty then Completed else PartiallyCompleted;
    if !CanTransition(q.status, to) then Thrown(Conflict)
    else
      Done(Db(db.requests[m.request := q.(status := to, fulfilled := credited)],
              db.offers,
              db.matches[k := m.(status := status, applied := true)],
              if m.applied then db.items
              else db.items[m.item := item.(onHand := item.onHand - finalQty, reserved := item.reserved - m.reserved)]),
           if to.Searching? then [Rematch(m.request, 0)] else [])
  }

  function ConfirmCompletion(db: Db, k: Id, viewer: Id, qty: real, fractional: bool): Outcome {
    if !Lockable(db, k) then Thrown(NotFound)
    else
      var m := db.matches[k];
      var isRequester, isHelper := m.requester == viewer, m.helper == viewer;
      if !isRequester && !isHelper then Thrown(NotFound)
      else
        var mine := if isRequester then m.requesterConfirmed else m.helperConfirmed;
        if mine.Some? || !m.status.Active? then
          if mine == Some(qty) then Done(db, []) else Thrown(Conflict)
        else if qty < 0.0 || qty > m.reserved || (!fractional && !IsWhole(qty)) then Thrown(Invalid)
        else
          var m' := if isRequester then m.(requesterConfirmed := Some(qty)) else m.(helperConfirmed := Some(qty));
          var other := if isRequester then m.helperConfirmed else m.requesterConfirmed;
          if other.None? then Done(db.(matches := db.matches[k := m']), [Finalize(k)])
          else Settle(db, k, m', Min(qty, other.value), qty != other.value)
  }

  predicate HalfConfirmed(m: Match) {
    m.status.Active? && (m.requesterConfirmed.Some? != m.helperConfirmed.Some?)
  }

  function AutoFinalize(db: Db, k: Id): Outcome {
    if !Lockable(db, k) then Done(db, [])
    else
      var m := db.matches[k];
      if !HalfConfirmed(m) || m.applied then Done(db, [])
      else Settle(db, k, m, if m.requesterConfirmed.Some? then m.requesterConfirmed.value else m.helperConfirmed.value, false)
  }

  // ---------------------------------------------------------- requester side

  function EnqueueMatching(r: Id, expiresAt: Time, now: Time): seq<Effect> {
    [Rematch(r, 0), Rematch(r, Max(0, expiresAt - now) + 1000)]
  }

  function CreateRequest(db: Db, r: Id, row: Request, now: Time): Outcome {
    if row.qty <= 0.0 then Thrown(Invalid)
    else
      var created := row.(fulfilled := 0.0, status := Searching, radius := INITIAL_RADIUS, attempts := 0);
      Done(WithRequest(db, r, created), EnqueueMatching(r, row.expiresAt, now))
  }

  function CancelOwn(db: Db, r: Id, user: Id): Outcome {
    if r !in db.requests || db.requests[r].requester != user then Thrown(NotFound)
    else
      var q := db.requests[r];
      if q.status.Matched? then
        var k := ActiveMatch(db.matches, r);
        if k.None? then Thrown(Conflict)
        else if !Lockable(db, k.value) then Thrown(NotFound)
        else CancelLocked(db, k.value, ByRequester, false)
      else if !IsOpen(q.status) then Thrown(Conflict)
      else Done(WithRequest(db.(offers := Supersede(db.offers, r)), r, q.(status := Cancelled)), [])
  }

  function RenewRequest(db: Db, r: Id, user: Id, now: Time, minutes: nat): Outcome {
    if r !in db.requests || db.requests[r].requester != user then Thrown(NotFound)
    else
      var q := db.requests[r];
      if q.status !in {Expired, NoMatch, Cancelled} then Thrown(Conflict)
      else
        var until := now + minutes * 60_000;
        Done(WithRequest(db, r, q.(status := Searching, expiresAt := until, radius := INITIAL_RADIUS)),
             EnqueueMatching(r, until, now))
  }

  function ContinueRequest(db: Db, r: Id, user: Id, search: bool, now: Time): Outcome {
    if r !in db.requests || db.requests[r].requester != user then Thrown(NotFound)
    else
      var q := db.requests[r];
      if !q.status.PartiallyFulfilled? || (search && Remaining(q) <= 0.0) then Thrown(Conflict)
      else if search then
        var until := now + 15 * 60_000;
        Done(WithRequest(db, r, q.(status := Searching, expiresAt := until, radius := INITIAL_RADIUS)),
             EnqueueMatching(r, until, now))
      else Done(WithRequest(db, r, q.(status := if q.fulfilled > 0.0 then Fulfilled else Cancelled)), [])
  }

  /** Account deletion and event disabling close every still-open request of a set. */
  function CloseOpen(db: Db, rs: set<Id>, to: RequestStatus): Outcome {
    var closing := set r | r in rs && r in db.requests && IsOpen(db.requests[r].status);
    Done(Db(map r | r in db.requests :: if r in closing then db.requests[r].(status := to) else db.requests[r],
            map o | o in db.offers ::
              if db.offers[o].request in closing && db.offers[o].status.Offered?
              then db.offers[o].(status := Superseded) else db.offers[o],
            db.matches, db.items), [])
  }

  // ------------------------------------------------------------------- stock

  function AddItem(db: Db, i: Id, item: Item): Outcome {
    if item.onHand <= 0.0 then Thrown(Invalid)
    else Done(db.(items := db.items[i := item.(reserved := 0.0, active := true)]), [])
  }

  function EditItem(db: Db, i: Id, owner: Id, total: Option<real>, active: Option<bool>): Outcome {
    if i !in db.items || db.items[i].owner != owner then Thrown(NotFound)
    else if total.Some? && total.value < db.items[i].reserved then Thrown(Insufficient)
    else
      var item := db.items[i];
      Done(db.(items := db.items[i := item.(onHand := if total.Some? then total.value else item.onHand,
                                            active := if active.Some? then active.value else item.active)]), [])
  }

  predicate Referenced(db: Db, i: Id) {
    (exists o :: o in db.offers && db.offers[o].item == i)
    || (exists k :: 0 <= k < |db.matches| && db.matches[k].item == i)
  }

  function RemoveItem(db: Db, i: Id, owner: Id): Outcome {
    if i !in db.items || db.items[i].owner != owner then Thrown(NotFound)
    else if Referenced(db, i) then Done(db.(items := db.items[i := db.items[i].(active := false)]), [])
    else Done(db.(items := db.items - {i}), [])
  }

  function Zeroed(items: map<Id, Item>, owner: Id): map<Id, Item> {
    map i | i in items :: if items[i].owner == owner then items[i].(onHand := items[i].reserved, active := false) else items[i]
  }

  /** Step 4 of account deletion: on-hand collapses to what is still reserved. */
  function ZeroItems(db: Db, owner: Id): Outcome {
    Done(db.(items := Zeroed(db.items, owner)), [])
  }

  /** When an event ends and for how many days its rows are kept after that. */
  datatype Closing = Closing(endsAt: Time, retentionDays: nat)

  predicate PastRetention(ends: map<Id, Closing>, e: Id, now: Time) {
    e in ends && ends[e].endsAt + ends[e].retentionDays * DAY < now
  }

  /** Offers of events past their retention that no match references. */
  function Purged(db: Db, ends: map<Id, Closing>, now: Time): set<Id> {
    set o | o in db.offers
      && db.offers[o].request in db.requests && PastRetention(ends, db.requests[db.offers[o].request].event, now)
      && forall k :: 0 <= k < |db.matches| ==> db.matches[k].offer != o
  }

  function PurgeOffers(db: Db, ends: map<Id, Closing>, now: Time): Outcome {
    Done(db.(offers := db.offers - Purged(db, ends, now)), [])
  }

  // ------------------------------------------------------------ one vocabulary

  datatype Op =
    | Pass(input: PassInput)
    | Timeout(offer: Id, now: Time)
    | Accept(offer: Id, helper: Id, now: Time, fractional: bool)
    | Decline(offer: Id, helper: Id, now: Time)
    | Cancel(matchId: Id, viewer: Id, unsafe: bool)
    | Moderate(matchId: Id)
    | Confirm(matchId: Id, viewer: Id, qty: real, fractional: bool)
    | AutoSettle(matchId: Id)
    | Create(request: Id, row: Request, now: Time)
    | CancelRequest(request: Id, user: Id)
    | Renew(request: Id, user: Id, now: Time, minutes: nat)
    | Continue(request: Id, user: Id, search: bool, now: Time)
    | CloseAll(requests: set<Id>, to: RequestStatus)
    | Add(item: Id, itemRow: Item)
    | Edit(item: Id, owner: Id, total: Option<real>, active: Option<bool>)
    | Remove(item: Id, owner: Id)
    | Zero(owner: Id)
    | Purge(ends: map<Id, Closing>, now: Time)

  /** Candidates come from the eligibility query: never asked before, never the requester. */
  predicate ShortlistSound(db: Db, r: Id, cs: seq<Candidate>) {
    r in db.requests ==>
      forall c :: c in cs ==> !Asked(db.offers, r, c.helper) && c.helper != db.requests[r].requester
  }

  /** The item quoted for a candidate is the candidate's own; a row that is gone fails the foreign key instead. */
  predicate ItemsTheirs(db: Db, cs: seq<Candidate>) {
    forall c :: c in cs && c.item in db.items ==> db.items[c.item].owner == c.helper
  }

  predicate OpenRowRead(db: Db, p: PassInput) {
    match p.open
    case None => OpenOffers(db.offers, p.request) == {}
    case Some(o) => o in OpenOffers(db.offers, p.request)
  }

  /** What the database itself guarantees of the values a transaction reads: fresh ids and true query answers. */
  predicate Legal(db: Db, op: Op) {
    match op
    case Pass(p) =>
      |p.shortlist| <= |p.jitters| && OpenRowRead(db, p) && p.newOffer !in db.offers
      && ShortlistSound(db, p.request, p.shortlist) && ItemsTheirs(db, p.shortlist)
    case Create(r, _, _) => r !in db.requests
    case Add(i, _) => i !in db.items
    case CloseAll(_, to) => to.Cancelled? || to.Moderated?
    case _ => true
  }

  function Run(db: Db, op: Op): Outcome
    requires Legal(db, op)
  {
    match op
    case Pass(p) => RunPass(db, p)
    case Timeout(o, now) => ExpireOffer(db, o, now)
    case Accept(o, helper, now, fractional) => AcceptOffer(db, o, helper, now, fractional)
    case Decline(o, helper, now) => DeclineOffer(db, o, helper, now)
    case Cancel(k, viewer, unsafe) => CancelMatch(db, k, viewer, unsafe)
    case Moderate(k) => ModerateMatch(db, k)
    case Confirm(k, viewer, qty, fractional) => ConfirmCompletion(db, k, viewer, qty, fractional)
    case AutoSettle(k) => AutoFinalize(db, k)
    case Create(r, row, now) => CreateRequest(db, r, row, now)
    case CancelRequest(r, user) => CancelOwn(db, r, user)
    case Renew(r, user, now, minutes) => RenewRequest(db, r, user, now, minutes)
    case Continue(r, user, search, now) => ContinueRequest(db, r, user, search, now)
    case CloseAll(rs, to) => CloseOpen(db, rs, to)
    case Add(i, item) => AddItem(db, i, item)
    case Edit(i, owner, total, active) => EditItem(db, i, owner, total, active)
    case Remove(i, owner) => RemoveItem(db, i, owner)
    case Zero(owner) => ZeroItems(db, owner)
    case Purge(ends, now) => PurgeOffers(db, ends, now)
  }

  /** Offers the transaction deletes. */
  function Deletes(db: Db, op: Op): set<Id> { if op.Purge? then Purged(db, op.ends, op.now) else {} }

  /** The tables after a transaction: a throw leaves them as they were. */
  function After(db: Db, op: Op): Db
    requires Legal(db, op)
  {
    Committed(db, Run(db, op))
  }
}
