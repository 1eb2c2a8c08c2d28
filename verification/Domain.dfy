/**
 Rows, statuses and the request state machine shared by every other module.

 A table is a map from row id to row, except `matches`, whose rows are never
 deleted and are therefore a sequence indexed by id. Times are milliseconds.
 Quantities are `real`.
 */
module Domain {
  datatype Option<+T> = None | Some(value: T)

  type Id = nat
  type Time = int

  const DAY: int := 86_400_000

  datatype RequestStatus =
    | Searching | Offering | Matched | Fulfilled | PartiallyFulfilled
    | Cancelled | Expired | NoMatch | Disputed | Moderated

  datatype OfferStatus = Offered | Accepted | Declined | TimedOut | Superseded

  datatype MatchStatus =
    | Active | Completed | PartiallyCompleted | DisputedQuantities
    | CancelledByRequester | CancelledByHelper | CancelledUnsafe | CancelledModeration

  datatype EventStatus = Draft | Scheduled | Running | Paused | Ended | Archived | Disabled

  datatype Event = Event(status: EventStatus, matchingPaused: bool, maxRadius: int, responseSeconds: nat)

  datatype Request = Request(
    event: Id, requester: Id, category: Id, qty: real, fulfilled: real,
    status: RequestStatus, radius: int, attempts: nat, expiresAt: Time)

  datatype Offer = Offer(request: Id, helper: Id, item: Id, qty: real, status: OfferStatus, respondBy: Time)

  datatype Match = Match(
    request: Id, offer: Id, requester: Id, helper: Id, item: Id, reserved: real, status: MatchStatus,
    requesterConfirmed: Option<real>, helperConfirmed: Option<real>, applied: bool)

  datatype Item = Item(
    owner: Id, event: Id, category: Id, onHand: real, reserved: real, active: bool, expiresAt: Option<Time>)

  datatype Db = Db(
    requests: map<Id, Request>, offers: map<Id, Offer>, matches: seq<Match>, items: map<Id, Item>)

  /** The permitted-transition table. */
  predicate CanTransition(from: RequestStatus, to: RequestStatus) {
    match from
    case Searching => to in {Offering, Cancelled, Expired, NoMatch, Moderated}
    case Offering => to in {RequestStatus.Searching, Matched, Cancelled, Expired, Moderated}
    case Matched => to in {Fulfilled, PartiallyFulfilled, Searching, Cancelled, Moderated}
    case PartiallyFulfilled => to in {Searching, Fulfilled, Cancelled, Moderated}
    case Cancelled => to == Searching
    case Expired => to == Searching
    case NoMatch => to == Searching
    case Fulfilled => false
    case Disputed => false
    case Moderated => false
  }

  predicate IsOpen(s: RequestStatus) {
    s.Searching? || s.Offering?
  }

  function Min(a: real, b: real): real { if a <= b then a else b }

  function MinInt(a: int, b: int): int { if a <= b then a else b }

  function Max(a: int, b: int): int { if a <= b then b else a }

  /** `Math.floor` unless the category allows fractional quantities. */
  function Whole(q: real, fractional: bool): real {
    if fractional then q else q.Floor as real
  }

  predicate IsWhole(q: real) { q == q.Floor as real }
}
