/**
 The eligibility query of a match pass: who may be asked, which row represents them, which at most eight rows
 the query returns, and what a pass makes of them.
 */
module Eligibility {
  import opened Domain
  import opened Ranking
  import opened Transactions
  import opened Invariants

  datatype UserStatus = ActiveUser | Restricted | Suspended | DeletedUser

  datatype User = User(status: UserStatus, canHelp: bool, canRequest: bool, suspendedUntil: Option<Time>, deleted: bool)

  datatype Membership = Membership(left: bool, banned: bool)

  datatype Availability = Availability(isOn: bool, until: Option<Time>)

  datatype Point = Point(lat: real, lng: real)

  datatype Location = Location(at: Point, expiresAt: Time)

  /** Keys of the last three tables are (user, event), those of `blocks` (blocker, blocked). */
  datatype Env = Env(
    users: map<Id, User>, members: map<(Id, Id), Membership>, availability: map<(Id, Id), Availability>,
    locations: map<(Id, Id), Location>, blocks: set<(Id, Id)>, metric: (Point, Point) -> real)

  const MAX_ACTIVE_MATCHES := 2
  const SHORTLIST_SIZE := 8

  // -------------------------------------------------------- WHERE conditions

  function LiveLocation(env: Env, u: Id, e: Id, now: Time): Option<Point> {
    if (u, e) in env.locations && env.locations[(u, e)].expiresAt > now then Some(env.locations[(u, e)].at) else None
  }

  function Distance(env: Env, q: Request, u: Id, now: Time): Option<real> {
    match (LiveLocation(env, u, q.event, now), LiveLocation(env, q.requester, q.event, now))
    case (Some(a), Some(b)) => Some(env.metric(a, b))
    case _ => None
  }

  /** With a live requester location the ring excludes farther helpers, and unlocated ones until it is at its maximum. */
  predicate InRing(env: Env, q: Request, u: Id, now: Time, maxRadius: int) {
    match (LiveLocation(env, q.requester, q.event, now), LiveLocation(env, u, q.event, now))
    case (None, _) => true
    case (Some(b), Some(a)) => env.metric(a, b) <= q.radius as real
    case (Some(_), None) => q.radius >= maxRadius
  }

  predicate IsAvailable(env: Env, u: Id, e: Id, now: Time) {
    (u, e) in env.availability && env.availability[(u, e)].isOn
    && (env.availability[(u, e)].until.None? || env.availability[(u, e)].until.value > now)
  }

  predicate IsMember(env: Env, u: Id, e: Id) {
    (u, e) in env.members && !env.members[(u, e)].left && !env.members[(u, e)].banned
  }

  predicate MayHelp(env: Env, u: Id) {
    u in env.users && env.users[u].status.ActiveUser? && env.users[u].canHelp && !env.users[u].deleted
  }

  predicate Blocked(env: Env, u: Id, v: Id) { (u, v) in env.blocks || (v, u) in env.blocks }

  function Available(item: Item): real { item.onHand - item.reserved }

  predicate UsableItem(db: Db, q: Request, u: Id, i: Id, now: Time) {
    i in db.items
    && db.items[i].owner == u && db.items[i].event == q.event && db.items[i].category == q.category && db.items[i].active
    && (db.items[i].expiresAt.None? || db.items[i].expiresAt.value > now)
    && Available(db.items[i]) > 0.0
  }

  function ActiveMatchesOf(ms: seq<Match>, u: Id): set<Id> {
    set k: Id | k < |ms| && ms[k].helper == u && ms[k].status.Active?
  }

  predicate EligibleHelper(db: Db, env: Env, r: Id, u: Id, now: Time, maxRadius: int)
    requires r in db.requests
  {
    var q := db.requests[r];
    && MayHelp(env, u) && IsMember(env, u, q.event) && IsAvailable(env, u, q.event, now)
    && u != q.requester && !Blocked(env, u, q.requester) && !Asked(db.offers, r, u)
    && |ActiveMatchesOf(db.matches, u)| < MAX_ACTIVE_MATCHES
    && InRing(env, q, u, now, maxRadius)
    && exists i :: i in db.items && UsableItem(db, q, u, i, now)
  }

  // --------------------------------------------------- DISTINCT ON and LIMIT

  /** The row of a helper: one of the usable items with the most available. */
  ghost predicate RowFor(db: Db, env: Env, r: Id, c: Candidate, now: Time)
    requires r in db.requests
  {
    var q := db.requests[r];
    && UsableItem(db, q, c.helper, c.item, now) && c.available == Available(db.items[c.item])
    && (forall i :: UsableItem(db, q, c.helper, i, now) ==> Available(db.items[i]) <= c.available)
    && c.distance == Distance(env, q, c.helper, now)
  }

  predicate Listed(cs: seq<Candidate>, u: Id) { exists c :: c in cs && c.helper == u }

  /**
   The query's answer: eligible helpers only, one row each, nearest first, at most eight, and a helper left out
   only if eight others are listed that are no farther.
   */
  ghost predicate IsShortlist(db: Db, env: Env, r: Id, now: Time, maxRadius: int, cs: seq<Candidate>)
    requires r in db.requests
  {
    && |cs| <= SHORTLIST_SIZE
    && (forall i :: 0 <= i < |cs| ==> EligibleHelper(db, env, r, cs[i].helper, now, maxRadius) && RowFor(db, env, r, cs[i], now))
    && (forall i, j :: 0 <= i < j < |cs| ==> cs[i].helper != cs[j].helper && NoFarther(cs[i].distance, cs[j].distance))
    && (forall u :: EligibleHelper(db, env, r, u, now, maxRadius) && !Listed(cs, u) ==>
          |cs| == SHORTLIST_SIZE && forall c :: c in cs ==> NoFarther(c.distance, Distance(env, db.requests[r], u, now)))
  }

  /** A query answer justifies every assumption the transactions make about the shortlist. */
  lemma {:induction false} ShortlistIsSound(db: Db, env: Env, r: Id, now: Time, maxRadius: int, cs: seq<Candidate>)
    requires r in db.requests && IsShortlist(db, env, r, now, maxRadius, cs)
    ensures ShortlistSound(db, r, cs) && ItemsTheirs(db, cs) && forall c :: c in cs ==> c.item in db.items
  {
    forall c | c in cs ensures !Asked(db.offers, r, c.helper) && c.helper != db.requests[r].requester
      && c.item in db.items && db.items[c.item].owner == c.helper
    {
      var i :| 0 <= i < |cs| && cs[i] == c;
      assert EligibleHelper(db, env, r, cs[i].helper, now, maxRadius);
    }
  }

  // ------------------------------------------------- what the conditions come to

  /** No two active matches of this helper. */
  predicate AtMostOneMatch(ms: seq<Match>, u: Id) {
    forall i, j :: 0 <= i < j < |ms| && ms[i].helper == u && ms[j].helper == u ==> !ms[i].status.Active? || !ms[j].status.Active?
  }

  lemma {:induction false} RoomExactly(ms: seq<Match>, u: Id)
    ensures |ActiveMatchesOf(ms, u)| < MAX_ACTIVE_MATCHES <==> AtMostOneMatch(ms, u)
  {
    var active := ActiveMatchesOf(ms, u);
    if i, j :| 0 <= i < j < |ms| && ms[i].helper == u && ms[j].helper == u && ms[i].status.Active? && ms[j].status.Active? {
      SubsetSize({i, j}, active);
    }
    if |active| >= 2 {
      var i, j := TwoOf(active);
      assert ms[i].helper == u && ms[j].helper == u;
    }
  }

  lemma {:induction false} TwoOf(s: set<Id>) returns (i: Id, j: Id)
    requires |s| >= 2
    ensures i in s && j in s && i < j
  {
    i :| i in s;
    assert |s - {i}| >= 1;
    j :| j in s - {i};
    if j < i { i, j := j, i; }
  }

  /** A location of `u` at `e` that has not expired. */
  predicate Located(env: Env, u: Id, e: Id, now: Time) { (u, e) in env.locations && env.locations[(u, e)].expiresAt > now }

  /** The metres between the two stored locations. */
  function Metres(env: Env, u: Id, v: Id, e: Id): real
    requires (u, e) in env.locations && (v, e) in env.locations
  {
    env.metric(env.locations[(u, e)].at, env.locations[(v, e)].at)
  }

  /** The conditions on a helper, read off the tables. */
  predicate StandingIsGood(env: Env, u: Id, e: Id, now: Time) {
    && u in env.users && env.users[u].status.ActiveUser? && env.users[u].canHelp && !env.users[u].deleted
    && (u, e) in env.members && !env.members[(u, e)].left && !env.members[(u, e)].banned
    && (u, e) in env.availability && env.availability[(u, e)].isOn
    && (match env.availability[(u, e)].until case None => true case Some(t) => t > now)
  }

  /** Active, unexpired stock of this owner, event and category with something not reserved. */
  predicate HasFree(item: Item, u: Id, e: Id, category: Id, now: Time) {
    && item.owner == u && item.event == e && item.category == category && item.active
    && (match item.expiresAt case None => true case Some(t) => t > now)
    && item.onHand > item.reserved
  }

  /**
   Who may be asked, exactly: in good standing, not the requester, not blocked either way, not asked before, in at most
   one active match, within the ring if both are located, located unless the requester is not or the ring is at its
   maximum, and with something of the category in stock.
   */
  lemma {:induction false} EligibleExactly(db: Db, env: Env, r: Id, u: Id, now: Time, maxRadius: int)
    requires r in db.requests
    ensures var q := db.requests[r];
      EligibleHelper(db, env, r, u, now, maxRadius) <==>
        && StandingIsGood(env, u, q.event, now)
        && u != q.requester && (u, q.requester) !in env.blocks && (q.requester, u) !in env.blocks
        && (forall o :: o in db.offers && db.offers[o].request == r ==> db.offers[o].helper != u)
        && AtMostOneMatch(db.matches, u)
        && (Located(env, q.requester, q.event, now) ==>
              if Located(env, u, q.event, now) then Metres(env, u, q.requester, q.event) <= q.radius as real
              else q.radius >= maxRadius)
        && exists i :: i in db.items && HasFree(db.items[i], u, q.event, q.category, now)
  {
    RoomExactly(db.matches, u);
    var q := db.requests[r];
    forall i ensures UsableItem(db, q, u, i, now) <==> i in db.items && HasFree(db.items[i], u, q.event, q.category, now) { }
    assert StandingIsGood(env, u, q.event, now) <==> MayHelp(env, u) && IsMember(env, u, q.event) && IsAvailable(env, u, q.event, now);
    assert Blocked(env, u, q.requester) <==> (u, q.requester) in env.blocks || (q.requester, u) in env.blocks;
    assert Asked(db.offers, r, u) <==> exists o :: o in db.offers && db.offers[o].request == r && db.offers[o].helper == u;
  }

  /** The ring keeps its promise for everyone listed, in terms of the distances the query returns. */
  lemma {:induction false} ListedWithinRing(db: Db, env: Env, r: Id, now: Time, maxRadius: int, cs: seq<Candidate>, c: Candidate)
    requires r in db.requests && IsShortlist(db, env, r, now, maxRadius, cs) && c in cs
    ensures var q := db.requests[r];
      && (c.distance.Some? ==> c.distance.value <= q.radius as real)
      && (c.distance.None? ==> !Located(env, q.requester, q.event, now) || q.radius >= maxRadius)
  {
    var i :| 0 <= i < |cs| && cs[i] == c;
    assert EligibleHelper(db, env, r, cs[i].helper, now, maxRadius) && RowFor(db, env, r, cs[i], now);
  }

  // ---------------------------------------------------------- the offer made

  lemma {:induction false} OfferQtyMonotone(remaining: real, a: real, b: real, fractional: bool)
    requires a <= b
    ensures OfferQty(remaining, a, fractional) <= OfferQty(remaining, b, fractional)
  {
    WholeMonotone(Min(remaining, a), Min(remaining, b), fractional);
  }

  lemma {:induction false} WholeMonotone(a: real, b: real, fractional: bool)
    requires a <= b
    ensures Whole(a, fractional) <= Whole(b, fractional)
  {
    assert a.Floor <= b.Floor;
  }

  /**
   Optimality: the winner minimises the drawn score among the listed helpers that can give something, and no
   single usable item of that helper would give more toward the remainder than the quantity asked for.
   */
  lemma {:induction false} OfferIsOptimal(db: Db, env: Env, p: PassInput, maxRadius: int)
    requires p.request in db.requests && |p.shortlist| <= |p.jitters|
    requires IsShortlist(db, env, p.request, p.now, maxRadius, p.shortlist)
    ensures var q := db.requests[p.request];
      PickFor(q, p).Some? ==>
        var w := PickFor(q, p).value;
        && (exists i: nat :: BestAt(p.shortlist, p.jitters, Remaining(q), p.fractional, i) && w.c == p.shortlist[i])
        && w.qty == OfferQty(Remaining(q), Available(db.items[w.c.item]), p.fractional)
        && forall i :: UsableItem(db, q, w.c.helper, i, p.now) ==>
             OfferQty(Remaining(q), Available(db.items[i]), p.fractional) <= w.qty
  {
    var q := db.requests[p.request];
    WinnerIsBest(p.shortlist, p.jitters, Remaining(q), p.fractional);
    if PickFor(q, p).Some? {
      var w := PickFor(q, p).value;
      assert RowFor(db, env, p.request, w.c, p.now);
      forall i | UsableItem(db, q, w.c.helper, i, p.now)
        ensures OfferQty(Remaining(q), Available(db.items[i]), p.fractional) <= w.qty
      {
        OfferQtyMonotone(Remaining(q), Available(db.items[i]), w.c.available, p.fractional);
      }
    }
  }

  // -------------------------------------------------------------- progress

  /** A pass that gets as far as the search: open, unexpired, event matching, no live offer. */
  predicate Searches(db: Db, p: PassInput)
    requires PassReadable(db, p)
  {
    && p.request in db.requests && IsOpen(db.requests[p.request].status) && db.requests[p.request].expiresAt > p.now
    && Matching(p.event)
    && !(db.requests[p.request].status.Offering? && p.open.Some? && db.offers[p.open.value].respondBy > p.now)
  }

  predicate MadeOffer(db: Db, p: PassInput)
    requires Legal(db, Pass(p))
  {
    p.newOffer in After(db, Pass(p)).offers
  }

  predicate SomeoneGives(p: PassInput, q: Request) {
    exists c :: c in p.shortlist && Gives(c, Remaining(q), p.fractional)
  }

  /** Somebody is picked exactly when somebody listed can give. */
  lemma {:induction false} PicksExactly(q: Request, p: PassInput)
    requires |p.shortlist| <= |p.jitters|
    ensures PickFor(q, p).Some? <==> SomeoneGives(p, q)
  {
    WinnerIsBest(p.shortlist, p.jitters, Remaining(q), p.fractional);
    if c :| c in p.shortlist && Gives(c, Remaining(q), p.fractional) {
      var i :| 0 <= i < |p.shortlist| && p.shortlist[i] == c;
    }
  }

  ghost predicate SearchReady(db: Db, p: PassInput) {
    Inv(db) && Legal(db, Pass(p)) && Searches(db, p) && forall c :: c in p.shortlist ==> c.item in db.items
  }

  /** A searching pass commits the search on tables in which its request is searching again without open offers. */
  lemma {:induction false} SearchRuns(db: Db, p: PassInput)
    requires SearchReady(db, p)
    ensures var q, db1 := db.requests[p.request], SweepOpen(db, p);
      && db1.requests[p.request] == q.(status := Searching) && db1.offers.Keys == db.offers.Keys
      && OpenOffers(db1.offers, p.request) == {}
      && Search(db1, p).Done? && Run(db, Pass(p)) == Search(db1, p)
      && PickFor(db1.requests[p.request], p) == PickFor(q, p)
  {
    SweepOpenKeepsInv(db, p);
    var db1 := SweepOpen(db, p);
    ShortlistSurvivesSweep(db, db1, p.request, p.shortlist);
    PickNotAsked(db1, p);
    forall o ensures o !in OpenOffers(db1.offers, p.request) { assert OfferSound(db1, o); }
  }

  /** A searching pass makes an offer exactly when a listed helper can give something. */
  lemma {:induction false} OfferedExactly(db: Db, p: PassInput)
    requires SearchReady(db, p)
    ensures MadeOffer(db, p) <==> SomeoneGives(p, db.requests[p.request])
    ensures MadeOffer(db, p) <==> PickFor(db.requests[p.request], p).Some?
  {
    SearchRuns(db, p);
    PicksExactly(db.requests[p.request], p);
  }

  /** After an offer: the new offer is the only open one, timed by the event, and counts one attempt; its timeout is owed. */
  lemma {:induction false} AfterOffer(db: Db, p: PassInput)
    requires SearchReady(db, p) && MadeOffer(db, p)
    ensures var q, db' := db.requests[p.request], After(db, Pass(p));
      && db'.requests[p.request] == q.(status := Offering, attempts := q.attempts + 1)
      && OpenOffers(db'.offers, p.request) == {p.newOffer}
      && db'.offers[p.newOffer].respondBy == p.now + p.event.value.responseSeconds * 1000
      && Run(db, Pass(p)) == Done(db', [Deadline(p.newOffer, db'.offers[p.newOffer].respondBy)])
  {
    SearchRuns(db, p);
    OfferedExactly(db, p);
    var db1, db' := SweepOpen(db, p), After(db, Pass(p));
    forall o ensures o in OpenOffers(db'.offers, p.request) <==> o == p.newOffer {
      assert o !in OpenOffers(db1.offers, p.request);
    }
  }

  /** No single usable item of helper `u` would give more toward the request than `qty`. */
  ghost predicate NoItemGivesMore(db: Db, q: Request, u: Id, now: Time, fractional: bool, qty: real) {
    forall i, x ::
      (UsableItem(db, q, u, i, now) && x <= Remaining(q) && x <= Available(db.items[i]) && (fractional || IsWhole(x))) ==> x <= qty
  }

  lemma {:induction false} PickQualifies(db: Db, env: Env, p: PassInput)
    requires p.request in db.requests && p.event.Some? && |p.shortlist| <= |p.jitters|
    requires IsShortlist(db, env, p.request, p.now, p.event.value.maxRadius, p.shortlist)
    requires PickFor(db.requests[p.request], p).Some?
    ensures var q, w := db.requests[p.request], PickFor(db.requests[p.request], p).value;
      && EligibleHelper(db, env, p.request, w.c.helper, p.now, p.event.value.maxRadius)
      && UsableItem(db, q, w.c.helper, w.c.item, p.now)
      && 0.0 < w.qty <= Remaining(q) && w.qty <= Available(db.items[w.c.item]) && (p.fractional || IsWhole(w.qty))
      && NoItemGivesMore(db, q, w.c.helper, p.now, p.fractional, w.qty)
  {
    ShortlistIsSound(db, env, p.request, p.now, p.event.value.maxRadius, p.shortlist);
    OfferIsOptimal(db, env, p, p.event.value.maxRadius);
    PickNotAsked(db, p);
    var q, w := db.requests[p.request], PickFor(db.requests[p.request], p).value;
    var k :| 0 <= k < |p.shortlist| && p.shortlist[k] == w.c;
    assert RowFor(db, env, p.request, p.shortlist[k], p.now);
    OfferQtyIsLargest(Remaining(q), Available(db.items[w.c.item]), p.fractional);
    forall i, x | UsableItem(db, q, w.c.helper, i, p.now) && x <= Remaining(q) && x <= Available(db.items[i])
      && (p.fractional || IsWhole(x)) ensures x <= w.qty
    {
      OfferQtyIsLargest(Remaining(q), Available(db.items[i]), p.fractional);
    }
  }

  /**
   What an offer promises: a helper who meets every condition at that moment, asked for the largest quantity within the
   need that some single usable item of theirs has free.
   */
  lemma {:induction false} OfferQualifies(db: Db, env: Env, p: PassInput)
    requires Inv(db) && Legal(db, Pass(p)) && Searches(db, p) && MadeOffer(db, p)
    requires IsShortlist(db, env, p.request, p.now, p.event.value.maxRadius, p.shortlist)
    ensures var q, f := db.requests[p.request], After(db, Pass(p)).offers[p.newOffer];
      && f.request == p.request && EligibleHelper(db, env, p.request, f.helper, p.now, p.event.value.maxRadius)
      && f.item in db.items && HasFree(db.items[f.item], f.helper, q.event, q.category, p.now)
      && 0.0 < f.qty <= Remaining(q) && f.qty <= db.items[f.item].onHand - db.items[f.item].reserved
      && (p.fractional || IsWhole(f.qty))
      && NoItemGivesMore(db, q, f.helper, p.now, p.fractional, f.qty)
  {
    ShortlistIsSound(db, env, p.request, p.now, p.event.value.maxRadius, p.shortlist);
    SearchRuns(db, p);
    OfferedExactly(db, p);
    PickQualifies(db, env, p);
  }

  /**
   After no offer: the request searches on, in twice the ring and at once, or at the event's maximum after twenty seconds.
   */
  lemma {:induction false} AfterNoOffer(db: Db, p: PassInput)
    requires SearchReady(db, p) && !MadeOffer(db, p)
    ensures var q, db' := db.requests[p.request], After(db, Pass(p));
      && OpenOffers(db'.offers, p.request) == {}
      && db'.requests[p.request] == q.(status := Searching,
           radius := if q.radius < p.event.value.maxRadius then MinInt(2 * q.radius, p.event.value.maxRadius) else q.radius)
      && Run(db, Pass(p)) == Done(db', [Rematch(p.request, if q.radius < p.event.value.maxRadius then 0 else 20_000)])
  {
    SearchRuns(db, p);
    OfferedExactly(db, p);
  }

  /** Every usable stock of the category is a whole number, or the category is fractional. */
  ghost predicate WholeStock(db: Db, q: Request, now: Time, fractional: bool) {
    fractional || forall u, i :: UsableItem(db, q, u, i, now) ==> IsWhole(Available(db.items[i]))
  }

  lemma {:induction false} WholeStockGives(db: Db, env: Env, p: PassInput, c: Candidate)
    requires p.request in db.requests && p.event.Some? && c in p.shortlist
    requires IsShortlist(db, env, p.request, p.now, p.event.value.maxRadius, p.shortlist)
    requires WholeStock(db, db.requests[p.request], p.now, p.fractional) && Remaining(db.requests[p.request]) >= 1.0
    ensures Gives(c, Remaining(db.requests[p.request]), p.fractional)
    ensures EligibleHelper(db, env, p.request, c.helper, p.now, p.event.value.maxRadius)
  {
    assert RowFor(db, env, p.request, c, p.now);
    assert c.available > 0.0 && (p.fractional || c.available >= 1.0);
  }

  /** Progress with whole-number quantities: an offer is made exactly when an eligible helper exists. */
  lemma {:induction false} WholeStockProgress(db: Db, env: Env, p: PassInput)
    requires Inv(db) && Legal(db, Pass(p)) && Searches(db, p)
    requires IsShortlist(db, env, p.request, p.now, p.event.value.maxRadius, p.shortlist)
    requires WholeStock(db, db.requests[p.request], p.now, p.fractional) && Remaining(db.requests[p.request]) >= 1.0
    ensures MadeOffer(db, p) <==> exists u :: EligibleHelper(db, env, p.request, u, p.now, p.event.value.maxRadius)
  {
    var q, max := db.requests[p.request], p.event.value.maxRadius;
    ShortlistIsSound(db, env, p.request, p.now, max, p.shortlist);
    OfferedExactly(db, p);
    if u :| EligibleHelper(db, env, p.request, u, p.now, max) {
      var c := p.shortlist[0];
      WholeStockGives(db, env, p, c);
      assert c in p.shortlist;
    }
    if MadeOffer(db, p) {
      var c :| c in p.shortlist && Gives(c, Remaining(q), p.fractional);
      WholeStockGives(db, env, p, c);
    }
  }

  // ------------------------------------------------------------ starvation

  /** An eligible helper with a usable item of at least one unit. */
  ghost predicate HasUnit(db: Db, env: Env, p: PassInput, u: Id)
    requires p.request in db.requests && p.event.Some?
  {
    && EligibleHelper(db, env, p.request, u, p.now, p.event.value.maxRadius)
    && exists i :: UsableItem(db, db.requests[p.request], u, i, p.now) && Available(db.items[i]) >= 1.0
  }

  /** Nobody is asked although somebody eligible has a unit to give. */
  ghost predicate Starved(db: Db, env: Env, p: PassInput)
    requires Legal(db, Pass(p)) && p.request in db.requests && p.event.Some?
  {
    !MadeOffer(db, p) && exists u :: HasUnit(db, env, p, u)
  }

  /** The shortlist is full of helpers with less than a unit. */
  predicate FullOfFractions(cs: seq<Candidate>) { |cs| == SHORTLIST_SIZE && forall c :: c in cs ==> c.available < 1.0 }

  /** A listed helper with a unit somewhere quotes at least a unit, and gives it to a whole-unit request. */
  lemma {:induction false} ListedUnitIsGiven(db: Db, env: Env, p: PassInput, u: Id)
    requires p.request in db.requests && p.event.Some? && !p.fractional && Remaining(db.requests[p.request]) >= 1.0
    requires IsShortlist(db, env, p.request, p.now, p.event.value.maxRadius, p.shortlist)
    requires HasUnit(db, env, p, u) && Listed(p.shortlist, u)
    ensures exists c :: c in p.shortlist && c.available >= 1.0 && Gives(c, Remaining(db.requests[p.request]), false)
  {
    var c :| c in p.shortlist && c.helper == u;
    assert RowFor(db, env, p.request, c, p.now);
    var i :| UsableItem(db, db.requests[p.request], u, i, p.now) && Available(db.items[i]) >= 1.0;
    assert c.available >= 1.0;
  }

  /**
   Starvation, exactly: for a whole-unit category with at least one unit needed, a searching pass asks nobody although
   an eligible helper has a unit, if and only if there is such a helper and the shortlist is full of helpers with less
   than a unit.
   */
  lemma {:induction false} StarvedExactly(db: Db, env: Env, p: PassInput)
    requires Inv(db) && Legal(db, Pass(p)) && Searches(db, p) && !p.fractional
    requires Remaining(db.requests[p.request]) >= 1.0
    requires IsShortlist(db, env, p.request, p.now, p.event.value.maxRadius, p.shortlist)
    ensures Starved(db, env, p) <==> FullOfFractions(p.shortlist) && exists u :: HasUnit(db, env, p, u)
  {
    ShortlistIsSound(db, env, p.request, p.now, p.event.value.maxRadius, p.shortlist);
    OfferedExactly(db, p);
    UnitsGive(p, db.requests[p.request]);
    if Starved(db, env, p) {
      var u :| HasUnit(db, env, p, u);
      LeftOutUnitFillsList(db, env, p, u);
    }
  }

  /** In a whole-unit category a listed helper gives exactly if it quotes at least a unit. */
  lemma {:induction false} UnitsGive(p: PassInput, q: Request)
    requires !p.fractional && Remaining(q) >= 1.0
    ensures SomeoneGives(p, q) <==> exists c :: c in p.shortlist && c.available >= 1.0
  {
    forall c | c in p.shortlist ensures Gives(c, Remaining(q), false) <==> c.available >= 1.0 { }
  }

  /** A helper with a unit can only be missed if eight others fill the list. */
  lemma {:induction false} LeftOutUnitFillsList(db: Db, env: Env, p: PassInput, u: Id)
    requires p.request in db.requests && p.event.Some? && !p.fractional && Remaining(db.requests[p.request]) >= 1.0
    requires IsShortlist(db, env, p.request, p.now, p.event.value.maxRadius, p.shortlist)
    requires HasUnit(db, env, p, u) && !SomeoneGives(p, db.requests[p.request])
    ensures |p.shortlist| == SHORTLIST_SIZE
  {
    if Listed(p.shortlist, u) { ListedUnitIsGiven(db, env, p, u); }
  }

  /** The eight that starve a helper are no farther than that helper. */
  lemma {:induction false} StarvedByNearer(db: Db, env: Env, p: PassInput, u: Id)
    requires Inv(db) && Legal(db, Pass(p)) && Searches(db, p) && !p.fractional
    requires Remaining(db.requests[p.request]) >= 1.0
    requires IsShortlist(db, env, p.request, p.now, p.event.value.maxRadius, p.shortlist)
    requires Starved(db, env, p) && HasUnit(db, env, p, u)
    ensures !Listed(p.shortlist, u)
    ensures forall c :: c in p.shortlist ==> NoFarther(c.distance, Distance(env, db.requests[p.request], u, p.now))
  {
    StarvedExactly(db, env, p);
    if Listed(p.shortlist, u) { ListedUnitIsGiven(db, env, p, u); }
  }

  // ------------------------------------------------------------- the ring

  /** A wider ring never drops a helper. */
  lemma {:induction false} RingMonotone(db: Db, env: Env, r: Id, u: Id, now: Time, maxRadius: int, radius: int)
    requires r in db.requests && db.requests[r].radius <= radius
    requires EligibleHelper(db, env, r, u, now, maxRadius)
    ensures EligibleHelper(WithRequest(db, r, db.requests[r].(radius := radius)), env, r, u, now, maxRadius)
  {
    var q := db.requests[r];
    var i :| i in db.items && UsableItem(db, q, u, i, now);
    assert UsableItem(WithRequest(db, r, q.(radius := radius)), q.(radius := radius), u, i, now);
  }

  function Pow2(k: nat): nat { if k == 0 then 1 else 2 * Pow2(k - 1) }

  function NextRing(radius: int, max: int): int { if radius < max then Widen(radius, max) else radius }

  /** The ring after `k` passes that find nobody. */
  function RingAfter(radius: int, max: int, k: nat): int
    decreases k
  {
    if k == 0 then radius else RingAfter(NextRing(radius, max), max, k - 1)
  }

  /** The ring doubles up to the event maximum, so it gets there after logarithmically many empty passes and stays. */
  lemma {:induction false} RingDoubles(radius: int, max: int, k: nat)
    requires 0 < radius <= max
    ensures RingAfter(radius, max, k) == MinInt(radius * Pow2(k), max)
    ensures radius <= RingAfter(radius, max, k) <= max
    ensures Pow2(k) * radius >= max ==> RingAfter(radius, max, k) == max
    decreases k
  {
    if k > 0 {
      var next, pow := NextRing(radius, max), Pow2(k - 1);
      RingDoubles(next, max, k - 1);
      Pow2Positive(k - 1);
      Doubling(radius, pow, max);
      ProductAtLeast(max, pow, max);
    }
  }

  lemma {:induction false} Doubling(radius: int, pow: nat, max: int)
    requires 0 < radius <= max && pow >= 1
    ensures radius * (2 * pow) == (radius * 2) * pow
    ensures radius * 2 >= max ==> (radius * 2) * pow >= max
  {
    assert radius * (2 * pow) == (radius * 2) * pow;
    if radius * 2 >= max { ProductAtLeast(radius * 2, pow, max); }
  }

  lemma {:induction false} ProductAtLeast(a: int, pow: nat, max: int)
    requires 0 < max <= a && pow >= 1
    ensures a * pow >= max
  {
    assert a * pow == a + a * (pow - 1);
  }

  lemma {:induction false} Pow2Positive(k: nat)
    ensures Pow2(k) >= 1
  {
    if k > 0 { Pow2Positive(k - 1); }
  }

  /** Consecutive passes on one request that all search and find nobody, under one event maximum. */
  ghost predicate EmptyPasses(db: Db, r: Id, max: int, ps: seq<PassInput>)
    decreases |ps|
  {
    ps != [] ==>
      && ps[0].request == r && Legal(db, Pass(ps[0])) && Searches(db, ps[0]) && ps[0].event.value.maxRadius == max
      && (forall c :: c in ps[0].shortlist ==> c.item in db.items) && !MadeOffer(db, ps[0])
      && EmptyPasses(After(db, Pass(ps[0])), r, max, ps[1..])
  }

  ghost function AfterEmpty(db: Db, r: Id, max: int, ps: seq<PassInput>): Db
    requires EmptyPasses(db, r, max, ps)
    decreases |ps|
  {
    if ps == [] then db else AfterEmpty(After(db, Pass(ps[0])), r, max, ps[1..])
  }

  lemma {:induction false} EmptyPassWidens(db: Db, r: Id, max: int, ps: seq<PassInput>)
    requires Inv(db) && r in db.requests && EmptyPasses(db, r, max, ps) && ps != []
    ensures Inv(After(db, Pass(ps[0]))) && r in After(db, Pass(ps[0])).requests
    ensures After(db, Pass(ps[0])).requests[r].radius == NextRing(db.requests[r].radius, max)
  {
    AfterNoOffer(db, ps[0]);
    TransactionKeepsInv(db, Pass(ps[0]));
  }

  /** Once 2^k times the ring covers the maximum, k empty passes have reached it: the request now asks everyone. */
  lemma {:induction false} EmptyPassesReachMaximum(db: Db, r: Id, max: int, ps: seq<PassInput>)
    requires Inv(db) && r in db.requests && EmptyPasses(db, r, max, ps) && 0 < db.requests[r].radius <= max
    ensures r in AfterEmpty(db, r, max, ps).requests
    ensures var radius' := AfterEmpty(db, r, max, ps).requests[r].radius;
      && radius' == RingAfter(db.requests[r].radius, max, |ps|)
      && radius' == MinInt(db.requests[r].radius * Pow2(|ps|), max)
      && (Pow2(|ps|) * db.requests[r].radius >= max ==> radius' == max)
    decreases |ps|
  {
    RingDoubles(db.requests[r].radius, max, |ps|);
    if ps != [] {
      EmptyPassWidens(db, r, max, ps);
      EmptyPassesReachMaximum(After(db, Pass(ps[0])), r, max, ps[1..]);
    }
  }
}
