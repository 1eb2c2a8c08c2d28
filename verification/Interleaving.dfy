/**
 The same transactions at the grain of their row-lock acquisitions.

 A running transaction holds a cache of the rows it has locked, as it read them when it got the lock,
 and remembers what it saw of the open offers and the active match of a request whose lock it holds.
 Locks are taken in any order, one row at a time, and held to commit; a lock held by another transaction
 cannot be taken. A commit computes from the cache, not from the tables, and installs only locked and new
 rows. A transaction may end at any point without effect: an early return, a thrown error, a crash or
 being chosen as a deadlock victim.

 The result is that every commit is the atomic transaction on the tables as they are at that moment, so
 every interleaving is equivalent to the serial run in commit order and keeps the invariant.
 */
module Interleaving {
  import opened Domain
  import opened Transactions
  import opened Invariants

  datatype Cache = Cache(
    requests: map<Id, Request>, offers: map<Id, Offer>, matches: map<Id, Match>, items: map<Id, Item>)

  /** `saw[r]` are the open offers of `r`, `sawMatch[r]` its active match, read while holding the lock on `r`. */
  datatype Txn = Txn(
    op: Op, cache: Cache, saw: map<Id, set<Id>>, sawMatch: map<Id, Option<Id>>, listed: bool)

  datatype State = State(db: Db, txns: map<Id, Txn>)

  const NO_LOCKS := Cache(map[], map[], map[], map[])

  // -------------------------------------------------------------- lock steps

  datatype Row = RequestRow(r: Id) | OfferRow(o: Id) | MatchRow(k: Id) | ItemRow(i: Id)

  predicate Holds(t: Txn, row: Row) {
    match row
    case RequestRow(r) => r in t.cache.requests
    case OfferRow(o) => o in t.cache.offers
    case MatchRow(k) => k in t.cache.matches
    case ItemRow(i) => i in t.cache.items
  }

  predicate Exists(db: Db, row: Row) {
    match row
    case RequestRow(r) => r in db.requests
    case OfferRow(o) => o in db.offers
    case MatchRow(k) => k < |db.matches|
    case ItemRow(i) => i in db.items
  }

  ghost predicate Free(s: State, row: Row) {
    forall t :: t in s.txns ==> !Holds(s.txns[t], row)
  }

  /** A row lock, explicit or taken by an update, on one free row. */
  function Locking(db: Db, t: Txn, row: Row): Txn
    requires Exists(db, row)
  {
    var c := t.cache;
    t.(cache := match row
      case RequestRow(r) => c.(requests := c.requests[r := db.requests[r]])
      case OfferRow(o) => c.(offers := c.offers[o := db.offers[o]])
      case MatchRow(k) => c.(matches := c.matches[k := db.matches[k]])
      case ItemRow(i) => c.(items := c.items[i := db.items[i]]))
  }

  /** Plain reads made under the lock of request `r`. */
  function Reading(db: Db, t: Txn, r: Id): Txn {
    t.(saw := t.saw[r := OpenOffers(db.offers, r)], sawMatch := t.sawMatch[r := ActiveMatch(db.matches, r)])
  }

  // ------------------------------------------------------------------ commit

  predicate OpenRowsLocked(t: Txn, r: Id) {
    r in t.cache.requests && r in t.saw
    && forall o :: o in t.saw[r] ==> o in t.cache.offers && IsOpenOffer(t.cache.offers[o], r)
  }

  predicate MatchRowsLocked(t: Txn, k: Id) {
    k in t.cache.matches && t.cache.matches[k].request in t.cache.requests && t.cache.matches[k].item in t.cache.items
  }

  /** The transaction has locked every row its program is about to write, judged by what it has read itself. */
  predicate Ready(t: Txn) {
    match t.op
    case Pass(p) =>
      |p.shortlist| <= |p.jitters| && t.listed && OpenRowsLocked(t, p.request)
      && (match p.open case None => t.saw[p.request] == {} case Some(o) => o in t.saw[p.request])
    case Timeout(o, _) => o in t.cache.offers && t.cache.offers[o].request in t.cache.requests
    case Decline(o, _, _) => o in t.cache.offers && t.cache.offers[o].request in t.cache.requests
    case Accept(o, _, _, _) =>
      o in t.cache.offers && t.cache.offers[o].request in t.cache.requests && t.cache.offers[o].item in t.cache.items
    case Cancel(k, _, _) => MatchRowsLocked(t, k)
    case Moderate(k) => MatchRowsLocked(t, k)
    case Confirm(k, _, _, _) => MatchRowsLocked(t, k)
    case AutoSettle(k) => MatchRowsLocked(t, k)
    case CancelRequest(r, _) =>
      r in t.cache.requests &&
      if t.cache.requests[r].status.Matched? then r in t.sawMatch && t.sawMatch[r].Some? && MatchRowsLocked(t, t.sawMatch[r].value)
      else OpenRowsLocked(t, r)
    case Renew(r, _, _, _) => r in t.cache.requests
    case Continue(r, _, _, _) => r in t.cache.requests
    case CloseAll(rs, to) => (to.Cancelled? || to.Moderated?) && forall r :: r in rs ==> OpenRowsLocked(t, r)
    case Edit(i, _, _, _) => i in t.cache.items
    case Remove(i, _) => i in t.cache.items
    case Create(_, _, _) => false
    case Add(_, _) => false
    case Zero(_) => false
    case Purge(_, _) => false
  }

  /** Single statements that lock and write in one go. */
  predicate IsStatement(op: Op) { op.Create? || op.Add? || op.Zero? || op.Purge? }

  ghost predicate StatementFree(s: State, op: Op) {
    match op
    case Zero(owner) => forall i :: i in s.db.items && s.db.items[i].owner == owner ==> Free(s, ItemRow(i))
    case Purge(_, _) => forall o :: o in Deletes(s.db, op) ==> Free(s, OfferRow(o))
    case _ => true
  }

  /** The tables as transaction `t` sees them: its locked rows as cached, the rest as committed. */
  function View(db: Db, c: Cache): Db {
    Db(db.requests + c.requests,
       db.offers + c.offers,
       seq(|db.matches|, k requires 0 <= k < |db.matches| => if k in c.matches then c.matches[k] else db.matches[k]),
       db.items + c.items)
  }

  /** Write back: locked rows and new rows from `res`, every other row as committed. */
  function Install(db: Db, res: Db, c: Cache): Db
    requires |db.matches| <= |res.matches|
  {
    Db(map r | r in db.requests.Keys + res.requests.Keys && (r in res.requests || r !in c.requests) ::
         if r in c.requests || r !in db.requests then res.requests[r] else db.requests[r],
       map o | o in db.offers.Keys + res.offers.Keys && (o in res.offers || o !in c.offers) ::
         if o in c.offers || o !in db.offers then res.offers[o] else db.offers[o],
       seq(|res.matches|, k requires 0 <= k < |res.matches| =>
         if k < |db.matches| && k !in c.matches then db.matches[k] else res.matches[k]),
       map i | i in db.items.Keys + res.items.Keys && (i in res.items || i !in c.items) ::
         if i in c.items || i !in db.items then res.items[i] else db.items[i])
  }

  /** What the database enforces at commit: a fresh primary key, and items that are still the helper's. */
  predicate KeysFit(db: Db, op: Op) {
    op.Pass? ==> op.input.newOffer !in db.offers && ItemsTheirs(db, op.input.shortlist)
  }

  ghost predicate Step(s: State, s': State) {
    || (exists t, op :: Begins(s, s', t, op))
    || (exists t, row :: Locks(s, s', t, row))
    || (exists t, r :: Reads(s, s', t, r))
    || (exists t :: Lists(s, s', t))
    || (exists t :: Commits(s, s', t))
    || (exists t :: Ends(s, s', t))
    || (exists op :: Executes(s, s', op))
  }

  ghost predicate Begins(s: State, s': State, t: Id, op: Op) {
    t !in s.txns && s' == s.(txns := s.txns[t := Txn(op, NO_LOCKS, map[], map[], false)])
  }

  ghost predicate Locks(s: State, s': State, t: Id, row: Row) {
    t in s.txns && Exists(s.db, row) && Free(s, row) && s' == s.(txns := s.txns[t := Locking(s.db, s.txns[t], row)])
  }

  ghost predicate Reads(s: State, s': State, t: Id, r: Id) {
    t in s.txns && r in s.txns[t].cache.requests && s' == s.(txns := s.txns[t := Reading(s.db, s.txns[t], r)])
  }

  /** The eligibility query of a pass, run under the request lock. */
  ghost predicate Lists(s: State, s': State, t: Id) {
    t in s.txns && s.txns[t].op.Pass? && s.txns[t].op.input.request in s.txns[t].cache.requests
    && ShortlistSound(s.db, s.txns[t].op.input.request, s.txns[t].op.input.shortlist)
    && s' == s.(txns := s.txns[t := s.txns[t].(listed := true)])
  }

  ghost predicate Commits(s: State, s': State, t: Id) {
    t in s.txns && Ready(s.txns[t]) && KeysFit(s.db, s.txns[t].op)
    && var v := View(s.db, s.txns[t].cache);
       Legal(v, s.txns[t].op) && |s.db.matches| <= |After(v, s.txns[t].op).matches|
       && s' == State(Install(s.db, After(v, s.txns[t].op), s.txns[t].cache), s.txns - {t})
  }

  ghost predicate Ends(s: State, s': State, t: Id) {
    t in s.txns && s' == s.(txns := s.txns - {t})
  }

  ghost predicate Executes(s: State, s': State, op: Op) {
    IsStatement(op) && Legal(s.db, op) && StatementFree(s, op) && s' == s.(db := After(s.db, op))
  }

  // --------------------------------------------------------------- invariant

  /** A cached row is the committed row; what was seen under a request lock still bounds what is there. */
  ghost predicate Fresh(db: Db, t: Txn) {
    && (forall r {:trigger r in t.cache.requests} :: r in t.cache.requests ==> r in db.requests && db.requests[r] == t.cache.requests[r])
    && (forall o {:trigger o in t.cache.offers} :: o in t.cache.offers ==> o in db.offers && db.offers[o] == t.cache.offers[o])
    && (forall k {:trigger k in t.cache.matches} :: k in t.cache.matches ==> k < |db.matches| && db.matches[k] == t.cache.matches[k])
    && (forall i {:trigger i in t.cache.items} :: i in t.cache.items ==> i in db.items && db.items[i] == t.cache.items[i])
    && (forall r {:trigger r in t.saw} :: r in t.saw ==> r in t.cache.requests && OpenOffers(db.offers, r) <= t.saw[r])
    && (forall r {:trigger r in t.sawMatch} :: r in t.sawMatch ==> r in t.cache.requests && ActiveMatch(db.matches, r) == t.sawMatch[r])
    && (t.listed ==>
          t.op.Pass? && t.op.input.request in t.cache.requests
          && ShortlistSound(db, t.op.input.request, t.op.input.shortlist))
  }

  ghost predicate Exclusive(a: Txn, b: Txn) {
    a.cache.requests.Keys !! b.cache.requests.Keys && a.cache.offers.Keys !! b.cache.offers.Keys
    && a.cache.matches.Keys !! b.cache.matches.Keys && a.cache.items.Keys !! b.cache.items.Keys
  }

  ghost predicate FreshAt(s: State, t: Id) { t in s.txns ==> Fresh(s.db, s.txns[t]) }

  ghost predicate ExclusiveAt(s: State, t: Id, u: Id) {
    t in s.txns && u in s.txns && t != u ==> Exclusive(s.txns[t], s.txns[u])
  }

  ghost predicate FineInv(s: State) {
    && Inv(s.db)
    && (forall t {:trigger FreshAt(s, t)} :: FreshAt(s, t))
    && (forall t, u {:trigger ExclusiveAt(s, t, u)} :: ExclusiveAt(s, t, u))
  }

  // ------------------------------------------- what a commit may have changed

  ghost predicate RequestFramed(db: Db, db': Db, c: Cache, r: Id) {
    r in db.requests && r !in c.requests ==> r in db'.requests && db'.requests[r] == db.requests[r]
  }

  ghost predicate OfferFramed(db: Db, db': Db, c: Cache, o: Id) {
    && (o in db.offers ==>
          && o in db'.offers && db'.offers[o].request == db.offers[o].request && db'.offers[o].helper == db.offers[o].helper
          && (o !in c.offers || db.offers[o].request !in c.requests ==> db'.offers[o] == db.offers[o]))
    && (o in db'.offers && o !in db.offers ==> db'.offers[o].request in c.requests)
  }

  ghost predicate MatchFramed(db: Db, db': Db, c: Cache, k: Id) {
    && (k < |db.matches| && k < |db'.matches| ==>
          && db'.matches[k].request == db.matches[k].request
          && (k !in c.matches || db.matches[k].request !in c.requests ==> db'.matches[k] == db.matches[k]))
    && (|db.matches| <= k < |db'.matches| ==> db'.matches[k].request in c.requests)
  }

  ghost predicate ItemFramed(db: Db, db': Db, c: Cache, i: Id) {
    i in db.items && i !in c.items ==> i in db'.items && db'.items[i] == db.items[i]
  }

  /** Only rows locked in `c`, or new rows of locked requests, differ. */
  ghost predicate Framed(db: Db, db': Db, c: Cache) {
    && |db.matches| <= |db'.matches|
    && (forall r {:trigger RequestFramed(db, db', c, r)} :: RequestFramed(db, db', c, r))
    && (forall o {:trigger OfferFramed(db, db', c, o)} :: OfferFramed(db, db', c, o))
    && (forall k {:trigger MatchFramed(db, db', c, k)} :: MatchFramed(db, db', c, k))
    && (forall i {:trigger ItemFramed(db, db', c, i)} :: ItemFramed(db, db', c, i))
  }

  /** Observed open offers that are locked and still open are all the open offers there are. */
  lemma {:induction false} OpenRowsAreAll(db: Db, t: Txn, r: Id)
    requires Fresh(db, t) && OpenRowsLocked(t, r)
    ensures OpenOffers(db.offers, r) == t.saw[r] && r in db.requests
    ensures forall o :: o in OpenOffers(db.offers, r) ==> o in t.cache.offers
  {
  }

  /** A pass touches the open offers of its request and adds at most one row. */
  ghost predicate PassTouches(db: Db, db': Db, r: Id, o: Id) {
    && (o in db.offers ==>
          && o in db'.offers && db'.offers[o].request == db.offers[o].request && db'.offers[o].helper == db.offers[o].helper
          && (o !in OpenOffers(db.offers, r) ==> db'.offers[o] == db.offers[o]))
    && (o in db'.offers && o !in db.offers ==> db'.offers[o].request == r)
  }

  lemma {:induction false} SearchTouches(db: Db, p: PassInput, o: Id)
    requires |p.shortlist| <= |p.jitters| && p.request in db.requests && Matching(p.event) && p.newOffer !in db.offers
    ensures Search(db, p).Done? ==>
      var db' := Search(db, p).db;
      && (o in db.offers ==> o in db'.offers && db'.offers[o] == db.offers[o])
      && (o in db'.offers && o !in db.offers ==> db'.offers[o].request == p.request)
  {
  }

  lemma {:induction false} PassTouchesOwn(db: Db, p: PassInput, o: Id)
    requires Legal(db, Pass(p))
    ensures PassTouches(db, After(db, Pass(p)), p.request, o)
  {
    if p.request in db.requests && Matching(p.event) { SearchTouches(SweepOpen(db, p), p, o); }
  }

  lemma {:induction false} PassFramed(db: Db, t: Txn)
    requires Inv(db) && Fresh(db, t) && t.op.Pass? && Ready(t) && Legal(db, t.op)
    ensures Framed(db, After(db, t.op), t.cache)
  {
    var p := t.op.input;
    OpenRowsAreAll(db, t, p.request);
    var db' := After(db, t.op);
    PassKeepsRest(db, p);
    forall r ensures RequestFramed(db, db', t.cache, r) { }
    forall o ensures OfferFramed(db, db', t.cache, o) { PassTouchesOwn(db, p, o); }
    forall k: Id ensures MatchFramed(db, db', t.cache, k) { }
    forall i ensures ItemFramed(db, db', t.cache, i) { }
  }

  lemma {:induction false} PassKeepsRest(db: Db, p: PassInput)
    requires Legal(db, Pass(p))
    ensures var db' := After(db, Pass(p));
      && db'.matches == db.matches && db'.items == db.items && db'.requests.Keys == db.requests.Keys
      && forall r :: r in db.requests && r != p.request ==> db'.requests[r] == db.requests[r]
  {
  }

  lemma {:induction false} AcceptFramed(db: Db, t: Txn)
    requires Inv(db) && Fresh(db, t) && Ready(t) && t.op.Accept?
    ensures Framed(db, After(db, t.op), t.cache)
  {
    var db' := After(db, t.op);
    forall r ensures RequestFramed(db, db', t.cache, r) { }
    forall o ensures OfferFramed(db, db', t.cache, o) { }
    forall k: Id ensures MatchFramed(db, db', t.cache, k) { }
    forall i ensures ItemFramed(db, db', t.cache, i) { }
  }

  lemma {:induction false} AnswerFramed(db: Db, t: Txn)
    requires Inv(db) && Fresh(db, t) && Ready(t) && (t.op.Timeout? || t.op.Decline?)
    ensures Framed(db, After(db, t.op), t.cache)
  {
    var db' := After(db, t.op);
    forall r ensures RequestFramed(db, db', t.cache, r) { }
    forall o ensures OfferFramed(db, db', t.cache, o) { }
    forall k: Id ensures MatchFramed(db, db', t.cache, k) { }
    forall i ensures ItemFramed(db, db', t.cache, i) { }
  }

  lemma {:induction false} ModerateFramed(db: Db, t: Txn)
    requires Inv(db) && Fresh(db, t) && Ready(t) && t.op.Moderate?
    ensures Framed(db, After(db, t.op), t.cache)
  {
    var db' := After(db, t.op);
    forall r ensures RequestFramed(db, db', t.cache, r) { }
    forall o ensures OfferFramed(db, db', t.cache, o) { }
    forall k: Id ensures MatchFramed(db, db', t.cache, k) { }
    forall i ensures ItemFramed(db, db', t.cache, i) { }
  }

  lemma {:induction false} MatchCancelFramed(db: Db, t: Txn)
    requires Inv(db) && Fresh(db, t) && Ready(t) && t.op.Cancel?
    ensures Framed(db, After(db, t.op), t.cache)
  {
    var db' := After(db, t.op);
    forall r ensures RequestFramed(db, db', t.cache, r) { }
    forall o ensures OfferFramed(db, db', t.cache, o) { }
    forall k: Id ensures MatchFramed(db, db', t.cache, k) { }
    forall i ensures ItemFramed(db, db', t.cache, i) { }
  }

  lemma {:induction false} ConfirmFramed(db: Db, t: Txn)
    requires Inv(db) && Fresh(db, t) && Ready(t) && t.op.Confirm?
    ensures Framed(db, After(db, t.op), t.cache)
  {
    var db' := After(db, t.op);
    forall r ensures RequestFramed(db, db', t.cache, r) { }
    forall o ensures OfferFramed(db, db', t.cache, o) { }
    forall k: Id ensures MatchFramed(db, db', t.cache, k) { }
    forall i ensures ItemFramed(db, db', t.cache, i) { }
  }

  lemma {:induction false} SettleFramed(db: Db, t: Txn)
    requires Inv(db) && Fresh(db, t) && Ready(t) && t.op.AutoSettle?
    ensures Framed(db, After(db, t.op), t.cache)
  {
    var db' := After(db, t.op);
    forall r ensures RequestFramed(db, db', t.cache, r) { }
    forall o ensures OfferFramed(db, db', t.cache, o) { }
    forall k: Id ensures MatchFramed(db, db', t.cache, k) { }
    forall i ensures ItemFramed(db, db', t.cache, i) { }
  }

  lemma {:induction false} RenewalFramed(db: Db, t: Txn)
    requires Fresh(db, t) && Ready(t) && (t.op.Renew? || t.op.Continue?)
    ensures Framed(db, After(db, t.op), t.cache)
  {
    var db' := After(db, t.op);
    forall r ensures RequestFramed(db, db', t.cache, r) { }
    forall o ensures OfferFramed(db, db', t.cache, o) { }
    forall k: Id ensures MatchFramed(db, db', t.cache, k) { }
    forall i ensures ItemFramed(db, db', t.cache, i) { }
  }

  lemma {:induction false} CancelRequestFramed(db: Db, t: Txn)
    requires Inv(db) && Fresh(db, t) && Ready(t) && t.op.CancelRequest?
    ensures Framed(db, After(db, t.op), t.cache)
  {
    var db' := After(db, t.op);
    var r0 := t.op.request;
    if !t.cache.requests[r0].status.Matched? { OpenRowsAreAll(db, t, r0); }
    forall r ensures RequestFramed(db, db', t.cache, r) { }
    forall o ensures OfferFramed(db, db', t.cache, o) {
      assert o in OpenOffers(db.offers, r0) <==> o in db.offers && IsOpenOffer(db.offers[o], r0);
    }
    forall k: Id ensures MatchFramed(db, db', t.cache, k) { }
    forall i ensures ItemFramed(db, db', t.cache, i) { }
  }

  lemma {:induction false} CloseAllFramed(db: Db, t: Txn)
    requires Inv(db) && Fresh(db, t) && Ready(t) && t.op.CloseAll?
    ensures Framed(db, After(db, t.op), t.cache)
  {
    var db' := After(db, t.op);
    forall r ensures RequestFramed(db, db', t.cache, r) { }
    forall o ensures OfferFramed(db, db', t.cache, o) {
      if o in db.offers && db.offers[o].request in t.op.requests {
        OpenRowsAreAll(db, t, db.offers[o].request);
        assert o in OpenOffers(db.offers, db.offers[o].request) <==> db.offers[o].status.Offered?;
      }
    }
    forall k: Id ensures MatchFramed(db, db', t.cache, k) { }
    forall i ensures ItemFramed(db, db', t.cache, i) { }
  }

  lemma {:induction false} ItemOpFramed(db: Db, t: Txn)
    requires Fresh(db, t) && Ready(t) && (t.op.Edit? || t.op.Remove?)
    ensures Framed(db, After(db, t.op), t.cache)
  {
    var db' := After(db, t.op);
    forall r ensures RequestFramed(db, db', t.cache, r) { }
    forall o ensures OfferFramed(db, db', t.cache, o) { }
    forall k: Id ensures MatchFramed(db, db', t.cache, k) { }
    forall i ensures ItemFramed(db, db', t.cache, i) { }
  }

  /** Every transaction writes only rows it has locked. */
  lemma {:induction false} CommitFramed(db: Db, t: Txn)
    requires Inv(db) && Fresh(db, t) && Ready(t) && Legal(db, t.op)
    ensures Framed(db, After(db, t.op), t.cache)
  {
    if t.op.Pass? { PassFramed(db, t); }
    else if t.op.Timeout? || t.op.Decline? { AnswerFramed(db, t); }
    else if t.op.Accept? { AcceptFramed(db, t); }
    else if t.op.Cancel? { MatchCancelFramed(db, t); }
    else if t.op.Moderate? { ModerateFramed(db, t); }
    else if t.op.Confirm? { ConfirmFramed(db, t); }
    else if t.op.AutoSettle? { SettleFramed(db, t); }
    else if t.op.CancelRequest? { CancelRequestFramed(db, t); }
    else if t.op.Renew? || t.op.Continue? { RenewalFramed(db, t); }
    else if t.op.CloseAll? { CloseAllFramed(db, t); }
    else { ItemOpFramed(db, t); }
  }

  // --------------------------------------------------- a commit is the atomic op

  /** Local reads justify the queries: what the transaction decided on still holds at commit. */
  lemma {:induction false} ReadyIsLegal(db: Db, t: Txn)
    requires Fresh(db, t) && Ready(t) && KeysFit(db, t.op)
    ensures Legal(db, t.op)
  {
    if t.op.Pass? { OpenRowsAreAll(db, t, t.op.input.request); }
  }

  lemma {:induction false} ViewIsDb(db: Db, t: Txn)
    requires Fresh(db, t)
    ensures View(db, t.cache) == db
  {
    var v := View(db, t.cache);
    assert v.requests == db.requests;
    assert v.offers == db.offers;
    assert v.matches == db.matches;
    assert v.items == db.items;
  }

  lemma {:induction false} InstallIsResult(db: Db, res: Db, c: Cache)
    requires Framed(db, res, c)
    ensures Install(db, res, c) == res
  {
    var got := Install(db, res, c);
    forall r ensures r in got.requests <==> r in res.requests { assert RequestFramed(db, res, c, r); }
    forall r | r in res.requests ensures got.requests[r] == res.requests[r] { assert RequestFramed(db, res, c, r); }
    assert got.requests == res.requests;
    forall o ensures o in got.offers <==> o in res.offers { assert OfferFramed(db, res, c, o); }
    forall o | o in res.offers ensures got.offers[o] == res.offers[o] { assert OfferFramed(db, res, c, o); }
    assert got.offers == res.offers;
    forall k: Id | k < |res.matches| ensures got.matches[k] == res.matches[k] { assert MatchFramed(db, res, c, k); }
    assert got.matches == res.matches;
    forall i ensures i in got.items <==> i in res.items { assert ItemFramed(db, res, c, i); }
    forall i | i in res.items ensures got.items[i] == res.items[i] { assert ItemFramed(db, res, c, i); }
    assert got.items == res.items;
  }

  /** The heart of it: a commit computed from cached rows is the atomic transaction on the committed tables. */
  lemma {:induction false} CommitIsAtomic(db: Db, t: Txn)
    requires Inv(db) && Fresh(db, t) && Ready(t) && KeysFit(db, t.op)
    ensures View(db, t.cache) == db && Legal(db, t.op)
    ensures Framed(db, After(db, t.op), t.cache)
    ensures Install(db, After(db, t.op), t.cache) == After(db, t.op)
  {
    ViewIsDb(db, t);
    ReadyIsLegal(db, t);
    CommitFramed(db, t);
    InstallIsResult(db, After(db, t.op), t.cache);
  }

  // ------------------------------------------------------ others stay fresh

  lemma {:induction false} ActiveMatchSame(ms: seq<Match>, ms': seq<Match>, r: Id)
    requires |ms| <= |ms'|
    requires forall k :: 0 <= k < |ms| ==>
      ms'[k].request == ms[k].request && (ms[k].request == r ==> ms'[k] == ms[k])
    requires forall k :: |ms| <= k < |ms'| ==> ms'[k].request != r
    ensures ActiveMatch(ms', r) == ActiveMatch(ms, r)
  {
    if ms' != [] {
      var n := |ms'| - 1;
      if |ms| <= n {
        ActiveMatchSame(ms, ms'[..n], r);
      } else {
        ActiveMatchSame(ms[..n], ms'[..n], r);
      }
    }
  }

  /** A commit of one transaction leaves every other transaction's reads true. */
  lemma {:induction false} OthersStayFresh(db: Db, db': Db, c: Cache, u: Txn)
    requires Framed(db, db', c) && Fresh(db, u)
    requires c.requests.Keys !! u.cache.requests.Keys && c.offers.Keys !! u.cache.offers.Keys
    requires c.matches.Keys !! u.cache.matches.Keys && c.items.Keys !! u.cache.items.Keys
    ensures Fresh(db', u)
  {
    forall r | r in u.cache.requests ensures r in db'.requests && db'.requests[r] == u.cache.requests[r] {
      assert RequestFramed(db, db', c, r);
    }
    forall o | o in u.cache.offers ensures o in db'.offers && db'.offers[o] == u.cache.offers[o] {
      assert OfferFramed(db, db', c, o);
    }
    forall k | k in u.cache.matches ensures k < |db'.matches| && db'.matches[k] == u.cache.matches[k] {
      assert MatchFramed(db, db', c, k);
    }
    forall i | i in u.cache.items ensures i in db'.items && db'.items[i] == u.cache.items[i] {
      assert ItemFramed(db, db', c, i);
    }
    forall r | r in u.saw ensures OpenOffers(db'.offers, r) <= u.saw[r] {
      forall o | o in OpenOffers(db'.offers, r) ensures o in OpenOffers(db.offers, r) { assert OfferFramed(db, db', c, o); }
    }
    forall r | r in u.sawMatch ensures ActiveMatch(db'.matches, r) == u.sawMatch[r] {
      forall k: Id | k < |db'.matches|
        ensures k < |db.matches| ==> db'.matches[k].request == db.matches[k].request && (db.matches[k].request == r ==> db'.matches[k] == db.matches[k])
        ensures |db.matches| <= k ==> db'.matches[k].request != r
      {
        assert MatchFramed(db, db', c, k);
      }
      ActiveMatchSame(db.matches, db'.matches, r);
    }
    if u.listed { ListStaysSound(db, db', c, u); }
  }

  lemma {:induction false} ListStaysSound(db: Db, db': Db, c: Cache, u: Txn)
    requires Framed(db, db', c) && Fresh(db, u) && u.listed
    requires c.requests.Keys !! u.cache.requests.Keys
    ensures ShortlistSound(db', u.op.input.request, u.op.input.shortlist)
  {
    var r := u.op.input.request;
    assert RequestFramed(db, db', c, r);
    forall x | x in u.op.input.shortlist
      ensures Asked(db'.offers, r, x.helper) ==> Asked(db.offers, r, x.helper)
    {
      forall o ensures o in db'.offers && db'.offers[o].request == r ==> o in db.offers { assert OfferFramed(db, db', c, o); }
      forall o ensures o in db.offers ==> o in db'.offers && db'.offers[o].helper == db.offers[o].helper && db'.offers[o].request == db.offers[o].request {
        assert OfferFramed(db, db', c, o);
      }
    }
  }

  /** Purging, inserting and zeroing statements leave running transactions fresh when the rows they write are free. */
  lemma {:induction false} StatementKeepsFresh(s: State, op: Op, u: Id)
    requires FineInv(s) && IsStatement(op) && Legal(s.db, op) && StatementFree(s, op) && u in s.txns
    ensures Fresh(After(s.db, op), s.txns[u])
  {
    assert FreshAt(s, u);
    var t, db' := s.txns[u], After(s.db, op);
    forall o | o in t.cache.offers ensures o in db'.offers && db'.offers[o] == s.db.offers[o] {
      assert Holds(t, OfferRow(o)) && (o in Deletes(s.db, op) ==> Free(s, OfferRow(o)));
    }
    forall i | i in t.cache.items ensures i in db'.items && db'.items[i] == s.db.items[i] {
      assert Holds(t, ItemRow(i)) && (op.Zero? && s.db.items[i].owner == op.owner ==> Free(s, ItemRow(i)));
    }
    forall r | r in t.saw ensures OpenOffers(db'.offers, r) <= t.saw[r] {
      assert OpenOffers(db'.offers, r) <= OpenOffers(s.db.offers, r);
    }
    assert db'.matches == s.db.matches;
  }

  // ------------------------------------------------------------ the theorems

  lemma {:induction false} LockKeepsFineInv(s: State, s': State, t: Id, row: Row)
    requires FineInv(s) && Locks(s, s', t, row)
    ensures FineInv(s')
  {
    LockKeepsFresh(s, s', t, row);
    forall u, v ensures ExclusiveAt(s', u, v) { LockKeepsExclusive(s, s', t, row, u, v); }
  }

  lemma {:induction false} LockKeepsExclusive(s: State, s': State, t: Id, row: Row, u: Id, v: Id)
    requires FineInv(s) && Locks(s, s', t, row)
    ensures ExclusiveAt(s', u, v)
  {
    assert ExclusiveAt(s, u, v);
    if u in s.txns && v in s.txns && u != v {
      assert !Holds(s.txns[u], row) && !Holds(s.txns[v], row);
    }
  }

  lemma {:induction false} LockKeepsFresh(s: State, s': State, t: Id, row: Row)
    requires FineInv(s) && Locks(s, s', t, row)
    ensures forall u {:trigger FreshAt(s', u)} :: FreshAt(s', u)
  {
    forall u ensures FreshAt(s', u) { assert FreshAt(s, u); }
  }

  lemma {:induction false} CommitKeepsFineInv(s: State, s': State, t: Id)
    requires FineInv(s) && Commits(s, s', t)
    ensures FineInv(s') && Legal(s.db, s.txns[t].op) && s'.db == After(s.db, s.txns[t].op)
  {
    CommitInstalls(s, s', t);
    TransactionKeepsInv(s.db, s.txns[t].op);
    forall u ensures FreshAt(s', u) {
      if u in s'.txns {
        assert FreshAt(s, u) && ExclusiveAt(s, t, u);
        OthersStayFresh(s.db, s'.db, s.txns[t].cache, s.txns[u]);
      }
    }
    forall u, v ensures ExclusiveAt(s', u, v) { assert ExclusiveAt(s, u, v); }
  }

  lemma {:induction false} CommitInstalls(s: State, s': State, t: Id)
    requires FineInv(s) && Commits(s, s', t)
    ensures Legal(s.db, s.txns[t].op) && s'.db == After(s.db, s.txns[t].op) && s'.txns == s.txns - {t}
    ensures Framed(s.db, s'.db, s.txns[t].cache)
  {
    assert FreshAt(s, t);
    CommitIsAtomic(s.db, s.txns[t]);
  }

  lemma {:induction false} StatementKeepsFineInv(s: State, s': State, op: Op)
    requires FineInv(s) && Executes(s, s', op)
    ensures FineInv(s')
  {
    TransactionKeepsInv(s.db, op);
    forall u ensures FreshAt(s', u) { if u in s.txns { StatementKeepsFresh(s, op, u); } }
    forall u, v ensures ExclusiveAt(s', u, v) { assert ExclusiveAt(s, u, v); }
  }

  /** Steps that only move a transaction along. */
  lemma {:induction false} LocalKeepsFineInv(s: State, s': State)
    requires FineInv(s)
    requires (exists t, op :: Begins(s, s', t, op)) || (exists t :: Lists(s, s', t)) || (exists t :: Ends(s, s', t))
    ensures FineInv(s') && s'.db == s.db
  {
    forall u ensures FreshAt(s', u) { assert FreshAt(s, u); }
    forall u, v ensures ExclusiveAt(s', u, v) { assert ExclusiveAt(s, u, v); }
  }

  lemma {:induction false} ReadKeepsFineInv(s: State, s': State, t: Id, r: Id)
    requires FineInv(s) && Reads(s, s', t, r)
    ensures FineInv(s') && s'.db == s.db
  {
    forall u ensures FreshAt(s', u) { assert FreshAt(s, u); }
    forall u, v ensures ExclusiveAt(s', u, v) { assert ExclusiveAt(s, u, v); }
  }

  /**
   Each step of the interleaved system keeps the invariant and either leaves the tables alone or
   changes them exactly as one legal atomic transaction would.
   */
  lemma {:induction false} StepRefines(s: State, s': State)
    requires FineInv(s) && Step(s, s')
    ensures FineInv(s')
    ensures s'.db == s.db || SerialStep(s.db, s'.db)
  {
    if t :| Commits(s, s', t) {
      CommitKeepsFineInv(s, s', t);
    } else if t, row :| Locks(s, s', t, row) {
      LockKeepsFineInv(s, s', t, row);
    } else if t, r :| Reads(s, s', t, r) {
      ReadKeepsFineInv(s, s', t, r);
    } else if op :| Executes(s, s', op) {
      StatementKeepsFineInv(s, s', op);
    } else {
      LocalKeepsFineInv(s, s');
    }
  }

  ghost predicate IsRun(run: seq<State>) {
    |run| > 0 && forall i {:trigger run[i]} :: 0 < i < |run| ==> Step(run[i - 1], run[i])
  }

  ghost predicate SerialStep(db: Db, db': Db) {
    exists op :: Legal(db, op) && db' == After(db, op)
  }

  /** The tables a serial sequence of atomic transactions passes through. */
  ghost predicate SerialRun(dbs: seq<Db>) {
    |dbs| > 0 && forall i {:trigger dbs[i]} :: 0 < i < |dbs| ==> SerialStep(dbs[i - 1], dbs[i])
  }

  /** Safety: from a quiet sound state, every state of every interleaving has sound committed tables. */
  lemma {:induction false} InterleavingsKeepInv(run: seq<State>, i: nat)
    requires IsRun(run) && Inv(run[0].db) && run[0].txns == map[] && i < |run|
    ensures FineInv(run[i])
  {
    if i > 0 {
      InterleavingsKeepInv(run, i - 1);
      StepRefines(run[i - 1], run[i]);
    }
  }

  /** In particular: at most one open offer per request at any time, and one only while the request is offering. */
  lemma {:induction false} OpenOfferSafety(run: seq<State>, i: nat, r: Id)
    requires IsRun(run) && Inv(run[0].db) && run[0].txns == map[] && i < |run|
    ensures |OpenOffers(run[i].db.offers, r)| <= 1
    ensures OpenOffers(run[i].db.offers, r) != {} ==> r in run[i].db.requests && run[i].db.requests[r].status.Offering?
  {
    InterleavingsKeepInv(run, i);
    var db := run[i].db;
    if o :| o in OpenOffers(db.offers, r) {
      assert OfferSound(db, o);
      forall p | p in OpenOffers(db.offers, r) ensures p == o { assert OffersApart(db.offers, o, p); }
      assert OpenOffers(db.offers, r) == {o};
    }
  }

  lemma {:induction false} ExtendSerial(dbs: seq<Db>, db: Db)
    requires SerialRun(dbs) && SerialStep(dbs[|dbs| - 1], db)
    ensures SerialRun(dbs + [db])
  {
  }

  /** Serializability: the final tables of an interleaving are those of some serial run from the same start. */
  lemma {:induction false} InterleavingsSerialize(run: seq<State>, n: nat) returns (dbs: seq<Db>)
    requires IsRun(run) && Inv(run[0].db) && run[0].txns == map[] && n < |run|
    ensures SerialRun(dbs) && dbs[0] == run[0].db && dbs[|dbs| - 1] == run[n].db
  {
    if n == 0 {
      dbs := [run[0].db];
    } else {
      dbs := InterleavingsSerialize(run, n - 1);
      InterleavingsKeepInv(run, n - 1);
      StepRefines(run[n - 1], run[n]);
      if run[n].db != run[n - 1].db {
        ExtendSerial(dbs, run[n].db);
        dbs := dbs + [run[n].db];
      }
    }
  }
}
