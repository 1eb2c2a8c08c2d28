/**
 Account deletion: a sequence of separately committed steps that a crash may cut short anywhere and a
 retry starts over. `Deleted` says declaratively what a deleted account looks like; every step, in whatever
 state it is retried, preserves that goal, and a run that reaches the end has attained it.
 */
module Deletion {
  import opened Domain
  import opened Transactions
  import opened Ledger
  import opened Invariants
  import opened Interleaving
  import opened Eligibility

  datatype Account = Account(
    pseudonym: string, phone: Option<Id>, email: Option<Id>, status: UserStatus, deleted: bool)

  const ANONYMOUS := Account("Deleted User", None, None, DeletedUser, true)

  /** Sessions, push tokens and notifications map row id to owner; blocks are (blocker, blocked). */
  datatype Store = Store(
    db: Db, sessions: map<Id, Id>, pushTokens: map<Id, Id>, availability: map<(Id, Id), Availability>,
    locations: map<(Id, Id), Location>, notifications: map<Id, Id>, prefs: set<Id>, blocks: set<(Id, Id)>,
    users: map<Id, Account>)

  // ------------------------------------------------------------------- steps

  datatype Micro =
    | CancelActive(k: Id) | CloseRequests
    | DropSessions | DropTokens | DropAvailability | DropLocations
    | ZeroStock | DropNotifications | DropPrefs | DropBlocks | Anonymize

  predicate Involves(m: Match, user: Id) { m.requester == user || m.helper == user }

  predicate ActiveFor(m: Match, user: Id) { m.status.Active? && Involves(m, user) }

  function OwnOpen(db: Db, user: Id): set<Id> {
    set r | r in db.requests && db.requests[r].requester == user && IsOpen(db.requests[r].status)
  }

  function NotOwned(t: map<Id, Id>, user: Id): map<Id, Id> {
    map x | x in t && t[x] != user :: t[x]
  }

  function NotOf<T>(t: map<(Id, Id), T>, user: Id): map<(Id, Id), T> {
    map x | x in t && x.0 != user :: t[x]
  }

  function NotPlaced(blocks: set<(Id, Id)>, user: Id): set<(Id, Id)> {
    set b | b in blocks && b.0 != user
  }

  function Anonymized(users: map<Id, Account>, user: Id): map<Id, Account> {
    if user in users then users[user := ANONYMOUS] else users
  }

  /** One separately committed step of the deletion of `user`. */
  function Apply(s: Store, user: Id, m: Micro): Store {
    match m
    case CancelActive(k) => s.(db := Committed(s.db, ModerateMatch(s.db, k)))
    case CloseRequests => s.(db := CloseOpen(s.db, OwnOpen(s.db, user), Cancelled).db)
    case DropSessions => s.(sessions := NotOwned(s.sessions, user))
    case DropTokens => s.(pushTokens := NotOwned(s.pushTokens, user))
    case DropAvailability => s.(availability := NotOf(s.availability, user))
    case DropLocations => s.(locations := NotOf(s.locations, user))
    case ZeroStock => s.(db := ZeroItems(s.db, user).db)
    case DropNotifications => s.(notifications := NotOwned(s.notifications, user))
    case DropPrefs => s.(prefs := s.prefs - {user})
    case DropBlocks => s.(blocks := NotPlaced(s.blocks, user))
    case Anonymize => s.(users := Anonymized(s.users, user))
  }

  const TAIL := [CloseRequests, DropSessions, DropTokens, DropAvailability, DropLocations,
                 ZeroStock, DropNotifications, DropPrefs, DropBlocks, Anonymize]

  /** The steps of one run: the active matches selected at its start, in any order, then the fixed tail. */
  function Plan(order: seq<Id>): seq<Micro> {
    seq(|order|, i requires 0 <= i < |order| => CancelActive(order[i])) + TAIL
  }

  /** The answer of the query for the user's active matches. */
  ghost predicate SelectsActive(s: Store, user: Id, order: seq<Id>) {
    && (forall k: Id :: k in order <==> k < |s.db.matches| && ActiveFor(s.db.matches[k], user))
    && (forall i, j :: 0 <= i < j < |order| ==> order[i] != order[j])
  }

  predicate NoneActive(db: Db, user: Id) {
    forall k :: 0 <= k < |db.matches| ==> !ActiveFor(db.matches[k], user)
  }

  function Execute(s: Store, user: Id, ms: seq<Micro>): Store
    decreases |ms|
  {
    if ms == [] then s else Execute(Apply(s, user, ms[0]), user, ms[1..])
  }

  // -------------------------------------------------------------------- goal

  ghost function ReservingFor(i: Id, user: Id): Match -> real {
    (m: Match) => if m.item == i && ActiveFor(m, user) then m.reserved else 0.0
  }

  predicate LosesMatch(db: Db, r: Id, user: Id) {
    var k := ActiveMatch(db.matches, r);
    k.Some? && ActiveFor(db.matches[k.value], user)
  }

  function GoalRequest(db: Db, r: Id, user: Id): Request
    requires r in db.requests
  {
    var q := db.requests[r];
    if LosesMatch(db, r, user) then q.(status := Moderated)
    else if q.requester == user && IsOpen(q.status) then q.(status := Cancelled)
    else q
  }

  function GoalOffer(db: Db, o: Id, user: Id): Offer
    requires o in db.offers
  {
    var f := db.offers[o];
    if f.status.Offered? && f.request in OwnOpen(db, user) then f.(status := Superseded) else f
  }

  function GoalMatch(m: Match, user: Id): Match {
    if ActiveFor(m, user) then m.(status := CancelledModeration, applied := true) else m
  }

  ghost function GoalItem(db: Db, i: Id, user: Id): Item
    requires i in db.items
  {
    var item := db.items[i];
    var reserved := item.reserved - Sum(db.matches, ReservingFor(i, user));
    if item.owner == user then item.(reserved := reserved, onHand := reserved, active := false)
    else item.(reserved := reserved)
  }

  ghost function GoalDb(db: Db, user: Id): Db {
    Db(map r | r in db.requests :: GoalRequest(db, r, user),
       map o | o in db.offers :: GoalOffer(db, o, user),
       seq(|db.matches|, k requires 0 <= k < |db.matches| => GoalMatch(db.matches[k], user)),
       map i | i in db.items :: GoalItem(db, i, user))
  }

  /** What the tables must look like once `user` is deleted. */
  ghost function Deleted(s: Store, user: Id): Store {
    Store(GoalDb(s.db, user), NotOwned(s.sessions, user), NotOwned(s.pushTokens, user),
          NotOf(s.availability, user), NotOf(s.locations, user), NotOwned(s.notifications, user),
          s.prefs - {user}, NotPlaced(s.blocks, user),
          Anonymized(s.users, user))
  }

  // ------------------------------------------------- every step keeps the goal

  lemma {:induction false} SameGoalDb(db: Db, db': Db, user: Id)
    requires db'.requests.Keys == db.requests.Keys && db'.offers.Keys == db.offers.Keys
    requires |db'.matches| == |db.matches| && db'.items.Keys == db.items.Keys
    requires forall r :: r in db.requests ==> GoalRequest(db', r, user) == GoalRequest(db, r, user)
    requires forall o :: o in db.offers ==> GoalOffer(db', o, user) == GoalOffer(db, o, user)
    requires forall k :: 0 <= k < |db.matches| ==> GoalMatch(db'.matches[k], user) == GoalMatch(db.matches[k], user)
    requires forall i :: i in db.items ==> GoalItem(db', i, user) == GoalItem(db, i, user)
    ensures GoalDb(db', user) == GoalDb(db, user)
  {
    assert GoalDb(db', user).requests == GoalDb(db, user).requests;
    assert GoalDb(db', user).offers == GoalDb(db, user).offers;
    assert GoalDb(db', user).matches == GoalDb(db, user).matches;
    assert GoalDb(db', user).items == GoalDb(db, user).items;
  }

  /** In a sound state the cancel of an active match always goes through. */
  lemma {:induction false} ModerationCancels(db: Db, k: Id)
    requires Inv(db) && k < |db.matches| && db.matches[k].status.Active?
    ensures Lockable(db, k)
    ensures var m, db' := db.matches[k], Committed(db, ModerateMatch(db, k));
      && db'.requests == db.requests[m.request := db.requests[m.request].(status := Moderated)]
      && db'.offers == db.offers
      && db'.matches == db.matches[k := m.(status := CancelledModeration, applied := true)]
      && db'.items == db.items[m.item := db.items[m.item].(reserved := db.items[m.item].reserved - m.reserved)]
  {
    assert MatchSound(db, k);
  }

  /** The cancelled match was its request's only active one; every other request keeps its active match. */
  lemma {:induction false} CancelKeepsRequestGoal(db: Db, k: Id, user: Id, r: Id)
    requires Inv(db) && k < |db.matches| && ActiveFor(db.matches[k], user) && Inv(Committed(db, ModerateMatch(db, k)))
    requires r in db.requests
    ensures r in Committed(db, ModerateMatch(db, k)).requests && GoalRequest(Committed(db, ModerateMatch(db, k)), r, user) == GoalRequest(db, r, user)
  {
    ModerationCancels(db, k);
    var m, db' := db.matches[k], Committed(db, ModerateMatch(db, k));
    if r == m.request {
      assert MatchSound(db, k) && MatchesApart(db.matches, k, ActiveMatch(db.matches, r).value);
      assert ActiveMatch(db.matches, r) == Some(k);
      assert ActiveMatch(db'.matches, r).Some? ==> MatchSound(db', ActiveMatch(db'.matches, r).value);
    } else {
      ActiveMatchSame(db.matches, db'.matches, r);
    }
  }

  lemma {:induction false} CancelKeepsGoal(db: Db, k: Id, user: Id)
    requires Inv(db) && k < |db.matches| && ActiveFor(db.matches[k], user)
    ensures Inv(Committed(db, ModerateMatch(db, k))) && GoalDb(Committed(db, ModerateMatch(db, k)), user) == GoalDb(db, user)
  {
    MatchOpKeepsInv(db, Moderate(k));
    ModerationCancels(db, k);
    var db' := Committed(db, ModerateMatch(db, k));
    forall r | r in db.requests ensures GoalRequest(db', r, user) == GoalRequest(db, r, user) {
      CancelKeepsRequestGoal(db, k, user, r);
    }
    CancelKeepsOwnOpen(db, k, user);
    CancelKeepsItemGoal(db, k, user);
    SameGoalDb(db, db', user);
  }

  lemma {:induction false} CancelKeepsOwnOpen(db: Db, k: Id, user: Id)
    requires Inv(db) && k < |db.matches| && ActiveFor(db.matches[k], user)
    ensures var db' := Committed(db, ModerateMatch(db, k));
      && db'.requests.Keys == db.requests.Keys && db'.offers == db.offers
      && OwnOpen(db', user) == OwnOpen(db, user)
  {
    ModerationCancels(db, k);
    assert MatchSound(db, k);
  }

  /** The reservation a cancel releases is the one its match would have lost in the goal. */
  lemma {:induction false} CancelKeepsItemGoal(db: Db, k: Id, user: Id)
    requires Inv(db) && k < |db.matches| && ActiveFor(db.matches[k], user)
    ensures var db' := Committed(db, ModerateMatch(db, k));
      db'.items.Keys == db.items.Keys && forall i :: i in db.items ==> GoalItem(db', i, user) == GoalItem(db, i, user)
  {
    ModerationCancels(db, k);
    assert MatchSound(db, k);
    var db' := Committed(db, ModerateMatch(db, k));
    forall i | i in db.items ensures GoalItem(db', i, user) == GoalItem(db, i, user) {
      SumUpdate(db.matches, k, db'.matches[k], ReservingFor(i, user));
    }
  }

  lemma {:induction false} CloseKeepsGoal(db: Db, user: Id)
    requires Inv(db)
    ensures var db' := CloseOpen(db, OwnOpen(db, user), Cancelled).db;
      Inv(db') && GoalDb(db', user) == GoalDb(db, user) && OwnOpen(db', user) == {} && db'.matches == db.matches
  {
    CloseOpenKeepsInv(db, OwnOpen(db, user), Cancelled);
    CloseKeepsRows(db, user);
    SameGoalDb(db, CloseOpen(db, OwnOpen(db, user), Cancelled).db, user);
  }

  /** Closing reaches the goal of the user's open requests and their offers, and touches nothing else. */
  lemma {:induction false} CloseKeepsRows(db: Db, user: Id)
    requires Inv(db)
    ensures var db' := CloseOpen(db, OwnOpen(db, user), Cancelled).db;
      && db'.requests.Keys == db.requests.Keys && db'.offers.Keys == db.offers.Keys
      && db'.matches == db.matches && db'.items == db.items && OwnOpen(db', user) == {}
      && (forall r :: r in db.requests ==> GoalRequest(db', r, user) == GoalRequest(db, r, user))
      && (forall o :: o in db.offers ==> GoalOffer(db', o, user) == GoalOffer(db, o, user))
  {
    var db' := CloseOpen(db, OwnOpen(db, user), Cancelled).db;
    assert OwnOpen(db', user) == {};
    forall r | r in db.requests ensures GoalRequest(db', r, user) == GoalRequest(db, r, user) {
      if LosesMatch(db, r, user) { assert MatchSound(db, ActiveMatch(db.matches, r).value); }
    }
  }

  lemma {:induction false} ZeroKeepsGoal(db: Db, user: Id)
    requires Inv(db)
    ensures var db' := ZeroItems(db, user).db;
      Inv(db') && GoalDb(db', user) == GoalDb(db, user)
      && db'.requests == db.requests && db'.offers == db.offers && db'.matches == db.matches
  {
    StockOpKeepsInv(db, Zero(user));
    SameGoalDb(db, ZeroItems(db, user).db, user);
  }

  predicate Enabled(s: Store, user: Id, m: Micro) {
    m.CancelActive? ==> m.k < |s.db.matches| && ActiveFor(s.db.matches[m.k], user)
  }

  /** Every step, started in any sound state, keeps the state sound and the goal where it was. */
  lemma {:induction false} StepKeepsGoal(s: Store, user: Id, m: Micro)
    requires Inv(s.db) && Enabled(s, user, m)
    ensures Inv(Apply(s, user, m).db) && Deleted(Apply(s, user, m), user) == Deleted(s, user)
  {
    if m.CancelActive? { CancelKeepsGoal(s.db, m.k, user); }
    else if m.CloseRequests? { CloseKeepsGoal(s.db, user); }
    else if m.ZeroStock? { ZeroKeepsGoal(s.db, user); }
  }

  // ------------------------------------------------------- runs and retries

  ghost predicate Runnable(s: Store, user: Id, ms: seq<Micro>)
    decreases |ms|
  {
    ms != [] ==> Enabled(s, user, ms[0]) && Runnable(Apply(s, user, ms[0]), user, ms[1..])
  }

  lemma {:induction false} RunKeepsGoal(s: Store, user: Id, ms: seq<Micro>)
    requires Inv(s.db) && Runnable(s, user, ms)
    ensures Inv(Execute(s, user, ms).db) && Deleted(Execute(s, user, ms), user) == Deleted(s, user)
    decreases |ms|
  {
    if ms != [] {
      StepKeepsGoal(s, user, ms[0]);
      RunKeepsGoal(Apply(s, user, ms[0]), user, ms[1..]);
    }
  }

  lemma {:induction false} PrefixRunnable(s: Store, user: Id, ms: seq<Micro>, n: nat)
    requires Runnable(s, user, ms) && n <= |ms|
    ensures Runnable(s, user, ms[..n])
    decreases |ms|
  {
    if n > 0 {
      PrefixRunnable(Apply(s, user, ms[0]), user, ms[1..], n - 1);
      assert ms[..n][1..] == ms[1..][..n - 1];
    }
  }

  lemma {:induction false} ExecuteConcat(s: Store, user: Id, a: seq<Micro>, b: seq<Micro>)
    ensures Execute(s, user, a + b) == Execute(Execute(s, user, a), user, b)
    ensures Runnable(s, user, a) && Runnable(Execute(s, user, a), user, b) ==> Runnable(s, user, a + b)
    decreases |a|
  {
    if a == [] {
      assert a + b == b;
    } else {
      assert (a + b)[1..] == a[1..] + b;
      ExecuteConcat(Apply(s, user, a[0]), user, a[1..], b);
    }
  }

  function Cancels(order: seq<Id>): seq<Micro> {
    seq(|order|, i requires 0 <= i < |order| => CancelActive(order[i]))
  }

  /** Cancelling the first selected match leaves the others selected. */
  lemma {:induction false} CancelOne(s: Store, user: Id, order: seq<Id>)
    requires Inv(s.db) && SelectsActive(s, user, order) && order != []
    ensures Enabled(s, user, CancelActive(order[0]))
    ensures var s' := Apply(s, user, CancelActive(order[0]));
      Inv(s'.db) && Deleted(s', user) == Deleted(s, user) && SelectsActive(s', user, order[1..])
  {
    assert order[0] in order;
    StepKeepsGoal(s, user, CancelActive(order[0]));
    ModerationCancels(s.db, order[0]);
    assert forall k: Id :: k in order[1..] <==> k in order && k != order[0];
  }

  /** Cancelling the selected matches one after the other leaves none active. */
  lemma {:induction false} CancelsRun(s: Store, user: Id, order: seq<Id>)
    requires Inv(s.db) && SelectsActive(s, user, order)
    ensures Runnable(s, user, Cancels(order))
    ensures NoneActive(Execute(s, user, Cancels(order)).db, user)
    decreases |order|
  {
    if order == [] {
      assert Cancels(order) == [];
      forall k: Id | k < |s.db.matches| ensures !ActiveFor(s.db.matches[k], user) { assert k !in order; }
    } else {
      CancelOne(s, user, order);
      CancelsRun(Apply(s, user, CancelActive(order[0])), user, order[1..]);
      assert Cancels(order)[1..] == Cancels(order[1..]);
    }
  }

  /** Nothing of the account is left to delete. */
  ghost predicate Finished(s: Store, user: Id) {
    && NoneActive(s.db, user) && OwnOpen(s.db, user) == {}
    && (forall i :: i in s.db.items && s.db.items[i].owner == user ==>
          s.db.items[i].onHand == s.db.items[i].reserved && !s.db.items[i].active)
    && s.sessions == NotOwned(s.sessions, user) && s.pushTokens == NotOwned(s.pushTokens, user)
    && s.availability == NotOf(s.availability, user) && s.locations == NotOf(s.locations, user)
    && s.notifications == NotOwned(s.notifications, user) && user !in s.prefs
    && (forall b :: b in s.blocks ==> b.0 != user) && (user in s.users ==> s.users[user] == ANONYMOUS)
  }

  lemma {:induction false} FinishedIsGoal(s: Store, user: Id)
    requires Inv(s.db) && Finished(s, user)
    ensures Deleted(s, user) == s
  {
    var db := s.db;
    forall i | i in db.items ensures GoalItem(db, i, user) == db.items[i] {
      forall k | 0 <= k < |db.matches| ensures ReservingFor(i, user)(db.matches[k]) == 0.0 {
        assert !ActiveFor(db.matches[k], user);
      }
      SumZero(db.matches, ReservingFor(i, user));
    }
    forall k: Id | k < |db.matches| ensures GoalMatch(db.matches[k], user) == db.matches[k] { }
    forall r | r in db.requests ensures GoalRequest(db, r, user) == db.requests[r] {
      assert ActiveMatch(db.matches, r).Some? ==> !ActiveFor(db.matches[ActiveMatch(db.matches, r).value], user);
      assert r !in OwnOpen(db, user);
    }
    assert GoalDb(db, user).requests == db.requests;
    assert GoalDb(db, user).offers == db.offers;
    assert GoalDb(db, user).matches == db.matches;
    assert GoalDb(db, user).items == db.items;
    assert Deleted(s, user).users == s.users;
    assert Deleted(s, user).blocks == s.blocks;
    assert Deleted(s, user).prefs == s.prefs;
  }

  /** Sessions, tokens, availability and locations gone. */
  function DevicesDropped(s: Store, user: Id): Store {
    s.(sessions := NotOwned(s.sessions, user), pushTokens := NotOwned(s.pushTokens, user),
       availability := NotOf(s.availability, user), locations := NotOf(s.locations, user))
  }

  /** Notifications, preferences and placed blocks gone, the row anonymized. */
  function TracesDropped(s: Store, user: Id): Store {
    s.(notifications := NotOwned(s.notifications, user), prefs := s.prefs - {user},
       blocks := NotPlaced(s.blocks, user),
       users := Anonymized(s.users, user))
  }

  const FIRST_HALF := [CloseRequests, DropSessions, DropTokens, DropAvailability, DropLocations]
  const SECOND_HALF := [ZeroStock, DropNotifications, DropPrefs, DropBlocks, Anonymize]

  lemma {:induction false} PersonalRowsGone(s: Store, user: Id)
    ensures var t := TracesDropped(Apply(DevicesDropped(s, user), user, ZeroStock), user);
      && t.sessions == NotOwned(t.sessions, user) && t.pushTokens == NotOwned(t.pushTokens, user)
      && t.availability == NotOf(t.availability, user) && t.locations == NotOf(t.locations, user)
      && t.notifications == NotOwned(t.notifications, user) && user !in t.prefs
      && (forall b :: b in t.blocks ==> b.0 != user) && (user in t.users ==> t.users[user] == ANONYMOUS)
  {
  }

  lemma {:induction false} StockAndRequestsDone(db: Db, user: Id)
    requires Inv(db) && NoneActive(db, user) && OwnOpen(db, user) == {}
    ensures var db' := ZeroItems(db, user).db;
      && NoneActive(db', user) && OwnOpen(db', user) == {}
      && forall i :: i in db'.items && db'.items[i].owner == user ==>
           db'.items[i].onHand == db'.items[i].reserved && !db'.items[i].active
  {
  }

  /** The tail of a run finishes the deletion once no active match is left. */
  lemma {:induction false} TailIsExecuted(s: Store, user: Id)
    requires Inv(s.db) && NoneActive(s.db, user)
    ensures Runnable(s, user, TAIL) && Finished(Execute(s, user, TAIL), user)
    ensures Execute(s, user, TAIL) ==
      TracesDropped(Apply(DevicesDropped(Apply(s, user, CloseRequests), user), user, ZeroStock), user)
  {
    FirstHalf(s, user);
    SecondHalf(DevicesDropped(Apply(s, user, CloseRequests), user), user);
    assert TAIL == FIRST_HALF + SECOND_HALF;
    ExecuteConcat(s, user, FIRST_HALF, SECOND_HALF);
    TracesFinish(s, user);
  }

  /** Without active matches the tail attains the goal. */
  lemma {:induction false} TailReachesGoal(s: Store, user: Id)
    requires Inv(s.db) && NoneActive(s.db, user)
    ensures var t := TracesDropped(Apply(DevicesDropped(Apply(s, user, CloseRequests), user), user, ZeroStock), user);
      t == Deleted(s, user) && Inv(t.db) && Finished(t, user)
  {
    TailIsExecuted(s, user);
    RunKeepsGoal(s, user, TAIL);
    FinishedIsGoal(Execute(s, user, TAIL), user);
  }

  lemma {:induction false} TracesFinish(s: Store, user: Id)
    requires Inv(s.db) && NoneActive(s.db, user)
    ensures Finished(TracesDropped(Apply(DevicesDropped(Apply(s, user, CloseRequests), user), user, ZeroStock), user), user)
  {
    CloseKeepsGoal(s.db, user);
    var s1 := Apply(s, user, CloseRequests);
    StockAndRequestsDone(s1.db, user);
    PersonalRowsGone(s1, user);
  }

  lemma {:induction false} FirstHalf(s: Store, user: Id)
    ensures Runnable(s, user, FIRST_HALF)
    ensures Execute(s, user, FIRST_HALF) == DevicesDropped(Apply(s, user, CloseRequests), user)
  {
    var a := FIRST_HALF;
    var s1 := Apply(s, user, a[0]);
    var s2 := Apply(s1, user, a[1]);
    var s3 := Apply(s2, user, a[2]);
    var s4 := Apply(s3, user, a[3]);
    var s5 := Apply(s4, user, a[4]);
    assert a[1..] == [DropSessions, DropTokens, DropAvailability, DropLocations];
    assert a[1..][1..] == [DropTokens, DropAvailability, DropLocations];
    assert a[1..][1..][1..] == [DropAvailability, DropLocations];
    assert a[1..][1..][1..][1..] == [DropLocations];
    assert a[1..][1..][1..][1..][1..] == [];
    assert Execute(s4, user, [DropLocations]) == s5 && Runnable(s4, user, [DropLocations]);
    assert Execute(s3, user, [DropAvailability, DropLocations]) == s5;
    assert Execute(s2, user, a[1..][1..]) == s5;
    assert Execute(s1, user, a[1..]) == s5;
    assert Runnable(s2, user, a[1..][1..]) && Runnable(s1, user, a[1..]);
  }

  lemma {:induction false} SecondHalf(s: Store, user: Id)
    ensures Runnable(s, user, SECOND_HALF)
    ensures Execute(s, user, SECOND_HALF) == TracesDropped(Apply(s, user, ZeroStock), user)
  {
    var b := SECOND_HALF;
    var s1 := Apply(s, user, b[0]);
    var s2 := Apply(s1, user, b[1]);
    var s3 := Apply(s2, user, b[2]);
    var s4 := Apply(s3, user, b[3]);
    var s5 := Apply(s4, user, b[4]);
    assert b[1..] == [DropNotifications, DropPrefs, DropBlocks, Anonymize];
    assert b[1..][1..] == [DropPrefs, DropBlocks, Anonymize];
    assert b[1..][1..][1..] == [DropBlocks, Anonymize];
    assert b[1..][1..][1..][1..] == [Anonymize];
    assert b[1..][1..][1..][1..][1..] == [];
    assert Execute(s4, user, [Anonymize]) == s5 && Runnable(s4, user, [Anonymize]);
    assert Execute(s3, user, [DropBlocks, Anonymize]) == s5;
    assert Execute(s2, user, b[1..][1..]) == s5;
    assert Execute(s1, user, b[1..]) == s5;
    assert Runnable(s2, user, b[1..][1..]) && Runnable(s1, user, b[1..]);
  }

  /** An uninterrupted run reaches exactly the goal, in whatever order the active matches come. */
  lemma {:induction false} FullRunReachesGoal(s: Store, user: Id, order: seq<Id>)
    requires Inv(s.db) && SelectsActive(s, user, order)
    ensures Runnable(s, user, Plan(order))
    ensures Execute(s, user, Plan(order)) == Deleted(s, user)
    ensures Finished(Execute(s, user, Plan(order)), user)
  {
    CancelsRun(s, user, order);
    RunKeepsGoal(s, user, Cancels(order));
    var mid := Execute(s, user, Cancels(order));
    TailIsExecuted(mid, user);
    assert Plan(order) == Cancels(order) + TAIL;
    ExecuteConcat(s, user, Cancels(order), TAIL);
    RunKeepsGoal(s, user, Plan(order));
    FinishedIsGoal(Execute(s, user, Plan(order)), user);
  }

  /** An attempt that selects its matches and is cut short after `steps` steps. */
  datatype Attempt = Attempt(order: seq<Id>, steps: nat)

  /** Every attempt works on what the previous ones left. */
  ghost predicate Attempts(s: Store, user: Id, tries: seq<Attempt>)
    decreases |tries|
  {
    tries != [] ==>
      && SelectsActive(s, user, tries[0].order) && tries[0].steps <= |Plan(tries[0].order)|
      && Attempts(Execute(s, user, Plan(tries[0].order)[..tries[0].steps]), user, tries[1..])
  }

  ghost function AfterAttempts(s: Store, user: Id, tries: seq<Attempt>): Store
    requires Attempts(s, user, tries)
    decreases |tries|
  {
    if tries == [] then s
    else AfterAttempts(Execute(s, user, Plan(tries[0].order)[..tries[0].steps]), user, tries[1..])
  }

  lemma {:induction false} AttemptsKeepGoal(s: Store, user: Id, tries: seq<Attempt>)
    requires Inv(s.db) && Attempts(s, user, tries)
    ensures Inv(AfterAttempts(s, user, tries).db)
    ensures Deleted(AfterAttempts(s, user, tries), user) == Deleted(s, user)
    decreases |tries|
  {
    if tries != [] {
      var t := tries[0];
      FullRunReachesGoal(s, user, t.order);
      PrefixRunnable(s, user, Plan(t.order), t.steps);
      RunKeepsGoal(s, user, Plan(t.order)[..t.steps]);
      AttemptsKeepGoal(Execute(s, user, Plan(t.order)[..t.steps]), user, tries[1..]);
    }
  }

  /**
   Crash safety: after any number of attempts cut short anywhere, one complete run leaves the same tables as
   an uninterrupted run from the start.
   */
  lemma {:induction false} RetryConverges(s: Store, user: Id, tries: seq<Attempt>, last: seq<Id>, once: seq<Id>)
    requires Inv(s.db) && Attempts(s, user, tries)
    requires SelectsActive(AfterAttempts(s, user, tries), user, last) && SelectsActive(s, user, once)
    ensures Execute(AfterAttempts(s, user, tries), user, Plan(last)) == Execute(s, user, Plan(once)) == Deleted(s, user)
  {
    AttemptsKeepGoal(s, user, tries);
    FullRunReachesGoal(AfterAttempts(s, user, tries), user, last);
    FullRunReachesGoal(s, user, once);
  }

  // ------------------------------------------------- transactions of others in between

  /** Anything that can happen to the tables: a step of some run of the deletion, or somebody else's transaction. */
  datatype Turn = Own(m: Micro) | Other(op: Op)

  predicate Possible(s: Store, t: Turn) {
    match t
    case Own(m) => m.CancelActive? ==> m.k < |s.db.matches|
    case Other(op) => Legal(s.db, op)
  }

  function Turned(s: Store, user: Id, t: Turn): Store
    requires Possible(s, t)
  {
    match t
    case Own(m) => Apply(s, user, m)
    case Other(op) => s.(db := After(s.db, op))
  }

  /** A run stops exactly at a cancel whose match has been closed since it was selected; nothing is changed then. */
  lemma {:induction false} StopsExactly(s: Store, user: Id, k: Id)
    requires Inv(s.db) && k < |s.db.matches|
    ensures ModerateMatch(s.db, k).Thrown? <==> !s.db.matches[k].status.Active?
    ensures ModerateMatch(s.db, k).Thrown? ==> Apply(s, user, CancelActive(k)) == s
  {
    assert MatchSound(s.db, k);
  }

  lemma {:induction false} TurnKeepsInv(s: Store, user: Id, t: Turn)
    requires Inv(s.db) && Possible(s, t)
    ensures Inv(Turned(s, user, t).db)
  {
    if t.Other? {
      TransactionKeepsInv(s.db, t.op);
    } else if t.m.CancelActive? {
      MatchOpKeepsInv(s.db, Moderate(t.m.k));
    } else {
      StepKeepsGoal(s, user, t.m);
    }
  }

  ghost predicate PossibleTurns(s: Store, user: Id, turns: seq<Turn>)
    decreases |turns|
  {
    turns == [] || (Possible(s, turns[0]) && PossibleTurns(Turned(s, user, turns[0]), user, turns[1..]))
  }

  ghost function AfterTurns(s: Store, user: Id, turns: seq<Turn>): Store
    requires PossibleTurns(s, user, turns)
    decreases |turns|
  {
    if turns == [] then s else AfterTurns(Turned(s, user, turns[0]), user, turns[1..])
  }

  lemma {:induction false} TurnsKeepInv(s: Store, user: Id, turns: seq<Turn>)
    requires Inv(s.db) && PossibleTurns(s, user, turns)
    ensures Inv(AfterTurns(s, user, turns).db)
    decreases |turns|
  {
    if turns != [] {
      TurnKeepsInv(s, user, turns[0]);
      TurnsKeepInv(Turned(s, user, turns[0]), user, turns[1..]);
    }
  }

  /**
   Whatever steps of earlier runs and transactions of others have been mixed before, one undisturbed run reaches the goal
   of the tables it starts from and leaves nothing of the account to delete.
   */
  lemma {:induction false} LastRunFinishes(s: Store, user: Id, turns: seq<Turn>, last: seq<Id>)
    requires Inv(s.db) && PossibleTurns(s, user, turns) && SelectsActive(AfterTurns(s, user, turns), user, last)
    ensures var mid := AfterTurns(s, user, turns);
      && Runnable(mid, user, Plan(last))
      && Execute(mid, user, Plan(last)) == Deleted(mid, user) && Finished(Execute(mid, user, Plan(last)), user)
  {
    TurnsKeepInv(s, user, turns);
    FullRunReachesGoal(AfterTurns(s, user, turns), user, last);
  }

  // ------------------------------------------------------------ conservation

  /** The deleted user's items end empty: all their reservations were the user's own and have been released. */
  lemma {:induction false} DeletedStockIsEmpty(s: Store, user: Id, i: Id)
    requires Inv(s.db) && i in s.db.items && s.db.items[i].owner == user
    ensures Deleted(s, user).db.items[i].onHand == 0.0 == Deleted(s, user).db.items[i].reserved
    ensures !Deleted(s, user).db.items[i].active
  {
    assert ItemSound(s.db, i);
    forall k | 0 <= k < |s.db.matches| ensures ReservingFor(i, user)(s.db.matches[k]) == Reserving(i)(s.db.matches[k]) {
      assert MatchSound(s.db, k);
    }
    SumsAgree(s.db.matches, ReservingFor(i, user), Reserving(i));
  }

  lemma {:induction false} SumsAgree(ms: seq<Match>, f: Match -> real, g: Match -> real)
    requires forall k :: 0 <= k < |ms| ==> f(ms[k]) == g(ms[k])
    ensures Sum(ms, f) == Sum(ms, g)
  {
    if ms != [] { SumsAgree(ms[..|ms| - 1], f, g); }
  }

  /**
   The zeroing step alone collapses stock to what is reserved at that moment. That is zero exactly when no match
   on the item is active, which another acceptance in between would break.
   */
  lemma {:induction false} ZeroedExactlyWhenIdle(db: Db, user: Id, i: Id)
    requires Inv(db) && i in db.items && db.items[i].owner == user
    ensures ZeroItems(db, user).db.items[i].onHand == db.items[i].reserved
    ensures ZeroItems(db, user).db.items[i].onHand == 0.0 <==>
      forall k :: 0 <= k < |db.matches| ==> !(db.matches[k].item == i && db.matches[k].status.Active?)
  {
    assert ItemSound(db, i);
    forall k | 0 <= k < |db.matches| ensures Reserving(i)(db.matches[k]) >= 0.0 { assert MatchSound(db, k); }
    if k :| 0 <= k < |db.matches| && db.matches[k].item == i && db.matches[k].status.Active? {
      assert MatchSound(db, k);
      SumAtLeast(db.matches, k, Reserving(i));
    } else {
      SumZero(db.matches, Reserving(i));
    }
  }
}
