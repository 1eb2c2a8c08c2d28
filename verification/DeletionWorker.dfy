/** Account deletion as the worker runs it: tables updated in place, step by step. */
module DeletionWorker {
  import opened Domain
  import opened Transactions
  import opened Ledger
  import opened Invariants
  import opened Eligibility
  import opened Deletion

  /** Closing one more open request on top of a set already closed. */
  lemma {:induction false} CloseOneMore(db: Db, closed: set<Id>, r: Id)
    requires r in db.requests && IsOpen(db.requests[r].status) && r !in closed
    ensures var part := CloseOpen(db, closed, Cancelled).db;
      && r in part.requests
      && CloseOpen(db, closed + {r}, Cancelled).db.offers == Supersede(part.offers, r)
      && CloseOpen(db, closed + {r}, Cancelled).db.requests == part.requests[r := part.requests[r].(status := Cancelled)]
  {
  }

  lemma {:induction false} CloseNone(db: Db)
    ensures CloseOpen(db, {}, Cancelled).db == db
  {
    assert CloseOpen(db, {}, Cancelled).db.offers == db.offers;
    assert CloseOpen(db, {}, Cancelled).db.requests == db.requests;
  }

  // ------------------------------------------------- what is left of the user's rows

  /** No row of `user` is left in a table of owned rows, and every other row is as it was. */
  ghost predicate OwnedGone(before: map<Id, Id>, after: map<Id, Id>, user: Id) {
    && (forall x :: x in after ==> x in before && before[x] != user)
    && (forall x :: x in before && before[x] != user ==> x in after && after[x] == before[x])
  }

  /** The same for a table keyed by user and event. */
  ghost predicate KeyedGone<T>(before: map<(Id, Id), T>, after: map<(Id, Id), T>, user: Id) {
    && (forall x :: x in after ==> x in before && x.0 != user)
    && (forall x :: x in before && x.0 != user ==> x in after && after[x] == before[x])
  }

  /** The user's items are inactive and hold only what is reserved; no reservation and no other item changes. */
  ghost predicate StockZeroed(before: map<Id, Item>, after: map<Id, Item>, user: Id) {
    && after.Keys == before.Keys
    && forall i :: i in before ==>
         && (before[i].owner != user ==> after[i] == before[i])
         && (before[i].owner == user ==>
               && after[i].onHand == before[i].reserved && !after[i].active
               && after[i] == before[i].(onHand := after[i].onHand, active := after[i].active))
  }

  /** The user's account names nobody and is deleted; every other account is as it was. */
  ghost predicate AccountAnonymous(before: map<Id, Account>, after: map<Id, Account>, user: Id) {
    && after.Keys == before.Keys
    && (user in after ==>
          && after[user].status.DeletedUser? && after[user].deleted && after[user].pseudonym == "Deleted User"
          && after[user].phone.None? && after[user].email.None?)
    && forall u :: u in before && u != user ==> after[u] == before[u]
  }

  /** These descriptions leave no choice. */
  lemma {:induction false} GoneExactly(before: map<Id, Id>, after: map<Id, Id>, user: Id)
    requires OwnedGone(before, after, user)
    ensures after == NotOwned(before, user)
  {
  }

  lemma {:induction false} KeyedGoneExactly<T>(before: map<(Id, Id), T>, after: map<(Id, Id), T>, user: Id)
    requires KeyedGone(before, after, user)
    ensures after == NotOf(before, user)
  {
  }

  lemma {:induction false} ZeroedExactly(before: map<Id, Item>, after: map<Id, Item>, user: Id)
    requires StockZeroed(before, after, user)
    ensures after == Zeroed(before, user)
  {
  }

  lemma {:induction false} AnonymousExactly(before: map<Id, Account>, after: map<Id, Account>, user: Id)
    requires AccountAnonymous(before, after, user)
    ensures after == Anonymized(before, user)
  {
  }

  // ------------------------------------------------- what the goal says of each row

  /** The request is in an active match with `user` on either side. */
  predicate MatchedWith(db: Db, r: Id, user: Id) {
    exists k :: 0 <= k < |db.matches| && db.matches[k].request == r && db.matches[k].status.Active?
                && (db.matches[k].requester == user || db.matches[k].helper == user)
  }

  /** What a deletion makes of one request: moderated with its match, cancelled while still open, or left alone. */
  lemma {:induction false} DeletedRequest(s: Store, user: Id, r: Id)
    requires Inv(s.db) && r in s.db.requests
    ensures var q := s.db.requests[r];
      && r in Deleted(s, user).db.requests
      && Deleted(s, user).db.requests[r] ==
           if MatchedWith(s.db, r, user) then q.(status := Moderated)
           else if q.requester == user && q.status in {Searching, Offering} then q.(status := Cancelled)
           else q
  {
    var k := ActiveMatch(s.db.matches, r);
    if j :| 0 <= j < |s.db.matches| && s.db.matches[j].request == r && s.db.matches[j].status.Active?
            && (s.db.matches[j].requester == user || s.db.matches[j].helper == user)
    {
      assert MatchesApart(s.db.matches, j, k.value);
    }
  }

  /** Of one offer: superseded if it is open on a still-open request of the user; offers to the user stay open. */
  lemma {:induction false} DeletedOffer(s: Store, user: Id, o: Id)
    requires Inv(s.db) && o in s.db.offers
    ensures var f := s.db.offers[o];
      && f.request in s.db.requests && o in Deleted(s, user).db.offers
      && Deleted(s, user).db.offers[o] ==
           if f.status.Offered? && s.db.requests[f.request].requester == user then f.(status := Superseded) else f
  {
    assert OfferSound(s.db, o);
  }

  /** Of one match and of stock: active matches with the user are called off and give their reservation back. */
  lemma {:induction false} DeletedMatch(s: Store, user: Id, k: Id, i: Id)
    requires Inv(s.db) && k < |s.db.matches| && i in s.db.items
    ensures var m, m' := s.db.matches[k], Deleted(s, user).db.matches[k];
      m' == if m.status.Active? && (m.requester == user || m.helper == user)
            then m.(status := CancelledModeration, applied := true) else m
    ensures var item, item' := s.db.items[i], Deleted(s, user).db.items[i];
      && (item.owner == user ==> item' == item.(onHand := 0.0, reserved := 0.0, active := false))
      && (item.owner != user ==> item' == item.(reserved := item'.reserved) && item'.reserved <= item.reserved)
      && (s.db.matches[k].status.Active? && s.db.matches[k].item == i && s.db.matches[k].requester == user ==>
            item'.reserved <= item.reserved - s.db.matches[k].reserved)
  {
    if s.db.items[i].owner == user { DeletedStockIsEmpty(s, user, i); }
    forall j | 0 <= j < |s.db.matches| ensures ReservingFor(i, user)(s.db.matches[j]) >= 0.0 { assert MatchSound(s.db, j); }
    SumAtLeast(s.db.matches, k, ReservingFor(i, user));
  }

  /** Of everything personal: the user's rows are gone, the account is anonymous, all other rows are as they were. */
  lemma {:induction false} DeletedRows(s: Store, user: Id)
    ensures var d := Deleted(s, user);
      && OwnedGone(s.sessions, d.sessions, user) && OwnedGone(s.pushTokens, d.pushTokens, user)
      && OwnedGone(s.notifications, d.notifications, user)
      && KeyedGone(s.availability, d.availability, user) && KeyedGone(s.locations, d.locations, user)
      && (forall u :: u in d.prefs <==> u in s.prefs && u != user)
      && (forall b :: b in d.blocks <==> b in s.blocks && b.0 != user)
      && AccountAnonymous(s.users, d.users, user)
  {
  }

  class Accounts {
    var requests: map<Id, Request>
    var offers: map<Id, Offer>
    var matches: seq<Match>
    var items: map<Id, Item>
    var sessions: map<Id, Id>
    var pushTokens: map<Id, Id>
    var availability: map<(Id, Id), Availability>
    var locations: map<(Id, Id), Location>
    var notifications: map<Id, Id>
    var prefs: set<Id>
    var blocks: set<(Id, Id)>
    var users: map<Id, Account>
    var done: set<Id>

    function Tables(): Db
      reads this
    {
      Db(requests, offers, matches, items)
    }

    function Snapshot(): Store
      reads this
    {
      Store(Tables(), sessions, pushTokens, availability, locations, notifications, prefs, blocks, users)
    }

    constructor (s: Store)
      ensures Snapshot() == s && done == {}
    {
      requests, offers, matches, items := s.db.requests, s.db.offers, s.db.matches, s.db.items;
      sessions, pushTokens, availability, locations := s.sessions, s.pushTokens, s.availability, s.locations;
      notifications, prefs, blocks, users := s.notifications, s.prefs, s.blocks, s.users;
      done := {};
    }

    /** Close match `k`, release its reservation, move its request to moderated; refused unless it is active. */
    method CancelMatchForModeration(k: Id) returns (ok: bool)
      modifies this`requests, this`matches, this`items
      ensures Tables() == Committed(old(Tables()), ModerateMatch(old(Tables()), k))
      ensures ok <==> ModerateMatch(old(Tables()), k).Done?
    {
      if k >= |matches| { return false; }
      var m := matches[k];
      if m.request !in requests || m.item !in items { return false; }
      var request, item := requests[m.request], items[m.item];
      if m.status != Active || !CanTransition(request.status, Moderated) { return false; }
      if !m.applied {
        items := items[m.item := item.(reserved := item.reserved - m.reserved)];
      }
      matches := matches[k := m.(status := CancelledModeration, applied := true)];
      requests := requests[m.request := request.(status := Moderated)];
      return true;
    }

    method SelectActiveMatches(user: Id) returns (ids: seq<Id>)
      ensures SelectsActive(Snapshot(), user, ids)
    {
      ids := [];
      for k := 0 to |matches|
        invariant forall i: Id :: i in ids <==> i < k && ActiveFor(matches[i], user)
        invariant forall i, j :: 0 <= i < j < |ids| ==> ids[i] != ids[j]
      {
        if matches[k].status == Active && (matches[k].requester == user || matches[k].helper == user) {
          ids := ids + [k];
        }
      }
    }

    /** Cancel the user's still-open requests, superseding their open offers, one request after the other. */
    method CancelOpenRequests(user: Id)
      modifies this`requests, this`offers
      ensures Tables() == CloseOpen(old(Tables()), OwnOpen(old(Tables()), user), Cancelled).db
    {
      ghost var before := Tables();
      var open := OwnOpen(Tables(), user);
      var todo := open;
      CloseNone(before);
      assert open - todo == {};
      while todo != {}
        invariant todo <= open == OwnOpen(before, user)
        invariant matches == before.matches && items == before.items
        invariant offers == CloseOpen(before, open - todo, Cancelled).db.offers
        invariant requests == CloseOpen(before, open - todo, Cancelled).db.requests
        decreases |todo|
      {
        var r :| r in todo;
        CloseOneMore(before, open - todo, r);
        assert open - (todo - {r}) == (open - todo) + {r};
        offers := Supersede(offers, r);
        requests := requests[r := requests[r].(status := Cancelled)];
        todo := todo - {r};
      }
      assert open - todo == open;
    }

    /** Step 1: each selected match is cancelled in its own transaction. */
    method CancelMatches(user: Id)
      requires Inv(Tables())
      modifies this`requests, this`matches, this`items
      ensures Inv(Tables()) && NoneActive(Tables(), user) && Deleted(Snapshot(), user) == Deleted(old(Snapshot()), user)
    {
      ghost var goal := Deleted(Snapshot(), user);
      var activeMatches := SelectActiveMatches(user);
      for i := 0 to |activeMatches|
        invariant Inv(Tables()) && Deleted(Snapshot(), user) == goal
        invariant SelectsActive(Snapshot(), user, activeMatches[i..])
      {
        ghost var s, rest := Snapshot(), activeMatches[i..];
        CancelOne(s, user, rest);
        var _ := CancelMatchForModeration(activeMatches[i]);
        assert Snapshot() == Apply(s, user, CancelActive(rest[0])) && rest[1..] == activeMatches[i + 1..];
      }
      forall k: Id | k < |matches| ensures !ActiveFor(matches[k], user) {
        assert k !in activeMatches[|activeMatches|..];
      }
    }

    /** Steps 3 to 7. */
    method DropEverything(user: Id)
      modifies this`sessions, this`pushTokens, this`availability, this`locations, this`items
      modifies this`notifications, this`prefs, this`blocks, this`users
      ensures OwnedGone(old(sessions), sessions, user) && OwnedGone(old(pushTokens), pushTokens, user)
      ensures KeyedGone(old(availability), availability, user) && KeyedGone(old(locations), locations, user)
      ensures StockZeroed(old(items), items, user)
      ensures OwnedGone(old(notifications), notifications, user)
      ensures user !in prefs && prefs + {user} == old(prefs) + {user}
      ensures forall b :: b in blocks <==> b in old(blocks) && b.0 != user
      ensures AccountAnonymous(old(users), users, user)
    {
      sessions := NotOwned(sessions, user);
      pushTokens := NotOwned(pushTokens, user);
      availability := NotOf(availability, user);
      locations := NotOf(locations, user);
      items := Zeroed(items, user);
      notifications := NotOwned(notifications, user);
      prefs := prefs - {user};
      blocks := NotPlaced(blocks, user);
      users := Anonymized(users, user);
    }

    /** Steps 2 to 7. */
    method CloseAndDrop(user: Id)
      modifies this
      ensures Snapshot() ==
        TracesDropped(Apply(DevicesDropped(Apply(old(Snapshot()), user, CloseRequests), user), user, ZeroStock), user)
      ensures done == old(done)
    {
      CancelOpenRequests(user);
      label closed:
      assert Tables() == Apply(old(Snapshot()), user, CloseRequests).db;
      DropEverything(user);
      GoneExactly(old(sessions), sessions, user);
      GoneExactly(old(pushTokens), pushTokens, user);
      GoneExactly(old(notifications), notifications, user);
      KeyedGoneExactly(old(availability), availability, user);
      KeyedGoneExactly(old(locations), locations, user);
      ZeroedExactly(old(items), items, user);
      AnonymousExactly(old(users), users, user);
      assert prefs == old(prefs) - {user} && blocks == NotPlaced(old(blocks), user);
      assert Tables() == ZeroItems(old@closed(Tables()), user).db;
    }

    /** Whatever the tables held, they end exactly as `Deleted` prescribes. */
    method PerformAccountDeletion(user: Id)
      requires Inv(Tables())
      modifies this
      ensures Inv(Tables()) && Snapshot() == Deleted(old(Snapshot()), user) && Finished(Snapshot(), user)
      ensures done == old(done)
    {
      CancelMatches(user);
      TailReachesGoal(Snapshot(), user);
      CloseAndDrop(user);
    }

    /** A deletion request already marked done changes nothing. */
    method ProcessDelete(row: Id, user: Id)
      requires Inv(Tables())
      modifies this
      ensures Inv(Tables()) && done == old(done) + {row}
      ensures Snapshot() == if row in old(done) then old(Snapshot()) else Deleted(old(Snapshot()), user)
    {
      if row in done { return; }
      PerformAccountDeletion(user);
      done := done + {row};
    }
  }
}
