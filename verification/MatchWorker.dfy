/**
 The match worker as it runs: methods that update the tables and the job queue in place, statement by statement.
 Work done inside a transaction happens on local copies of the tables and is stored at commit.
 */
module MatchWorker {
  import opened Domain
  import opened Ranking
  import opened Transactions
  import opened Wakeups

  function Queued(after: seq<Effect>, now: Time): seq<Job> {
    seq(|after|, i requires 0 <= i < |after| => JobOf(after[i], now))
  }

  class Worker {
    var requests: map<Id, Request>
    var offers: map<Id, Offer>
    var matches: seq<Match>
    var items: map<Id, Item>
    var jobs: seq<Job>

    constructor (db: Db)
      ensures Tables() == db && jobs == []
    {
      requests, offers, matches, items, jobs := db.requests, db.offers, db.matches, db.items, [];
    }

    function Tables(): Db
      reads this
    {
      Db(requests, offers, matches, items)
    }

    /** After commit each effect in turn is queued. */
    method RunEffects(after: seq<Effect>, now: Time)
      modifies this`jobs
      ensures jobs == old(jobs) + Queued(after, now)
    {
      for i := 0 to |after|
        invariant jobs == old(jobs) + Queued(after[..i], now)
      {
        assert Queued(after[..i + 1], now) == Queued(after[..i], now) + [JobOf(after[i], now)];
        jobs := jobs + [JobOf(after[i], now)];
      }
      assert after[..|after|] == after;
    }

    /** First ranked candidate with a positive clamped quantity. */
    method ChooseWinner(ranked: seq<Scored>, remaining: real, fractional: bool) returns (pick: Option<Pick>)
      ensures pick == FirstGiving(ranked, remaining, fractional)
    {
      pick := None;
      for i := 0 to |ranked|
        invariant FirstGiving(ranked, remaining, fractional) == FirstGiving(ranked[i..], remaining, fractional)
      {
        var offerQty := Min(remaining, ranked[i].c.available);
        if !fractional { offerQty := offerQty.Floor as real; }
        if offerQty > 0.0 {
          return Some(Pick(ranked[i].c, offerQty));
        }
      }
    }

    method RunMatchPass(p: PassInput) returns (ok: bool)
      requires PassReadable(Tables(), p)
      modifies this
      ensures match RunPass(old(Tables()), p)
        case Done(db, after) => ok && Tables() == db && jobs == old(jobs) + Queued(after, p.now)
        case Thrown(_) => !ok && Tables() == old(Tables()) && jobs == old(jobs)
    {
      ok := true;
      if p.request !in requests { RunEffects([], p.now); return; }
      var request := requests[p.request];
      if request.status != Searching && request.status != Offering { RunEffects([], p.now); return; }

      if request.expiresAt <= p.now {
        var superseded := Supersede(offers, p.request);
        var to := if OffersOf(superseded, p.request) != {} then Expired else NoMatch;
        assert OffersOf(superseded, p.request) == OffersOf(offers, p.request);
        if !CanTransition(request.status, to) { return false; }
        offers := superseded;
        requests := requests[p.request := request.(status := to)];
        RunEffects([], p.now);
        return;
      }

      if p.event.None? || p.event.value.status != Running || p.event.value.matchingPaused {
        RunEffects([Rematch(p.request, PAUSED_RETRY_DELAY)], p.now);
        return;
      }
      var event := p.event.value;

      var txOffers, txRequests := offers, requests;
      if request.status == Offering {
        if p.open.Some? && offers[p.open.value].respondBy > p.now { RunEffects([], p.now); return; }
        if p.open.Some? {
          txOffers := txOffers[p.open.value := txOffers[p.open.value].(status := TimedOut)];
        }
        request := request.(status := Searching);
        txRequests := txRequests[p.request := request];
      }
      ghost var swept := SweepOpen(old(Tables()), p);
      assert swept == Db(txRequests, txOffers, matches, items);
      ok := SearchAndCommit(p, txRequests, txOffers, event);
    }

    /** The search half of a pass, on the transaction's copies of requests and offers. */
    method SearchAndCommit(p: PassInput, txRequests: map<Id, Request>, txOffers: map<Id, Offer>, event: Event)
      returns (ok: bool)
      requires |p.shortlist| <= |p.jitters| && p.request in txRequests && Matching(p.event) && event == p.event.value
      modifies this
      ensures match Search(Db(txRequests, txOffers, old(matches), old(items)), p)
        case Done(db, after) => ok && Tables() == db && jobs == old(jobs) + Queued(after, p.now)
        case Thrown(_) => !ok && Tables() == old(Tables()) && jobs == old(jobs)
    {
      var request := txRequests[p.request];
      var ranked := Rank(p.shortlist, p.jitters);
      var pick := ChooseWinner(ranked, request.qty - request.fulfilled, p.fractional);
      if pick.Some? {
        var winner := pick.value;
        if Asked(txOffers, p.request, winner.c.helper) || winner.c.item !in items { return false; }
        var respondBy := p.now + event.responseSeconds * 1000;
        offers := txOffers[p.newOffer := Offer(p.request, winner.c.helper, winner.c.item, winner.qty, Offered, respondBy)];
        requests := txRequests[p.request := request.(status := Offering, attempts := request.attempts + 1)];
        RunEffects([Deadline(p.newOffer, respondBy)], p.now);
        return true;
      }
      offers, requests := txOffers, txRequests;
      if request.radius < event.maxRadius {
        var widened := MinInt(request.radius * RADIUS_FACTOR, event.maxRadius);
        requests := requests[p.request := request.(radius := widened)];
        RunEffects([Rematch(p.request, 0)], p.now);
      } else {
        RunEffects([Rematch(p.request, NO_CANDIDATE_RETRY_DELAY)], p.now);
      }
      return true;
    }

    method ExpireOffer(o: Id, now: Time)
      modifies this
      ensures var out := Transactions.ExpireOffer(old(Tables()), o, now);
        Tables() == out.db && jobs == old(jobs) + Queued(out.after, now)
    {
      if o !in offers || offers[o].status != Offered || offers[o].respondBy > now {
        RunEffects([], now);
        return;
      }
      var offer := offers[o];
      offers := offers[o := offer.(status := TimedOut)];
      if offer.request in requests && requests[offer.request].status == Offering {
        requests := requests[offer.request := requests[offer.request].(status := Searching)];
      }
      RunEffects([Rematch(offer.request, 0)], now);
    }

    // ------------------------------------------------------------- sweeps

    /** Every overdue request gets exactly one pass queued; the tables stay as they are. */
    method ExpireRequests(now: Time)
      modifies this`jobs
      ensures |jobs| == |old(jobs)| + |set r | r in requests && Overdue(requests[r], now)| && old(jobs) <= jobs
      ensures forall j :: j in jobs[|old(jobs)|..] <==>
        && j.due == now && j.task.RunMatch? && j.task.request in requests
        && requests[j.task.request].status in {Searching, Offering} && requests[j.task.request].expiresAt <= now
    {
      var rows := set r | r in requests && Overdue(requests[r], now);
      ghost var all := rows;
      ghost var n := |jobs|;
      while rows != {}
        invariant rows <= all && |jobs| == n + |all| - |rows| && old(jobs) <= jobs
        invariant forall j :: j in jobs[n..] <==> j.due == now && j.task.RunMatch? && j.task.request in all - rows
        decreases |rows|
      {
        var r :| r in rows;
        ghost var before := jobs[n..];
        jobs := jobs + [Job(RunMatch(r), now)];
        assert jobs[n..] == before + [Job(RunMatch(r), now)];
        rows := rows - {r};
      }
    }

    /** Every open offer more than the grace past its deadline gets exactly one timeout queued. */
    method ExpireOffers(now: Time)
      modifies this`jobs
      ensures |jobs| == |old(jobs)| + |set o | o in offers && offers[o].status.Offered? && offers[o].respondBy < now - SWEEP_GRACE|
      ensures old(jobs) <= jobs
      ensures forall j :: j in jobs[|old(jobs)|..] <==>
        j.due == now && j.task.TimeOutOffer? && j.task.offer in offers
        && offers[j.task.offer].status.Offered? && offers[j.task.offer].respondBy < now - SWEEP_GRACE
    {
      var rows := set o | o in offers && offers[o].status.Offered? && offers[o].respondBy < now - SWEEP_GRACE;
      ghost var all := rows;
      ghost var n := |jobs|;
      while rows != {}
        invariant rows <= all && |jobs| == n + |all| - |rows| && old(jobs) <= jobs
        invariant forall j :: j in jobs[n..] <==> j.due == now && j.task.TimeOutOffer? && j.task.offer in all - rows
        decreases |rows|
      {
        var o :| o in rows;
        ghost var before := jobs[n..];
        jobs := jobs + [Job(TimeOutOffer(o), now)];
        assert jobs[n..] == before + [Job(TimeOutOffer(o), now)];
        rows := rows - {o};
      }
    }
  }
}
