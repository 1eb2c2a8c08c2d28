/** Sums over the match table. */
module Ledger {
  import opened Domain

  ghost function Sum(ms: seq<Match>, f: Match -> real): real {
    if ms == [] then 0.0 else Sum(ms[..|ms| - 1], f) + f(ms[|ms| - 1])
  }

  lemma {:induction false} SumAppend(ms: seq<Match>, m: Match, f: Match -> real)
    ensures Sum(ms + [m], f) == Sum(ms, f) + f(m)
  {
    assert (ms + [m])[..|ms|] == ms;
  }

  lemma {:induction false} SumUpdate(ms: seq<Match>, k: nat, m: Match, f: Match -> real)
    requires k < |ms|
    ensures Sum(ms[k := m], f) == Sum(ms, f) - f(ms[k]) + f(m)
  {
    var n := |ms| - 1;
    if k == n {
      assert ms[k := m][..n] == ms[..n];
    } else {
      SumUpdate(ms[..n], k, m, f);
      assert ms[k := m][..n] == ms[..n][k := m];
    }
  }

  lemma {:induction false} SumZero(ms: seq<Match>, f: Match -> real)
    requires forall k :: 0 <= k < |ms| ==> f(ms[k]) == 0.0
    ensures Sum(ms, f) == 0.0
  {
    if ms != [] { SumZero(ms[..|ms| - 1], f); }
  }

  /** A sum of non-negative terms is at least any one of them. */
  lemma {:induction false} SumAtLeast(ms: seq<Match>, k: nat, f: Match -> real)
    requires forall j :: 0 <= j < |ms| ==> f(ms[j]) >= 0.0
    ensures Sum(ms, f) >= 0.0
    ensures k < |ms| ==> Sum(ms, f) >= f(ms[k])
  {
    if ms != [] {
      SumAtLeast(ms[..|ms| - 1], k, f);
    }
  }

  /** What an active match holds back of item `i`. */
  ghost function Reserving(i: Id): Match -> real {
    (m: Match) => if m.item == i && m.status.Active? then m.reserved else 0.0
  }

  ghost function FinalQty(m: Match): real {
    match (m.requesterConfirmed, m.helperConfirmed)
    case (Some(a), Some(b)) => Min(a, b)
    case (Some(a), None) => a
    case (None, Some(b)) => b
    case (None, None) => 0.0
  }

  /** What changed hands through a match: nothing until it is settled. */
  ghost function Delivered(m: Match): real {
    if m.status.Completed? || m.status.PartiallyCompleted? || m.status.DisputedQuantities? then FinalQty(m) else 0.0
  }

  ghost function DeliveredTo(r: Id): Match -> real {
    (m: Match) => if m.request == r then Delivered(m) else 0.0
  }

  ghost function DeliveredFrom(i: Id): Match -> real {
    (m: Match) => if m.item == i then Delivered(m) else 0.0
  }
}
