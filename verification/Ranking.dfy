/**
 Ranking of candidate helpers: reliability arithmetic, the score, the stable sort
 and the choice of the first candidate that can give a positive quantity.
 */
module Ranking {
  import opened Domain

  datatype Bucket = VeryNearby | Nearby | ShortWalk | Farther | Unknown

  function BucketFor(distance: Option<real>): Bucket {
    match distance
    case None => Unknown
    case Some(d) =>
      if d <= 150.0 then VeryNearby
      else if d <= 400.0 then Nearby
      else if d <= 1000.0 then ShortWalk
      else Farther
  }

  function BucketRank(b: Bucket): nat {
    match b
    case VeryNearby => 0
    case Nearby => 1
    case ShortWalk => 2
    case Farther => 3
    case Unknown => 4
  }

  datatype Counters = Counters(
    completed: nat, cancelledPreMeeting: nat, cancelledPostMeeting: nat, timeouts: nat, noShows: nat,
    offersReceived: nat, offersResponded: nat)

  /** Accepting or declining answers an offer that was received. */
  predicate Plausible(c: Counters) { c.offersResponded <= c.offersReceived }

  function CompletionScore(c: Counters): real {
    var bad := (c.cancelledPostMeeting + c.timeouts + c.noShows) as real;
    var trials := c.completed as real + c.cancelledPreMeeting as real * 0.25 + bad;
    (c.completed as real + 2.0) / (trials + 4.0)
  }

  function ResponsivenessScore(c: Counters): real {
    if c.offersReceived < 3 then 0.7 else c.offersResponded as real / c.offersReceived as real
  }

  function RankingReliability(c: Counters): real {
    0.7 * CompletionScore(c) + 0.3 * ResponsivenessScore(c)
  }

  datatype Candidate = Candidate(
    helper: Id, item: Id, available: real, distance: Option<real>, recentOffers: nat, counters: Counters)

  const FAIRNESS_CAP := 5

  function CappedOffers(c: Candidate): nat {
    if c.recentOffers <= FAIRNESS_CAP then c.recentOffers else FAIRNESS_CAP
  }

  function Score(c: Candidate, jitter: real): real {
    3.0 * BucketRank(BucketFor(c.distance)) as real
    + 0.8 * CappedOffers(c) as real
    - 2.0 * RankingReliability(c.counters)
    + jitter
  }

  // ------------------------------------------------------------ reliability

  lemma {:induction false} ProductSign(q: real, b: real)
    requires 0.0 < b
    ensures 0.0 < q * b ==> 0.0 < q
    ensures 0.0 <= q * b ==> 0.0 <= q
    ensures q * b < b ==> q < 1.0
    ensures q * b <= b ==> q <= 1.0
  {
    assert q * b - b == (q - 1.0) * b;
  }

  /** Both scores stay inside the unit interval for unbounded counters. */
  lemma {:induction false} ReliabilityBounds(c: Counters)
    requires Plausible(c)
    ensures 0.0 < CompletionScore(c) < 1.0
    ensures 0.0 <= ResponsivenessScore(c) <= 1.0
    ensures 0.0 < RankingReliability(c) < 1.0
  {
    var bad := (c.cancelledPostMeeting + c.timeouts + c.noShows) as real;
    var trials := c.completed as real + c.cancelledPreMeeting as real * 0.25 + bad;
    ProductSign(CompletionScore(c), trials + 4.0);
    if c.offersReceived >= 3 {
      ProductSign(ResponsivenessScore(c), c.offersReceived as real);
    }
  }

  datatype Label = NewHelper | ActiveHelper | ReliableHelper | HighlyReliableHelper

  function ReliabilityLabel(c: Counters): Label {
    if c.completed < 3 then NewHelper
    else if c.completed >= 20 && CompletionScore(c) >= 0.85 then HighlyReliableHelper
    else if c.completed >= 8 && CompletionScore(c) >= 0.75 then ReliableHelper
    else ActiveHelper
  }

  function LabelRank(l: Label): nat {
    match l case NewHelper => 0 case ActiveHelper => 1 case ReliableHelper => 2 case HighlyReliableHelper => 3
  }

  /** At least as many exchanges completed and no more of anything that counts against a helper. */
  predicate NoWorse(better: Counters, worse: Counters) {
    && better.completed >= worse.completed && better.cancelledPreMeeting <= worse.cancelledPreMeeting
    && better.cancelledPostMeeting <= worse.cancelledPostMeeting && better.timeouts <= worse.timeouts
    && better.noShows <= worse.noShows
  }

  lemma {:induction false} Scale(c: real, x: real, y: real)
    requires 0.0 <= c && x <= y
    ensures c * x <= c * y
  {
    assert c * y - c * x == c * (y - x);
  }

  lemma {:induction false} Regroup(u: real, p: real, q: real, a: real)
    requires u * p == a
    ensures u * (p * q) == a * q
  {
    assert u * (p * q) == (u * p) * q;
  }

  lemma {:induction false} Cross(u: real, v: real, p: real, q: real, a: real, b: real)
    requires p > 0.0 && q > 0.0 && u * p == a && v * q == b && a * q >= b * p
    ensures u >= v
  {
    Regroup(u, p, q, a);
    Regroup(v, q, p, b);
    assert p * q > 0.0 && p * q == q * p;
    assert (u - v) * (p * q) == u * (p * q) - v * (p * q);
    ProductSign(u - v, p * q);
  }

  lemma {:induction false} Quotient(a: real, p: real)
    requires p > 0.0
    ensures a / p * p == a
  {
  }

  lemma {:induction false} QuotientMonotone(a: real, x: real, b: real, y: real)
    requires a >= b > 0.0 && 0.0 <= x <= y
    ensures a / (a + x) >= b / (b + y)
  {
    var p, q := a + x, b + y;
    Scale(y, b, a);
    Scale(b, x, y);
    CrossTerms(a, x, b, y);
    Quotient(a, p);
    Quotient(b, q);
    Cross(a / p, b / q, p, q, a, b);
  }

  lemma {:induction false} CrossTerms(a: real, x: real, b: real, y: real)
    requires y * b <= y * a && b * x <= b * y
    ensures a * (b + y) >= b * (a + x)
  {
    assert a * (b + y) == a * b + y * a;
    assert b * (a + x) == a * b + b * x;
  }

  /** A better record never scores lower, nor shows a lower label. */
  lemma {:induction false} ReliabilityMonotone(better: Counters, worse: Counters)
    requires NoWorse(better, worse)
    ensures CompletionScore(better) >= CompletionScore(worse)
    ensures LabelRank(ReliabilityLabel(better)) >= LabelRank(ReliabilityLabel(worse))
  {
    var x := better.cancelledPreMeeting as real * 0.25 + (better.cancelledPostMeeting + better.timeouts + better.noShows) as real;
    var y := worse.cancelledPreMeeting as real * 0.25 + (worse.cancelledPostMeeting + worse.timeouts + worse.noShows) as real;
    QuotientMonotone(better.completed as real + 2.0, x + 2.0, worse.completed as real + 2.0, y + 2.0);
    assert CompletionScore(better) == (better.completed as real + 2.0) / ((better.completed as real + 2.0) + (x + 2.0));
    assert CompletionScore(worse) == (worse.completed as real + 2.0) / ((worse.completed as real + 2.0) + (y + 2.0));
  }

  // --------------------------------------------------- proximity dominance

  /** How many buckets nearer `near` is than `far`. */
  function Gap(near: Candidate, far: Candidate): int {
    BucketRank(BucketFor(far.distance)) - BucketRank(BucketFor(near.distance))
  }

  /** How many more (capped) recent offers `near` has had than `far`. */
  function ExtraOffers(near: Candidate, far: Candidate): int {
    CappedOffers(near) - CappedOffers(far)
  }

  predicate Jitter(j: real) { 0.0 <= j < 1.0 }

  /** The condition under which no reliability record and no jitter can reverse the order. */
  predicate ProximityDecides(near: Candidate, far: Candidate) {
    0.8 * ExtraOffers(near, far) as real <= 3.0 * (Gap(near, far) - 1) as real
  }

  lemma {:induction false} ProximityDominates(near: Candidate, far: Candidate, jn: real, jf: real)
    requires Plausible(near.counters) && Plausible(far.counters)
    requires Jitter(jn) && Jitter(jf)
    requires ProximityDecides(near, far)
    ensures Score(near, jn) < Score(far, jf)
  {
    ReliabilityBounds(near.counters);
    ReliabilityBounds(far.counters);
  }

  /** A strictly nearer bucket wins whenever the nearer helper was not asked more often lately. */
  lemma {:induction false} NearerBucketWins(near: Candidate, far: Candidate, jn: real, jf: real)
    requires Plausible(near.counters) && Plausible(far.counters)
    requires Jitter(jn) && Jitter(jf)
    requires Gap(near, far) >= 1 && CappedOffers(near) <= CappedOffers(far)
    ensures Score(near, jn) < Score(far, jf)
  {
    ProximityDominates(near, far, jn, jf);
  }

  /** Three buckets outweigh every fairness difference. */
  lemma {:induction false} ThreeBucketsWin(near: Candidate, far: Candidate, jn: real, jf: real)
    requires Plausible(near.counters) && Plausible(far.counters)
    requires Jitter(jn) && Jitter(jf)
    requires Gap(near, far) >= 3
    ensures Score(near, jn) < Score(far, jf)
  {
    ProximityDominates(near, far, jn, jf);
  }

  const ABANDONER := Counters(0, 0, 196, 0, 0, 3, 0)
  const STALWART := Counters(196, 0, 0, 0, 0, 3, 3)

  /** Near candidate beats far candidate whatever their records and the drawn jitters. */
  ghost predicate AlwaysAhead(near: Candidate, far: Candidate) {
    forall cn, cf, jn, jf ::
      Plausible(cn) && Plausible(cf) && Jitter(jn) && Jitter(jf) ==>
      Score(near.(counters := cn), jn) < Score(far.(counters := cf), jf)
  }

  /**
   The comments "can never leapfrog a bucket" and "always sort last" hold exactly when
   `ProximityDecides` does: beyond that bound two concrete records reverse the order.
   */
  lemma {:induction false} ProximityDecidesExactly(near: Candidate, far: Candidate)
    ensures AlwaysAhead(near, far) <==> ProximityDecides(near, far)
  {
    if ProximityDecides(near, far) {
      forall cn, cf, jn, jf | Plausible(cn) && Plausible(cf) && Jitter(jn) && Jitter(jf)
        ensures Score(near.(counters := cn), jn) < Score(far.(counters := cf), jf)
      {
        ProximityDominates(near.(counters := cn), far.(counters := cf), jn, jf);
      }
    } else {
      assert CompletionScore(ABANDONER) == 0.01 && ResponsivenessScore(ABANDONER) == 0.0;
      assert CompletionScore(STALWART) == 0.99 && ResponsivenessScore(STALWART) == 1.0;
      var n, f := near.(counters := ABANDONER), far.(counters := STALWART);
      assert 4 * ExtraOffers(near, far) - 15 * (Gap(near, far) - 1) >= 1;
      assert Score(n, 0.95) >= Score(f, 0.0);
      assert Plausible(ABANDONER) && Plausible(STALWART) && Jitter(0.95) && Jitter(0.0);
    }
  }

  /** `ORDER BY distance ASC NULLS LAST`. */
  predicate NoFarther(a: Option<real>, b: Option<real>) {
    b.None? || (a.Some? && a.value <= b.value)
  }

  // ------------------------------------------------- what decides between two helpers

  /** The share of offers answered as numerator and denominator; with fewer than three offers it counts as 7/10. */
  function Answered(c: Counters): (nat, nat) {
    if c.offersReceived < 3 then (7, 10) else (c.offersResponded, c.offersReceived)
  }

  predicate AnswersNoLess(a: Counters, b: Counters) { Answered(a).0 * Answered(b).1 >= Answered(b).0 * Answered(a).1 }

  lemma {:induction false} SharesOrdered(n: nat, m: nat, k: nat, l: nat)
    requires m > 0 && l > 0
    ensures n as real / m as real >= k as real / l as real <==> n * l >= k * m
  {
    var u, v, p, q := n as real / m as real, k as real / l as real, m as real, l as real;
    Quotient(n as real, p);
    Quotient(k as real, q);
    assert (n * l) as real == n as real * q && (k * m) as real == k as real * p;
    if n * l >= k * m { Cross(u, v, p, q, n as real, k as real); }
    if u >= v {
      Regroup(u, p, q, n as real);
      Regroup(v, q, p, k as real);
      Scale(p * q, v, u);
    }
  }

  /** The order of the responsiveness scores, in integers. */
  lemma {:induction false} ResponsivenessOrder(a: Counters, b: Counters)
    ensures ResponsivenessScore(a) >= ResponsivenessScore(b) <==> AnswersNoLess(a, b)
  {
    assert ResponsivenessScore(a) == Answered(a).0 as real / Answered(a).1 as real;
    assert ResponsivenessScore(b) == Answered(b).0 as real / Answered(b).1 as real;
    SharesOrdered(Answered(a).0, Answered(a).1, Answered(b).0, Answered(b).1);
  }

  /** At least as near, asked no more often lately, no worse a record, at least the share of offers answered. */
  predicate NoLessDeserving(a: Candidate, b: Candidate) {
    && NoFarther(a.distance, b.distance) && a.recentOffers <= b.recentOffers
    && NoWorse(a.counters, b.counters) && AnswersNoLess(a.counters, b.counters)
  }

  /** And something that tells: a nearer bucket, a recent offer less below the cap, more completed, more answered. */
  predicate MoreDeserving(a: Candidate, b: Candidate) {
    NoLessDeserving(a, b) &&
    (|| Gap(a, b) > 0
     || (a.recentOffers < b.recentOffers && a.recentOffers < FAIRNESS_CAP)
     || CompletionScore(a.counters) > CompletionScore(b.counters)
     || !AnswersNoLess(b.counters, a.counters))
  }

  /** A helper better on every count never scores higher at the same draw, and scores lower if it tells anywhere. */
  lemma {:induction false} DeservingFirst(a: Candidate, b: Candidate, ja: real, jb: real)
    requires NoLessDeserving(a, b) && ja <= jb
    ensures Score(a, ja) <= Score(b, jb)
    ensures MoreDeserving(a, b) || ja < jb ==> Score(a, ja) < Score(b, jb)
  {
    ReliabilityMonotone(a.counters, b.counters);
    ResponsivenessOrder(a.counters, b.counters);
    ResponsivenessOrder(b.counters, a.counters);
    assert Gap(a, b) >= 0 && CappedOffers(a) <= CappedOffers(b);
  }

  /** Between helpers of one bucket with as many recent offers a record decides, whatever is drawn, from half a point on. */
  lemma {:induction false} ReliabilityDecidesExactly(a: Candidate, b: Candidate)
    requires Gap(a, b) == 0 && CappedOffers(a) == CappedOffers(b)
    ensures (forall ja, jb :: Jitter(ja) && Jitter(jb) ==> Score(a, ja) < Score(b, jb))
       <==> RankingReliability(a.counters) - RankingReliability(b.counters) >= 0.5
  {
    var d := 2.0 * (RankingReliability(a.counters) - RankingReliability(b.counters));
    if d < 1.0 {
      var ja := if d < 0.0 then 0.0 else d;
      assert Jitter(ja) && Jitter(0.0) && Score(a, ja) >= Score(b, 0.0);
    }
  }

  /** Recent offers count up to five; between equal helpers two of them decide whatever is drawn, one does not. */
  lemma {:induction false} FairnessDecidesExactly(a: Candidate, b: Candidate)
    requires Gap(a, b) == 0 && a.counters == b.counters
    ensures (forall ja, jb :: Jitter(ja) && Jitter(jb) ==> Score(a, ja) < Score(b, jb))
       <==> MinInt(b.recentOffers, 5) - MinInt(a.recentOffers, 5) >= 2
  {
    if MinInt(b.recentOffers, 5) - MinInt(a.recentOffers, 5) < 2 {
      assert Jitter(0.9) && Jitter(0.0) && Score(a, 0.9) >= Score(b, 0.0);
    }
  }

  function WithAnswers(c: Counters, responded: nat, received: nat): Counters {
    c.(offersResponded := responded, offersReceived := received)
  }

  /** The more reliable of two, however they have answered their offers. */
  ghost predicate MoreReliableHowever(a: Counters, b: Counters) {
    forall m, n, k, l :: m <= n && k <= l ==> RankingReliability(WithAnswers(a, m, n)) > RankingReliability(WithAnswers(b, k, l))
  }

  /** A completion score outweighs every difference in answering exactly when it is more than 3/7 higher. */
  lemma {:induction false} CompletionDecidesExactly(a: Counters, b: Counters)
    ensures MoreReliableHowever(a, b) <==> CompletionScore(a) - CompletionScore(b) > 3.0 / 7.0
  {
    if CompletionScore(a) - CompletionScore(b) > 3.0 / 7.0 {
      forall m, n, k, l | m <= n && k <= l
        ensures RankingReliability(WithAnswers(a, m, n)) > RankingReliability(WithAnswers(b, k, l))
      {
        var x, y := WithAnswers(a, m, n), WithAnswers(b, k, l);
        ReliabilityBounds(x);
        ReliabilityBounds(y);
        assert CompletionScore(x) == CompletionScore(a) && CompletionScore(y) == CompletionScore(b);
      }
    } else {
      var x, y := WithAnswers(a, 0, 3), WithAnswers(b, 3, 3);
      assert CompletionScore(x) == CompletionScore(a) && CompletionScore(y) == CompletionScore(b);
      assert ResponsivenessScore(x) == 0.0 && ResponsivenessScore(y) == 1.0;
      assert RankingReliability(x) <= RankingReliability(y);
    }
  }

  /** Near beats far whatever else is known of the two. */
  ghost predicate AheadByDistance(near: Candidate, far: Candidate) {
    forall m, n :: AlwaysAhead(near.(recentOffers := m), far.(recentOffers := n))
  }

  /**
   Distance alone decides exactly between a helper within 150 m and one beyond a kilometre or nowhere, and between a
   helper within 400 m and one nowhere.
   */
  lemma {:induction false} DistanceDecidesExactly(near: Candidate, far: Candidate)
    ensures AheadByDistance(near, far) <==>
      near.distance.Some? &&
      (|| (near.distance.value <= 150.0 && (far.distance.None? || far.distance.value > 1000.0))
       || (near.distance.value <= 400.0 && far.distance.None?))
  {
    assert Gap(near, far) >= 3 <==>
      near.distance.Some? &&
      (|| (near.distance.value <= 150.0 && (far.distance.None? || far.distance.value > 1000.0))
       || (near.distance.value <= 400.0 && far.distance.None?));
    if Gap(near, far) >= 3 {
      forall m, n ensures AlwaysAhead(near.(recentOffers := m), far.(recentOffers := n)) {
        ProximityDecidesExactly(near.(recentOffers := m), far.(recentOffers := n));
      }
    } else {
      ProximityDecidesExactly(near.(recentOffers := 5), far.(recentOffers := 0));
      assert !AlwaysAhead(near.(recentOffers := 5), far.(recentOffers := 0));
    }
  }

  /** What counts against a helper, in quarters: a cancellation before the meeting weighs a quarter. */
  function Quarters(c: Counters): nat { c.cancelledPreMeeting + 4 * (c.cancelledPostMeeting + c.timeouts + c.noShows) }

  lemma {:induction false} RatioAtLeast(a: real, p: real, t: real)
    requires p > 0.0
    ensures a / p >= t <==> a >= t * p
  {
    Quotient(a, p);
    assert (a / p - t) * p == a - t * p;
    if a / p >= t { Scale(p, t, a / p); }
    if a >= t * p { ProductSign(a / p - t, p); }
  }

  /** The labels in integers. */
  lemma {:induction false} LabelExactly(c: Counters)
    ensures ReliabilityLabel(c).NewHelper? <==> c.completed < 3
    ensures ReliabilityLabel(c).HighlyReliableHelper? <==> c.completed >= 20 && 17 * Quarters(c) + 112 <= 12 * c.completed
    ensures ReliabilityLabel(c).ReliableHelper? || ReliabilityLabel(c).HighlyReliableHelper? <==>
      c.completed >= 8 && 3 * Quarters(c) + 16 <= 4 * c.completed
  {
    var p := c.completed as real + Quarters(c) as real / 4.0 + 4.0;
    assert CompletionScore(c) == (c.completed as real + 2.0) / p;
    RatioAtLeast(c.completed as real + 2.0, p, 0.85);
    RatioAtLeast(c.completed as real + 2.0, p, 0.75);
  }

  // ------------------------------------------------------------ stable sort

  datatype Scored = Scored(c: Candidate, score: real, index: nat)

  predicate Before(a: Scored, b: Scored) {
    a.score < b.score || (a.score == b.score && a.index < b.index)
  }

  /** Insert behind every entry of the same or a lower score. */
  function Insert(x: Scored, xs: seq<Scored>): seq<Scored> {
    if xs == [] then [x]
    else if x.score < xs[0].score then [x] + xs
    else [xs[0]] + Insert(x, xs[1..])
  }

  /** `rankCandidates`: score each candidate with its own draw, sort stably by score. */
  function Rank(cs: seq<Candidate>, jitters: seq<real>): seq<Scored>
    requires |cs| <= |jitters|
  {
    if cs == [] then []
    else
      var k := |cs| - 1;
      Insert(Scored(cs[k], Score(cs[k], jitters[k]), k), Rank(cs[..k], jitters))
  }

  predicate Ordered(xs: seq<Scored>) {
    forall i, j :: 0 <= i < j < |xs| ==> Before(xs[i], xs[j])
  }

  lemma {:induction false} PrependOrdered(x: Scored, xs: seq<Scored>)
    requires Ordered(xs) && (xs == [] || x.score < xs[0].score || forall y :: y in xs ==> Before(x, y))
    ensures Ordered([x] + xs)
  {
    forall j | 0 <= j < |xs| ensures Before(x, xs[j]) { assert j == 0 || Before(xs[0], xs[j]); }
  }

  lemma {:induction false} InsertSorts(x: Scored, xs: seq<Scored>)
    requires Ordered(xs) && forall y :: y in xs ==> y.index < x.index
    ensures |Insert(x, xs)| == |xs| + 1
    ensures forall y :: y in Insert(x, xs) <==> y in xs || y == x
    ensures Ordered(Insert(x, xs))
  {
    if xs != [] {
      assert xs == [xs[0]] + xs[1..];
      if x.score < xs[0].score {
        PrependOrdered(x, xs);
      } else {
        var rest := Insert(x, xs[1..]);
        forall i, j | 0 <= i < j < |xs[1..]| ensures Before(xs[1..][i], xs[1..][j]) { assert Before(xs[i + 1], xs[j + 1]); }
        InsertSorts(x, xs[1..]);
        forall y | y in rest ensures Before(xs[0], y) {
          if y != x { var k :| 0 <= k < |xs[1..]| && xs[1..][k] == y; assert Before(xs[0], xs[k + 1]); }
        }
        PrependOrdered(xs[0], rest);
      }
    }
  }

  predicate IsScored(x: Scored, cs: seq<Candidate>, jitters: seq<real>) {
    x.index < |cs| && x.index < |jitters| && x.c == cs[x.index] && x.score == Score(x.c, jitters[x.index])
  }

  /** The ranking holds each scored input once, strictly ordered by score and, within a score, by position. */
  lemma {:induction false} RankSorts(cs: seq<Candidate>, jitters: seq<real>)
    requires |cs| <= |jitters|
    ensures |Rank(cs, jitters)| == |cs|
    ensures Ordered(Rank(cs, jitters))
    ensures forall x :: x in Rank(cs, jitters) <==> IsScored(x, cs, jitters)
  {
    if cs != [] {
      var k := |cs| - 1;
      RankSorts(cs[..k], jitters);
      var x := Scored(cs[k], Score(cs[k], jitters[k]), k);
      InsertSorts(x, Rank(cs[..k], jitters));
      forall y ensures IsScored(y, cs, jitters) <==> IsScored(y, cs[..k], jitters) || y == x {
      }
    }
  }

  // ----------------------------------------------------------- the winner

  /** Quantity the helper would be asked for. */
  function OfferQty(remaining: real, available: real, fractional: bool): real {
    Whole(Min(remaining, available), fractional)
  }

  datatype Pick = Pick(c: Candidate, qty: real)

  function FirstGiving(ranked: seq<Scored>, remaining: real, fractional: bool): Option<Pick> {
    if ranked == [] then None
    else
      var qty := OfferQty(remaining, ranked[0].c.available, fractional);
      if qty > 0.0 then Some(Pick(ranked[0].c, qty))
      else FirstGiving(ranked[1..], remaining, fractional)
  }

  function Winner(cs: seq<Candidate>, jitters: seq<real>, remaining: real, fractional: bool): Option<Pick>
    requires |cs| <= |jitters|
  {
    FirstGiving(Rank(cs, jitters), remaining, fractional)
  }

  predicate Gives(c: Candidate, remaining: real, fractional: bool) {
    OfferQty(remaining, c.available, fractional) > 0.0
  }

  /** The largest quantity within both bounds that the category allows. */
  lemma {:induction false} OfferQtyIsLargest(remaining: real, available: real, fractional: bool)
    ensures var qty := OfferQty(remaining, available, fractional);
      && qty <= remaining && qty <= available && (fractional || IsWhole(qty))
      && forall x :: x <= remaining && x <= available && (fractional || IsWhole(x)) ==> x <= qty
  {
    forall x: real | x <= remaining && x <= available && (fractional || IsWhole(x))
      ensures x <= OfferQty(remaining, available, fractional)
    {
      assert x.Floor <= Min(remaining, available).Floor;
    }
  }

  lemma {:induction false} FirstGivingIsFirst(ranked: seq<Scored>, remaining: real, fractional: bool)
    ensures var p := FirstGiving(ranked, remaining, fractional);
      match p
      case None => forall x :: x in ranked ==> !Gives(x.c, remaining, fractional)
      case Some(w) =>
        exists k :: 0 <= k < |ranked| && ranked[k].c == w.c && Gives(w.c, remaining, fractional)
          && w.qty == OfferQty(remaining, w.c.available, fractional)
          && forall j :: 0 <= j < k ==> !Gives(ranked[j].c, remaining, fractional)
  {
    if ranked != [] && !Gives(ranked[0].c, remaining, fractional) {
      FirstGivingIsFirst(ranked[1..], remaining, fractional);
      if FirstGiving(ranked, remaining, fractional).Some? {
        var w := FirstGiving(ranked, remaining, fractional).value;
        var k :| 0 <= k < |ranked[1..]| && ranked[1..][k].c == w.c && Gives(w.c, remaining, fractional)
          && w.qty == OfferQty(remaining, w.c.available, fractional)
          && forall j :: 0 <= j < k ==> !Gives(ranked[1..][j].c, remaining, fractional);
        assert ranked[k + 1].c == w.c;
        forall j | 0 <= j < k + 1 ensures !Gives(ranked[j].c, remaining, fractional) {
          if j > 0 { assert ranked[j] == ranked[1..][j - 1]; }
        }
      }
    }
  }

  /** The winner minimises the drawn score over the candidates that can give, ties going to the earlier row. */
  ghost predicate BestAt(cs: seq<Candidate>, jitters: seq<real>, remaining: real, fractional: bool, i: nat)
    requires |cs| <= |jitters|
  {
    i < |cs| && Gives(cs[i], remaining, fractional)
    && forall j :: 0 <= j < |cs| && j != i && Gives(cs[j], remaining, fractional) ==>
      Before(Scored(cs[i], Score(cs[i], jitters[i]), i), Scored(cs[j], Score(cs[j], jitters[j]), j))
  }

  lemma {:induction false} WinnerIsBest(cs: seq<Candidate>, jitters: seq<real>, remaining: real, fractional: bool)
    requires |cs| <= |jitters|
    ensures match Winner(cs, jitters, remaining, fractional)
      case None => forall i :: 0 <= i < |cs| ==> !Gives(cs[i], remaining, fractional)
      case Some(w) =>
        exists i: nat :: BestAt(cs, jitters, remaining, fractional, i) && w.c == cs[i]
          && w.qty == OfferQty(remaining, cs[i].available, fractional)
  {
    var ranked := Rank(cs, jitters);
    RankSorts(cs, jitters);
    FirstGivingIsFirst(ranked, remaining, fractional);
    match Winner(cs, jitters, remaining, fractional)
    case None =>
      forall i | 0 <= i < |cs| ensures !Gives(cs[i], remaining, fractional) {
        assert IsScored(Scored(cs[i], Score(cs[i], jitters[i]), i), cs, jitters);
      }
    case Some(w) =>
      var k :| 0 <= k < |ranked| && ranked[k].c == w.c && Gives(w.c, remaining, fractional)
        && w.qty == OfferQty(remaining, w.c.available, fractional)
        && forall j :: 0 <= j < k ==> !Gives(ranked[j].c, remaining, fractional);
      FirstInRankIsBest(cs, jitters, remaining, fractional, k);
  }

  /** The first candidate in the ranking that can give is the best one that can. */
  lemma {:induction false} FirstInRankIsBest(cs: seq<Candidate>, jitters: seq<real>, remaining: real, fractional: bool, k: nat)
    requires |cs| <= |jitters| && k < |Rank(cs, jitters)| && Gives(Rank(cs, jitters)[k].c, remaining, fractional)
    requires forall j :: 0 <= j < k ==> !Gives(Rank(cs, jitters)[j].c, remaining, fractional)
    ensures var x := Rank(cs, jitters)[k];
      BestAt(cs, jitters, remaining, fractional, x.index) && x.c == cs[x.index]
  {
    var ranked := Rank(cs, jitters);
    RankSorts(cs, jitters);
    var x := ranked[k];
    assert x in ranked && IsScored(x, cs, jitters);
    forall j | 0 <= j < |cs| && j != x.index && Gives(cs[j], remaining, fractional)
      ensures Before(x, Scored(cs[j], Score(cs[j], jitters[j]), j))
    {
      var y := Scored(cs[j], Score(cs[j], jitters[j]), j);
      assert IsScored(y, cs, jitters) && y in ranked;
      var l :| 0 <= l < |ranked| && ranked[l] == y;
      assert l != k && l >= k;
    }
  }

  /** Nobody who could give and drew no worse is better than the winner on every count. */
  lemma {:induction false} WinnerNotOutclassed(cs: seq<Candidate>, jitters: seq<real>, remaining: real, fractional: bool, i: nat, j: nat)
    requires |cs| <= |jitters| && BestAt(cs, jitters, remaining, fractional, i)
    requires j < |cs| && Gives(cs[j], remaining, fractional) && jitters[j] <= jitters[i]
    ensures !MoreDeserving(cs[j], cs[i])
  {
    if MoreDeserving(cs[j], cs[i]) { DeservingFirst(cs[j], cs[i], jitters[j], jitters[i]); }
  }
}
