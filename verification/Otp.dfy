/**
 One-time sign-in codes: issuing, checking and retiring them, first with each check atomic, then with the
 statements of concurrent checks interleaved. A stored hash is modelled by the code it determines.
 */
module Otp {
  import opened Domain

  const MAX_ATTEMPTS: nat := 5
  const TTL: int := 600_000
  const HOUR: int := 3_600_000

  datatype Row = Row(
    email: string, code: string, attempts: nat, expiresAt: Time, consumedAt: Option<Time>, createdAt: Time)

  type Codes = map<Id, Row>

  datatype Result = Ok | Unauthorized | RateLimited

  // ------------------------------------------------- statements

  /** Every unconsumed code of the email is consumed. */
  function Retire(codes: Codes, email: string, now: Time): Codes {
    map i | i in codes ::
      if codes[i].email == email && codes[i].consumedAt.None? then codes[i].(consumedAt := Some(now)) else codes[i]
  }

  predicate Unconsumed(codes: Codes, email: string, i: Id) {
    i in codes && codes[i].email == email && codes[i].consumedAt.None?
  }

  /** The transaction of a successful request for a code. */
  function Issue(codes: Codes, id: Id, email: string, code: string, now: Time): Codes {
    Retire(codes, email, now)[id := Row(email, code, 0, now + TTL, None, now)]
  }

  predicate Candidate(codes: Codes, email: string, now: Time, i: Id) {
    i in codes && codes[i].email == email && codes[i].consumedAt.None? && codes[i].expiresAt > now
  }

  /** The newest usable code of the email; which one, among equally new, is up to the database. */
  ghost predicate Selects(codes: Codes, email: string, now: Time, pick: Option<Id>) {
    match pick
    case None => forall i :: !Candidate(codes, email, now, i)
    case Some(i) =>
      Candidate(codes, email, now, i) &&
      forall j :: Candidate(codes, email, now, j) ==> codes[j].createdAt <= codes[i].createdAt
  }

  function Bump(codes: Codes, i: Id): Codes {
    if i in codes then codes[i := codes[i].(attempts := codes[i].attempts + 1)] else codes
  }

  function Consume(codes: Codes, i: Id, now: Time): Codes {
    if i in codes then codes[i := codes[i].(consumedAt := Some(now))] else codes
  }

  /** Codes an hour past their expiry are deleted. */
  function Purge(codes: Codes, now: Time): Codes {
    map i | i in codes && codes[i].expiresAt >= now - HOUR :: codes[i]
  }

  /** The answer of a check that found `attempts` after its own bump. */
  function Verdict(right: bool, attempts: nat): Result {
    if !right then (if attempts >= MAX_ATTEMPTS then RateLimited else Unauthorized)
    else if attempts > MAX_ATTEMPTS then RateLimited
    else Ok
  }

  /** Whether that check also consumes the code. */
  predicate Retires(right: bool, attempts: nat) {
    if right then attempts <= MAX_ATTEMPTS else attempts >= MAX_ATTEMPTS
  }

  // ------------------------------------------------- checks one at a time

  /** One whole check of `code` against the selected row. */
  function Checked(codes: Codes, code: string, now: Time, pick: Option<Id>): Codes
    requires pick.Some? ==> pick.value in codes
  {
    if pick.None? then codes
    else
      var i := pick.value;
      var bumped := Bump(codes, i);
      if Retires(codes[i].code == code, bumped[i].attempts) then Consume(bumped, i, now) else bumped
  }

  function Answer(codes: Codes, code: string, pick: Option<Id>): Result
    requires pick.Some? ==> pick.value in codes
  {
    if pick.None? then Unauthorized else Verdict(codes[pick.value].code == code, codes[pick.value].attempts + 1)
  }

  /** `allowed`: both rate limits of the request admitted it. */
  datatype Step =
    | Request(id: Id, email: string, code: string, now: Time, allowed: bool)
    | Check(email: string, code: string, now: Time, pick: Option<Id>)
    | Sweep(now: Time)

  ghost predicate Enabled(codes: Codes, used: set<Id>, s: Step) {
    match s
    case Request(id, _, _, _, allowed) => id !in used
    case Check(email, _, now, pick) => Selects(codes, email, now, pick)
    case Sweep(_) => true
  }

  function After(codes: Codes, s: Step): Codes
    requires s.Check? && s.pick.Some? ==> s.pick.value in codes
  {
    match s
    case Request(id, email, code, now, allowed) => if allowed then Issue(codes, id, email, code, now) else codes
    case Check(_, code, now, pick) => Checked(codes, code, now, pick)
    case Sweep(now) => Purge(codes, now)
  }

  function Used(used: set<Id>, s: Step): set<Id> { if s.Request? then used + {s.id} else used }

  predicate Rivals(a: Row, b: Row) { a.consumedAt.None? && b.consumedAt.None? && a.email == b.email }

  /** Between steps an email has at most one unconsumed code, with fewer than five attempts on it. */
  ghost predicate Serial(codes: Codes, used: set<Id>) {
    && codes.Keys <= used
    && (forall i :: i in codes && codes[i].consumedAt.None? ==> codes[i].attempts < MAX_ATTEMPTS)
    && (forall i, j :: i in codes && j in codes && Rivals(codes[i], codes[j]) ==> i == j)
  }

  lemma {:induction false} StepKeepsSerial(codes: Codes, used: set<Id>, s: Step)
    requires Serial(codes, used) && Enabled(codes, used, s)
    ensures Serial(After(codes, s), Used(used, s))
  {
  }

  /** Checks still possible on a code, however the run goes on. */
  function TriesLeft(codes: Codes, used: set<Id>, id: Id): nat {
    if id !in used then MAX_ATTEMPTS
    else if id !in codes || codes[id].consumedAt.Some? || codes[id].attempts >= MAX_ATTEMPTS then 0
    else MAX_ATTEMPTS - codes[id].attempts
  }

  predicate Tries(s: Step, id: Id) { s.Check? && s.pick == Some(id) }

  predicate Succeeds(codes: Codes, s: Step, id: Id)
    requires s.Check? && s.pick.Some? ==> s.pick.value in codes
  {
    Tries(s, id) && Answer(codes, s.code, s.pick) == Ok
  }

  /** A check spends one try; a successful one, a request for a newer code and a sweep only ever take tries away. */
  lemma {:induction false} StepSpends(codes: Codes, used: set<Id>, s: Step, id: Id)
    requires Serial(codes, used) && Enabled(codes, used, s)
    ensures Tries(s, id) ==> TriesLeft(After(codes, s), Used(used, s), id) < TriesLeft(codes, used, id)
    ensures Succeeds(codes, s, id) ==> TriesLeft(After(codes, s), Used(used, s), id) == 0
    ensures TriesLeft(After(codes, s), Used(used, s), id) <= TriesLeft(codes, used, id)
  {
  }

  ghost predicate SerialRun(codes: Codes, used: set<Id>, steps: seq<Step>)
    decreases |steps|
  {
    steps == [] || (Enabled(codes, used, steps[0]) && SerialRun(After(codes, steps[0]), Used(used, steps[0]), steps[1..]))
  }

  ghost function TryCount(codes: Codes, used: set<Id>, steps: seq<Step>, id: Id): nat
    requires SerialRun(codes, used, steps)
    decreases |steps|
  {
    if steps == [] then 0
    else (if Tries(steps[0], id) then 1 else 0) + TryCount(After(codes, steps[0]), Used(used, steps[0]), steps[1..], id)
  }

  ghost function SuccessCount(codes: Codes, used: set<Id>, steps: seq<Step>, id: Id): nat
    requires SerialRun(codes, used, steps)
    decreases |steps|
  {
    if steps == [] then 0
    else
      (if Succeeds(codes, steps[0], id) then 1 else 0)
      + SuccessCount(After(codes, steps[0]), Used(used, steps[0]), steps[1..], id)
  }

  /** In every serial run a code is checked at most as often as it has tries left, and succeeds at most once. */
  lemma {:induction false} SerialBounds(codes: Codes, used: set<Id>, steps: seq<Step>, id: Id)
    requires Serial(codes, used) && SerialRun(codes, used, steps)
    ensures TryCount(codes, used, steps, id) <= TriesLeft(codes, used, id) <= MAX_ATTEMPTS
    ensures SuccessCount(codes, used, steps, id) <= TryCount(codes, used, steps, id)
    ensures SuccessCount(codes, used, steps, id) <= 1
    decreases |steps|
  {
    if steps != [] {
      StepKeepsSerial(codes, used, steps[0]);
      StepSpends(codes, used, steps[0], id);
      SerialBounds(After(codes, steps[0]), Used(used, steps[0]), steps[1..], id);
    }
  }

  /** The events that end a code: a success, the fifth try, or a newer code for the same email. */
  predicate Ends(codes: Codes, s: Step, id: Id)
    requires s.Check? && s.pick.Some? ==> s.pick.value in codes
  {
    || Succeeds(codes, s, id)
    || (Tries(s, id) && codes[id].attempts + 1 >= MAX_ATTEMPTS)
    || (s.Request? && s.allowed && id in codes && codes[id].email == s.email)
  }

  /** After any of them the code is never even checked again, whatever follows. */
  lemma {:induction false} EndedForever(codes: Codes, used: set<Id>, steps: seq<Step>, id: Id)
    requires Serial(codes, used) && steps != [] && SerialRun(codes, used, steps) && Ends(codes, steps[0], id)
    ensures TryCount(After(codes, steps[0]), Used(used, steps[0]), steps[1..], id) == 0
    ensures SuccessCount(After(codes, steps[0]), Used(used, steps[0]), steps[1..], id) == 0
  {
    StepKeepsSerial(codes, used, steps[0]);
    StepSpends(codes, used, steps[0], id);
    SerialBounds(After(codes, steps[0]), Used(used, steps[0]), steps[1..], id);
  }

  /** A check succeeds exactly when the email has a live code and it is the one presented. */
  lemma {:induction false} SucceedsExactly(codes: Codes, used: set<Id>, email: string, code: string, now: Time, pick: Option<Id>)
    requires Serial(codes, used) && Selects(codes, email, now, pick)
    ensures Answer(codes, code, pick) == Ok <==> exists i :: Candidate(codes, email, now, i) && codes[i].code == code
  {
    if i :| Candidate(codes, email, now, i) && codes[i].code == code {
      assert pick.Some?;
      assert pick.value == i;
    }
  }

  /** A fresh code is usable until it expires. */
  lemma {:induction false} FreshCodeWorks(codes: Codes, used: set<Id>, id: Id, email: string, code: string, now: Time, later: Time, pick: Option<Id>)
    requires Serial(codes, used) && id !in used && now <= later < now + TTL
    requires Selects(Issue(codes, id, email, code, now), email, later, pick)
    ensures pick == Some(id) && Answer(Issue(codes, id, email, code, now), code, pick) == Ok
  {
    assert Candidate(Issue(codes, id, email, code, now), email, later, id);
  }

  /**
   A wrong check costs one attempt and nothing else, until the fifth consumes the code; the right one consumes it. No
   other row changes.
   */
  lemma {:induction false} CheckExactly(codes: Codes, used: set<Id>, email: string, code: string, now: Time, id: Id)
    requires Serial(codes, used) && Selects(codes, email, now, Some(id))
    ensures var row, tried := codes[id], codes[id].attempts + 1;
      && Checked(codes, code, now, Some(id)) == codes[id :=
           row.(attempts := tried, consumedAt := if code == row.code || tried == 5 then Some(now) else None)]
      && Answer(codes, code, Some(id)) == (if code == row.code then Ok else if tried < 5 then Unauthorized else RateLimited)
  {
  }

  ghost function SerialEnd(codes: Codes, used: set<Id>, steps: seq<Step>): Codes
    requires SerialRun(codes, used, steps)
    decreases |steps|
  {
    if steps == [] then codes else SerialEnd(After(codes, steps[0]), Used(used, steps[0]), steps[1..])
  }

  /** Checks of code `id` that present something else. */
  function WrongTries(steps: seq<Step>, id: Id, code: string): nat {
    if steps == [] then 0 else (if Tries(steps[0], id) && steps[0].code != code then 1 else 0) + WrongTries(steps[1..], id, code)
  }

  /** No check has presented the code itself, and no newer one was issued to the email. */
  predicate Untouched(steps: seq<Step>, id: Id, email: string, code: string) {
    forall s :: s in steps ==>
      && !(Tries(s, id) && s.code == code)
      && !(s.Request? && s.allowed && s.email == email)
  }

  predicate SweptAfter(steps: seq<Step>, t: Time) { exists s :: s in steps && s.Sweep? && s.now > t }

  predicate Retired(codes: Codes, id: Id) { id in codes ==> codes[id].consumedAt.Some? }

  /** A retired code stays retired, and only a sweep an hour past its expiry deletes it. */
  lemma {:induction false} StaysRetired(codes: Codes, used: set<Id>, steps: seq<Step>, id: Id)
    requires Serial(codes, used) && SerialRun(codes, used, steps) && id in used && Retired(codes, id)
    ensures Retired(SerialEnd(codes, used, steps), id)
    ensures id !in codes ==> id !in SerialEnd(codes, used, steps)
    ensures id in codes && id !in SerialEnd(codes, used, steps) ==> SweptAfter(steps, codes[id].expiresAt + HOUR)
    decreases |steps|
  {
    if steps != [] {
      StepKeepsSerial(codes, used, steps[0]);
      StaysRetired(After(codes, steps[0]), Used(used, steps[0]), steps[1..], id);
      assert steps[0] in steps && forall s :: s in steps[1..] ==> s in steps;
    }
  }

  /** Whether a code with `attempts` tries on it outlives these steps. */
  predicate Outlives(steps: seq<Step>, id: Id, row: Row) {
    row.attempts + WrongTries(steps, id, row.code) < 5 && Untouched(steps, id, row.email, row.code)
  }

  lemma {:induction false} OutlivesFirst(steps: seq<Step>, id: Id, row: Row, row': Row)
    requires steps != [] && row' == row.(attempts := row'.attempts)
    requires row'.attempts == row.attempts + if Tries(steps[0], id) && steps[0].code != row.code then 1 else 0
    ensures Outlives(steps, id, row) <==> Untouched([steps[0]], id, row.email, row.code) && Outlives(steps[1..], id, row')
    ensures row'.attempts >= 5 ==> !Outlives(steps, id, row)
  {
    UntouchedFirst(steps, id, row.email, row.code);
  }

  lemma {:induction false} UntouchedFirst(steps: seq<Step>, id: Id, email: string, code: string)
    requires steps != []
    ensures Untouched(steps, id, email, code) <==> Untouched([steps[0]], id, email, code) && Untouched(steps[1..], id, email, code)
  {
    assert steps == [steps[0]] + steps[1..];
    if Untouched([steps[0]], id, email, code) { assert steps[0] in [steps[0]]; }
  }

  /** A live code keeps its row, counting wrong checks, for as long as it outlives the run; after that it is retired. */
  lemma {:induction false} CodeAfterRun(codes: Codes, used: set<Id>, steps: seq<Step>, id: Id)
    requires Serial(codes, used) && SerialRun(codes, used, steps) && id in codes && codes[id].consumedAt.None?
    ensures var row, end := codes[id], SerialEnd(codes, used, steps);
      && (Outlives(steps, id, row) && id in end ==> end[id] == row.(attempts := row.attempts + WrongTries(steps, id, row.code)))
      && (!Outlives(steps, id, row) ==> Retired(end, id))
      && (id !in end ==> SweptAfter(steps, row.expiresAt + HOUR))
    decreases |steps|
  {
    if steps != [] {
      var row, s, codes' := codes[id], steps[0], After(codes, steps[0]);
      var row' := if Tries(s, id) && s.code != row.code then row.(attempts := row.attempts + 1) else row;
      StepKeepsSerial(codes, used, s);
      if Tries(s, id) { CheckExactly(codes, used, s.email, s.code, s.now, id); }
      OutlivesFirst(steps, id, row, row');
      assert s in [s] && s in steps && forall x :: x in steps[1..] ==> x in steps;
      if id in codes' && codes'[id].consumedAt.None? {
        assert codes'[id] == row';
        CodeAfterRun(codes', Used(used, s), steps[1..], id);
      } else {
        StaysRetired(codes', Used(used, s), steps[1..], id);
      }
    }
  }

  /**
   A live code is still accepted after any serial run exactly when at most four attempts have been made on it, none with
   the code itself, no newer code was issued to its email and it has not expired.
   */
  lemma {:induction false} CodeWorksExactly(codes: Codes, used: set<Id>, steps: seq<Step>, id: Id, now: Time, pick: Option<Id>)
    requires Serial(codes, used) && SerialRun(codes, used, steps) && id in codes && codes[id].consumedAt.None?
    requires !SweptAfter(steps, now + HOUR) && Selects(SerialEnd(codes, used, steps), codes[id].email, now, pick)
    ensures pick == Some(id) && Answer(SerialEnd(codes, used, steps), codes[id].code, pick) == Ok <==>
      && codes[id].attempts + WrongTries(steps, id, codes[id].code) < 5
      && Untouched(steps, id, codes[id].email, codes[id].code)
      && now < codes[id].expiresAt
  {
    CodeAfterRun(codes, used, steps, id);
    SerialRunKeeps(codes, used, steps);
    var end := SerialEnd(codes, used, steps);
    var row := codes[id];
    if pick == Some(id) {
      assert id in end && !Retired(end, id) && end[id] == row.(attempts := row.attempts + WrongTries(steps, id, row.code));
    } else if Outlives(steps, id, row) && now < row.expiresAt {
      OnlyCandidate(end, UsedAfter(used, steps), row.email, now, id, pick);
    }
  }

  /** The one unconsumed code of an email is selected as long as it has not expired. */
  lemma {:induction false} OnlyCandidate(codes: Codes, used: set<Id>, email: string, now: Time, id: Id, pick: Option<Id>)
    requires Serial(codes, used) && Candidate(codes, email, now, id) && Selects(codes, email, now, pick)
    ensures pick == Some(id)
  {
    assert pick.Some?;
    assert Rivals(codes[id], codes[pick.value]);
  }

  function UsedAfter(used: set<Id>, steps: seq<Step>): set<Id>
    decreases |steps|
  {
    if steps == [] then used else UsedAfter(Used(used, steps[0]), steps[1..])
  }

  lemma {:induction false} SerialRunKeeps(codes: Codes, used: set<Id>, steps: seq<Step>)
    requires Serial(codes, used) && SerialRun(codes, used, steps)
    ensures Serial(SerialEnd(codes, used, steps), UsedAfter(used, steps))
    decreases |steps|
  {
    if steps != [] {
      StepKeepsSerial(codes, used, steps[0]);
      SerialRunKeeps(After(codes, steps[0]), Used(used, steps[0]), steps[1..]);
    }
  }

  /** From its issue on: four wrong checks within ten minutes leave a new code usable, the fifth ends it. */
  lemma {:induction false} IssuedCodeWorksExactly(
    codes: Codes, used: set<Id>, id: Id, email: string, code: string, issued: Time, steps: seq<Step>, now: Time, pick: Option<Id>)
    requires Serial(codes, used) && id !in used
    requires SerialRun(Issue(codes, id, email, code, issued), used + {id}, steps) && !SweptAfter(steps, now + HOUR)
    requires Selects(SerialEnd(Issue(codes, id, email, code, issued), used + {id}, steps), email, now, pick)
    ensures pick == Some(id) && Answer(SerialEnd(Issue(codes, id, email, code, issued), used + {id}, steps), code, pick) == Ok <==>
      && WrongTries(steps, id, code) <= 4 && Untouched(steps, id, email, code) && now < issued + 600_000
  {
    StepKeepsSerial(codes, used, Step.Request(id, email, code, issued, true));
    CodeWorksExactly(Issue(codes, id, email, code, issued), used + {id}, steps, id, now, pick);
  }

  // ------------------------------------------------- checks interleaved statement by statement

  /** Where a running check stands. */
  datatype Proc =
    | Ready(email: string, code: string)
    | Held(id: Id, row: Row, code: string, since: Time)
    | Bumped(id: Id, attempts: nat, right: bool)
    | Done(result: Result, id: Id, attempts: nat)
    | NotFound

  datatype State = State(codes: Codes, used: set<Id>, procs: map<Id, Proc>)

  datatype Move =
    | Begin(p: Id, email: string, code: string)
    | Select(p: Id, now: Time, pick: Option<Id>)
    | BumpRow(p: Id)
    | Decide(p: Id, now: Time)
    | NewCode(id: Id, email: string, code: string, now: Time)
    | SweepOld(now: Time)

  ghost predicate CanMove(st: State, m: Move) {
    match m
    case Begin(p, _, _) => p !in st.procs
    case Select(p, now, pick) => p in st.procs && st.procs[p].Ready? && Selects(st.codes, st.procs[p].email, now, pick)
    case BumpRow(p) => p in st.procs && st.procs[p].Held?
    case Decide(p, _) => p in st.procs && st.procs[p].Bumped?
    case NewCode(id, _, _, _) => id !in st.used
    case SweepOld(_) => true
  }

  /** The move is no sweep that deletes a code some check holds between its select and its bump. */
  ghost predicate Spares(st: State, m: Move) {
    m.SweepOld? ==>
      forall p :: p in st.procs && st.procs[p].Held? && st.procs[p].id in st.codes ==> st.procs[p].id in Purge(st.codes, m.now)
  }

  /** The attempts a check works with: what its own bump returned, or its snapshot plus one if the row is gone. */
  function SeenAttempts(codes: Codes, h: Proc): nat
    requires h.Held?
  {
    if h.id in codes then codes[h.id].attempts + 1 else h.row.attempts + 1
  }

  ghost function Moved(st: State, m: Move): State
    requires CanMove(st, m)
  {
    match m
    case Begin(p, email, code) => st.(procs := st.procs[p := Ready(email, code)])
    case Select(p, now, pick) =>
      st.(procs := st.procs[p :=
        if pick.None? then NotFound else Held(pick.value, st.codes[pick.value], st.procs[p].code, now)])
    case BumpRow(p) =>
      var h := st.procs[p];
      st.(codes := Bump(st.codes, h.id),
          procs := st.procs[p := Bumped(h.id, SeenAttempts(st.codes, h), h.row.code == h.code)])
    case Decide(p, now) =>
      var b := st.procs[p];
      st.(codes := if Retires(b.right, b.attempts) then Consume(st.codes, b.id, now) else st.codes,
          procs := st.procs[p := Done(Verdict(b.right, b.attempts), b.id, b.attempts)])
    case NewCode(id, email, code, now) => st.(codes := Issue(st.codes, id, email, code, now), used := st.used + {id})
    case SweepOld(now) => st.(codes := Purge(st.codes, now))
  }

  predicate HasBumped(pr: Proc) { pr.Bumped? || pr.Done? }

  /** What a single check can rely on while no held code is swept. */
  ghost predicate ProcSound(st: State, p: Id)
    requires p in st.procs
  {
    var pr := st.procs[p];
    && (pr.Held? ==> pr.id in st.codes)
    && (HasBumped(pr) ==>
          && pr.id in st.used && pr.attempts >= 1
          && (pr.id in st.codes ==> pr.attempts <= st.codes[pr.id].attempts))
    && (pr.Done? && pr.result == Ok ==> pr.attempts <= MAX_ATTEMPTS)
  }

  /** Every check that has bumped a code holds a different attempt number of it. */
  ghost predicate Apart(st: State, p: Id, q: Id)
    requires p in st.procs && q in st.procs
  {
    var x, y := st.procs[p], st.procs[q];
    p != q && HasBumped(x) && HasBumped(y) && x.id == y.id ==> x.attempts != y.attempts
  }

  ghost predicate Sound(st: State) {
    && st.codes.Keys <= st.used
    && (forall p {:trigger ProcSound(st, p)} :: p in st.procs ==> ProcSound(st, p))
    && (forall p, q {:trigger Apart(st, p, q)} :: p in st.procs && q in st.procs ==> Apart(st, p, q))
  }

  lemma {:induction false} MoveKeepsSound(st: State, m: Move)
    requires Sound(st) && CanMove(st, m) && Spares(st, m)
    ensures Sound(Moved(st, m))
  {
    var st' := Moved(st, m);
    forall p | p in st'.procs ensures ProcSound(st', p) {
      assert p in st.procs ==> ProcSound(st, p);
    }
    forall p, q | p in st'.procs && q in st'.procs ensures Apart(st', p, q) {
      assert p in st.procs ==> ProcSound(st, p);
      assert q in st.procs ==> ProcSound(st, q);
      assert p in st.procs && q in st.procs ==> Apart(st, p, q);
    }
  }

  ghost predicate Interleaving(st: State, moves: seq<Move>)
    decreases |moves|
  {
    moves == [] || (CanMove(st, moves[0]) && Interleaving(Moved(st, moves[0]), moves[1..]))
  }

  ghost function Final(st: State, moves: seq<Move>): State
    requires Interleaving(st, moves)
    decreases |moves|
  {
    if moves == [] then st else Final(Moved(st, moves[0]), moves[1..])
  }

  /** No sweep of the run deletes a held code. */
  ghost predicate SparesHeld(st: State, moves: seq<Move>)
    requires Interleaving(st, moves)
    decreases |moves|
  {
    moves == [] || (Spares(st, moves[0]) && SparesHeld(Moved(st, moves[0]), moves[1..]))
  }

  lemma {:induction false} InterleavingKeepsSound(st: State, moves: seq<Move>)
    requires Sound(st) && Interleaving(st, moves) && SparesHeld(st, moves)
    ensures Sound(Final(st, moves))
    decreases |moves|
  {
    if moves != [] {
      MoveKeepsSound(st, moves[0]);
      InterleavingKeepsSound(Moved(st, moves[0]), moves[1..]);
    }
  }

  /** The checks that succeeded on one code. */
  function Winners(st: State, id: Id): set<Id> {
    set p | p in st.procs && st.procs[p].Done? && st.procs[p].result == Ok && st.procs[p].id == id
  }

  /** Checks with distinct attempt numbers up to `n` are at most `n`. */
  lemma {:induction false} FewNumbers(number: map<Id, nat>, n: nat)
    requires forall p :: p in number ==> 1 <= number[p] <= n
    requires forall p, q :: p in number && q in number && p != q ==> number[p] != number[q]
    ensures |number.Keys| <= n
    decreases n
  {
    if n == 0 {
      assert number.Keys == {} by { forall p ensures p !in number { } }
    } else if p :| p in number && number[p] == n {
      FewNumbers(number - {p}, n - 1);
      assert number.Keys == (number - {p}).Keys + {p};
    } else {
      FewNumbers(number, n - 1);
    }
  }

  /** However the statements of concurrent checks interleave, at most five succeed on one code, if no held code is swept. */
  lemma {:induction false} AtMostFiveSuccesses(st: State, moves: seq<Move>, id: Id)
    requires Sound(st) && Interleaving(st, moves) && SparesHeld(st, moves)
    ensures |Winners(Final(st, moves), id)| <= MAX_ATTEMPTS
  {
    InterleavingKeepsSound(st, moves);
    var end := Final(st, moves);
    var ws := Winners(end, id);
    forall p | p in ws ensures p in end.procs && HasBumped(end.procs[p]) && 1 <= end.procs[p].attempts <= MAX_ATTEMPTS {
      assert ProcSound(end, p);
    }
    forall p, q | p in ws && q in ws && p != q ensures end.procs[p].attempts != end.procs[q].attempts {
      assert Apart(end, p, q);
    }
    var number: map<Id, nat> := map p | p in ws :: end.procs[p].attempts;
    assert number.Keys == ws;
    FewNumbers(number, MAX_ATTEMPTS);
  }

  /** A check whose statements run without interruption is the whole check. */
  lemma {:induction false} AloneIsSerial(st: State, p: Id, now: Time, pick: Option<Id>)
    requires p in st.procs && st.procs[p].Ready? && Selects(st.codes, st.procs[p].email, now, pick)
    ensures var m := Moved(st, Select(p, now, pick));
      if pick.None? then m.codes == st.codes && m.procs[p] == NotFound
      else
        && CanMove(m, BumpRow(p))
        && CanMove(Moved(m, BumpRow(p)), Decide(p, now))
        && var end := Moved(Moved(m, BumpRow(p)), Decide(p, now));
           end.codes == Checked(st.codes, st.procs[p].code, now, pick)
           && end.procs[p].result == Answer(st.codes, st.procs[p].code, pick)
  {
  }

  /** One live code with no attempts on it, and two checks that present it. */
  ghost function TwoChecks(email: string, code: string, now: Time): State {
    State(map[0 := Row(email, code, 0, now + TTL, None, now)], {0}, map[1 := Ready(email, code), 2 := Ready(email, code)])
  }

  /** Both select, both bump, both decide. */
  function InStep(now: Time): seq<Move> {
    [Select(1, now, Some(0))] + ([Select(2, now, Some(0))] + ([BumpRow(1)] + ([BumpRow(2)] + ([Decide(1, now)] + ([Decide(2, now)] + [])))))
  }

  /** Both checks hold the code and the first has bumped it. */
  ghost function OneBumped(row: Row, now: Time): State {
    State(map[0 := row.(attempts := 1)], {0}, map[1 := Bumped(0, 1, true), 2 := Held(0, row, row.code, now)])
  }

  lemma {:induction false} RestSucceeds(row: Row, now: Time)
    requires row.attempts == 0
    ensures var rest := [BumpRow(2)] + ([Decide(1, now)] + ([Decide(2, now)] + []));
      && Interleaving(OneBumped(row, now), rest) && SparesHeld(OneBumped(row, now), rest)
      && Winners(Final(OneBumped(row, now), rest), 0) == {1, 2}
  {
    var s4 := State(map[0 := row.(attempts := 2)], {0}, map[1 := Bumped(0, 1, true), 2 := Bumped(0, 2, true)]);
    var used := map[0 := row.(attempts := 2, consumedAt := Some(now))];
    var s5 := State(used, {0}, map[1 := Done(Ok, 0, 1), 2 := Bumped(0, 2, true)]);
    var s6 := State(used, {0}, map[1 := Done(Ok, 0, 1), 2 := Done(Ok, 0, 2)]);
    Prepend(s5, s6, Decide(2, now), []);
    Prepend(s4, s5, Decide(1, now), [Decide(2, now)] + []);
    Prepend(OneBumped(row, now), s4, BumpRow(2), [Decide(1, now)] + ([Decide(2, now)] + []));
  }

  /** Two checks that both select before either consumes: one code signs in twice, so single use is a serial promise. */
  lemma {:induction false} TwiceUsed(email: string, code: string, now: Time)
    ensures var st := TwoChecks(email, code, now);
      && Sound(st) && Interleaving(st, InStep(now)) && SparesHeld(st, InStep(now))
      && Winners(Final(st, InStep(now)), 0) == {1, 2}
  {
    var st, row := TwoChecks(email, code, now), Row(email, code, 0, now + TTL, None, now);
    assert Candidate(st.codes, email, now, 0);
    var held := Held(0, row, code, now);
    var s1 := State(st.codes, {0}, map[1 := held, 2 := Ready(email, code)]);
    var s2 := State(st.codes, {0}, map[1 := held, 2 := held]);
    RestSucceeds(row, now);
    SelectAndBump(st, s1, s2, OneBumped(row, now), now, [BumpRow(2)] + ([Decide(1, now)] + ([Decide(2, now)] + [])));
  }

  lemma {:induction false} SelectAndBump(st: State, s1: State, s2: State, s3: State, now: Time, rest: seq<Move>)
    requires CanMove(st, Select(1, now, Some(0))) && s1 == Moved(st, Select(1, now, Some(0)))
    requires CanMove(s1, Select(2, now, Some(0))) && s2 == Moved(s1, Select(2, now, Some(0)))
    requires CanMove(s2, BumpRow(1)) && s3 == Moved(s2, BumpRow(1)) && Interleaving(s3, rest) && SparesHeld(s3, rest)
    ensures var moves := [Select(1, now, Some(0))] + ([Select(2, now, Some(0))] + ([BumpRow(1)] + rest));
      Interleaving(st, moves) && SparesHeld(st, moves) && Final(st, moves) == Final(s3, rest)
  {
    Prepend(s2, s3, BumpRow(1), rest);
    Prepend(s1, s2, Select(2, now, Some(0)), [BumpRow(1)] + rest);
    Prepend(st, s1, Select(1, now, Some(0)), [Select(2, now, Some(0))] + ([BumpRow(1)] + rest));
  }

  lemma {:induction false} Prepend(st: State, next: State, m: Move, rest: seq<Move>)
    requires CanMove(st, m) && next == Moved(st, m) && Interleaving(next, rest)
    ensures Interleaving(st, [m] + rest) && Final(st, [m] + rest) == Final(next, rest)
    ensures SparesHeld(st, [m] + rest) <==> Spares(st, m) && SparesHeld(next, rest)
  {
    assert ([m] + rest)[1..] == rest;
  }

  // ------------------------------------------------- when a second check succeeds

  /** What every interleaving keeps, sweeps of held codes included. */
  ghost predicate Known(st: State) {
    st.codes.Keys <= st.used && forall p :: p in st.procs ==> KnownProc(st, p)
  }

  ghost predicate KnownProc(st: State, p: Id)
    requires p in st.procs
  {
    var pr := st.procs[p];
    && (pr.Held? || HasBumped(pr) ==> pr.id in st.used)
    && (pr.Held? && pr.id in st.codes ==> pr.row.attempts <= st.codes[pr.id].attempts && pr.since < st.codes[pr.id].expiresAt)
  }

  /** The code is consumed or gone. */
  predicate Spent(st: State, id: Id) {
    id in st.used && (id in st.codes ==> st.codes[id].consumedAt.Some?)
  }

  /** A code some check has succeeded on is spent. */
  ghost predicate Lived(st: State) { Known(st) && forall id :: Winners(st, id) != {} ==> Spent(st, id) }

  lemma {:induction false} MoveKeepsLived(st: State, m: Move)
    requires Lived(st) && CanMove(st, m)
    ensures Lived(Moved(st, m))
    ensures forall id :: Winners(st, id) <= Winners(Moved(st, m), id)
    ensures forall id :: Spent(st, id) ==> Spent(Moved(st, m), id)
  {
    MoveKeepsKnown(st, m);
    MoveKeepsSpent(st, m);
    var st' := Moved(st, m);
    forall id | Winners(st', id) != {} ensures Spent(st', id) {
      var p :| p in Winners(st', id);
      if !(m.Decide? && m.p == p) { assert p in Winners(st, id); }
    }
  }

  lemma {:induction false} MoveKeepsKnown(st: State, m: Move)
    requires Known(st) && CanMove(st, m)
    ensures Known(Moved(st, m))
  {
    forall p | p in Moved(st, m).procs ensures KnownProc(Moved(st, m), p) { MoveKeepsKnownProc(st, m, p); }
  }

  lemma {:induction false} MoveKeepsKnownProc(st: State, m: Move, p: Id)
    requires Known(st) && CanMove(st, m) && p in Moved(st, m).procs
    ensures KnownProc(Moved(st, m), p)
  {
    assert p in st.procs ==> KnownProc(st, p);
  }

  /** Codes stay spent, and successful checks successful. */
  lemma {:induction false} MoveKeepsSpent(st: State, m: Move)
    requires Known(st) && CanMove(st, m)
    ensures forall id :: Spent(st, id) ==> Spent(Moved(st, m), id)
    ensures forall id :: Winners(st, id) <= Winners(Moved(st, m), id)
  {
  }

  lemma {:induction false} InterleavingKeepsLived(st: State, moves: seq<Move>)
    requires Lived(st) && Interleaving(st, moves)
    ensures Lived(Final(st, moves))
    decreases |moves|
  {
    if moves != [] {
      MoveKeepsLived(st, moves[0]);
      InterleavingKeepsLived(Moved(st, moves[0]), moves[1..]);
    }
  }

  /**
   A check with the right code that is past its select and can still end in success: it holds the code with a try
   left, or has bumped it within the limit. A later sweep can take a held check back to its snapshot; `spare` says that
   none does.
   */
  predicate InFlight(st: State, p: Id, id: Id, spare: bool) {
    p in st.procs &&
    var pr := st.procs[p];
    || (pr.Held? && pr.id == id && pr.row.code == pr.code
        && (if spare then SeenAttempts(st.codes, pr) else pr.row.attempts + 1) <= MAX_ATTEMPTS)
    || (pr.Bumped? && pr.id == id && pr.right && pr.attempts <= MAX_ATTEMPTS)
  }

  ghost predicate NoneInFlight(st: State, id: Id, spare: bool) { forall p :: !InFlight(st, p, id, spare) }

  /** Once a code is spent and no check on it is in flight, it stays that way and nobody else succeeds on it. */
  lemma {:induction false} MoveKeepsNoneInFlight(st: State, m: Move, id: Id, spare: bool)
    requires Lived(st) && Spent(st, id) && NoneInFlight(st, id, spare) && CanMove(st, m) && (spare ==> Spares(st, m))
    ensures NoneInFlight(Moved(st, m), id, spare) && Winners(Moved(st, m), id) == Winners(st, id)
  {
    var st' := Moved(st, m);
    forall p ensures !InFlight(st', p, id, spare) { assert !InFlight(st, p, id, spare); }
    forall p ensures p in Winners(st', id) <==> p in Winners(st, id) { assert !InFlight(st, p, id, spare); }
  }

  lemma {:induction false} NobodyElseSucceeds(st: State, moves: seq<Move>, id: Id, spare: bool)
    requires Lived(st) && Spent(st, id) && NoneInFlight(st, id, spare)
    requires Interleaving(st, moves) && (spare ==> SparesHeld(st, moves))
    ensures Winners(Final(st, moves), id) == Winners(st, id)
    decreases |moves|
  {
    if moves != [] {
      MoveKeepsNoneInFlight(st, moves[0], id, spare);
      MoveKeepsLived(st, moves[0]);
      NobodyElseSucceeds(Moved(st, moves[0]), moves[1..], id, spare);
    }
  }

  lemma {:induction false} BumpedSucceeds(st: State, p: Id) returns (moves: seq<Move>)
    requires p in st.procs && st.procs[p].Bumped? && st.procs[p].right && st.procs[p].attempts <= MAX_ATTEMPTS
    ensures Interleaving(st, moves) && SparesHeld(st, moves) && p in Winners(Final(st, moves), st.procs[p].id)
  {
    var next := Moved(st, Decide(p, 0));
    moves := [Decide(p, 0)] + [];
    Prepend(st, next, Decide(p, 0), []);
  }

  lemma {:induction false} HeldSucceeds(st: State, p: Id) returns (moves: seq<Move>)
    requires p in st.procs && st.procs[p].Held? && st.procs[p].row.code == st.procs[p].code
    requires SeenAttempts(st.codes, st.procs[p]) <= MAX_ATTEMPTS
    ensures Interleaving(st, moves) && SparesHeld(st, moves) && p in Winners(Final(st, moves), st.procs[p].id)
  {
    var next := Moved(st, BumpRow(p));
    var rest := BumpedSucceeds(next, p);
    moves := [BumpRow(p)] + rest;
    Prepend(st, next, BumpRow(p), rest);
  }

  /** Every check in flight can be driven to success. */
  lemma {:induction false} InFlightSucceeds(st: State, p: Id, id: Id, spare: bool) returns (moves: seq<Move>)
    requires InFlight(st, p, id, spare)
    ensures Interleaving(st, moves) && (spare ==> SparesHeld(st, moves)) && p in Winners(Final(st, moves), id)
  {
    var pr := st.procs[p];
    if pr.Bumped? {
      moves := BumpedSucceeds(st, p);
    } else if SeenAttempts(st.codes, pr) <= MAX_ATTEMPTS {
      moves := HeldSucceeds(st, p);
    } else {
      var sweep := SweepOld(st.codes[id].expiresAt + HOUR + 1);
      var next := Moved(st, sweep);
      var rest := HeldSucceeds(next, p);
      moves := [sweep] + rest;
      Prepend(st, next, sweep, rest);
    }
  }

  /** From `st` the interleaving can be continued so that one more check succeeds on the code. */
  ghost predicate AnotherSuccess(st: State, id: Id, spare: bool) {
    exists moves ::
      Interleaving(st, moves) && (spare ==> SparesHeld(st, moves)) && Winners(Final(st, moves), id) != Winners(st, id)
  }

  /**
   Single use, exactly: once a check has succeeded on a code, another can succeed if and only if it is in flight at
   that moment.
   */
  lemma {:induction false} SecondSuccessExactly(start: State, moves: seq<Move>, id: Id, spare: bool)
    requires Lived(start) && Interleaving(start, moves) && Winners(Final(start, moves), id) != {}
    ensures AnotherSuccess(Final(start, moves), id, spare) <==> exists p :: InFlight(Final(start, moves), p, id, spare)
  {
    InterleavingKeepsLived(start, moves);
    var st := Final(start, moves);
    assert Spent(st, id);
    if p :| InFlight(st, p, id, spare) {
      var more := InFlightSucceeds(st, p, id, spare);
      assert p !in Winners(st, id);
      assert AnotherSuccess(st, id, spare);
    } else if AnotherSuccess(st, id, spare) {
      var more :| Interleaving(st, more) && (spare ==> SparesHeld(st, more)) && Winners(Final(st, more), id) != Winners(st, id);
      NobodyElseSucceeds(st, more, id, spare);
    }
  }

  // ------------------------------------------------- checks that do not stall

  /** A sweep finds no check that selected its code more than an hour before. */
  ghost predicate Prompt(st: State, m: Move) {
    m.SweepOld? ==> forall p :: p in st.procs && st.procs[p].Held? ==> m.now <= st.procs[p].since + HOUR
  }

  ghost predicate AllPrompt(st: State, moves: seq<Move>)
    requires Interleaving(st, moves)
    decreases |moves|
  {
    moves == [] || (Prompt(st, moves[0]) && AllPrompt(Moved(st, moves[0]), moves[1..]))
  }

  /** A code is selected before its expiry and swept an hour after it, so prompt checks never lose theirs. */
  lemma {:induction false} PromptSpares(st: State, moves: seq<Move>)
    requires Lived(st) && Interleaving(st, moves) && AllPrompt(st, moves)
    ensures SparesHeld(st, moves)
    decreases |moves|
  {
    if moves != [] {
      MoveKeepsLived(st, moves[0]);
      PromptSpares(Moved(st, moves[0]), moves[1..]);
    }
  }

  const START := State(map[], {}, map[])

  lemma {:induction false} StartIsSound()
    ensures Sound(START) && Lived(START) && Serial(START.codes, START.used)
  {
  }

  /** From the empty tables at most five checks succeed on a code, as long as none stalls for an hour before its bump. */
  lemma {:induction false} AtMostFiveWhenPrompt(moves: seq<Move>, id: Id)
    requires Interleaving(START, moves) && AllPrompt(START, moves)
    ensures |Winners(Final(START, moves), id)| <= MAX_ATTEMPTS
  {
    StartIsSound();
    PromptSpares(START, moves);
    AtMostFiveSuccesses(START, moves, id);
  }

  // ------------------------------------------------- a held code that is swept

  function Upto(n: nat): (s: set<Id>)
    ensures |s| == n && forall p: Id :: p in s <==> p < n
  {
    if n == 0 then {} else Upto(n - 1) + {n - 1}
  }

  /** Checks from `k` on decide one after the other; each falls back on its snapshot and succeeds. */
  lemma {:induction false} EachSucceeds(st: State, row: Row, k: nat, n: nat) returns (moves: seq<Move>)
    requires k <= n && row.attempts == 0 && 0 !in st.codes
    requires forall p: Id :: p in st.procs <==> p < n
    requires forall p: Id :: p < k ==> st.procs[p] == Done(Ok, 0, 1)
    requires forall p: Id :: k <= p < n ==> st.procs[p] == Held(0, row, row.code, row.expiresAt - 1)
    ensures Interleaving(st, moves)
    ensures Winners(Final(st, moves), 0) == Upto(n)
    decreases n - k
  {
    if k == n {
      moves := [];
      assert Winners(st, 0) == Upto(n);
    } else {
      var bump, decide := BumpRow(k), Decide(k, 0);
      var mid := Moved(st, bump);
      var next := Moved(mid, decide);
      var rest := EachSucceeds(next, row, k + 1, n);
      Prepend(mid, next, decide, rest);
      Prepend(st, mid, bump, [decide] + rest);
      moves := [bump] + ([decide] + rest);
    }
  }

  /** `n` checks present the same live code 0; those below `k` have selected it, the others are ready. */
  ghost function Holding(row: Row, k: nat, n: nat): State {
    State(map[0 := row], {0}, map p | p in Upto(n) :: if p < k then Held(0, row, row.code, row.expiresAt - 1) else Ready(row.email, row.code))
  }

  lemma {:induction false} HoldsOneMore(row: Row, k: nat, n: nat)
    requires k < n && row.consumedAt.None?
    ensures var select := Select(k, row.expiresAt - 1, Some(0));
      CanMove(Holding(row, k, n), select) && Moved(Holding(row, k, n), select) == Holding(row, k + 1, n)
  {
    var st, select := Holding(row, k, n), Select(k, row.expiresAt - 1, Some(0));
    assert Candidate(st.codes, row.email, row.expiresAt - 1, 0);
    assert Moved(st, select).procs == Holding(row, k + 1, n).procs;
  }

  lemma {:induction false} HoldingIsSound(row: Row, k: nat, n: nat)
    ensures Sound(Holding(row, k, n))
  {
  }

  /** Sweeping the held code leaves the holders with their snapshots, and each of them succeeds. */
  lemma {:induction false} SweptHoldersSucceed(row: Row, n: nat) returns (moves: seq<Move>)
    requires row.attempts == 0
    ensures Interleaving(Holding(row, n, n), moves) && Winners(Final(Holding(row, n, n), moves), 0) == Upto(n)
  {
    var st, sweep := Holding(row, n, n), SweepOld(row.expiresAt + HOUR + 1);
    var next := Moved(st, sweep);
    var rest := EachSucceeds(next, row, 0, n);
    Prepend(st, next, sweep, rest);
    moves := [sweep] + rest;
  }

  /**
   Without the condition on sweeps there is no bound: any number of checks that stall past the sweep of their code fall
   back on their own snapshot, and every one of them succeeds.
   */
  lemma {:induction false} SweptCodeHasNoBound(row: Row, k: nat, n: nat) returns (moves: seq<Move>)
    requires k <= n && row.attempts == 0 && row.consumedAt.None?
    ensures Sound(Holding(row, k, n)) && Interleaving(Holding(row, k, n), moves)
    ensures |Winners(Final(Holding(row, k, n), moves), 0)| == n
  {
    HoldingIsSound(row, k, n);
    moves := AllSucceed(row, k, n);
  }

  lemma {:induction false} AllSucceed(row: Row, k: nat, n: nat) returns (moves: seq<Move>)
    requires k <= n && row.attempts == 0 && row.consumedAt.None?
    ensures Interleaving(Holding(row, k, n), moves) && Winners(Final(Holding(row, k, n), moves), 0) == Upto(n)
    decreases n - k
  {
    if k == n {
      moves := SweptHoldersSucceed(row, n);
    } else {
      HoldsOneMore(row, k, n);
      var rest := AllSucceed(row, k + 1, n);
      moves := [Select(k, row.expiresAt - 1, Some(0))] + rest;
      Prepend(Holding(row, k, n), Holding(row, k + 1, n), Select(k, row.expiresAt - 1, Some(0)), rest);
    }
  }
}

/** The code store as the sign-in service updates it, one request at a time. */
module OtpStore {
  import opened Domain
  import opened Otp

  /** Issuing a code leaves it as the only unconsumed one of its email. */
  lemma {:induction false} IssueLeavesOne(codes: Codes, id: Id, email: string, code: string, now: Time)
    requires id !in codes
    ensures var codes' := Issue(codes, id, email, code, now);
      && (forall i :: Unconsumed(codes', email, i) <==> i == id)
      && (forall i :: i in codes ==>
            i in codes' && (codes'[i] == codes[i]
                            || (Unconsumed(codes, email, i) && codes'[i] == codes[i].(consumedAt := Some(now)))))
      && forall used :: Serial(codes, used) && id !in used ==> Serial(codes', used + {id})
  {
    forall used | Serial(codes, used) && id !in used ensures Serial(Issue(codes, id, email, code, now), used + {id}) {
      StepKeepsSerial(codes, used, Step.Request(id, email, code, now, true));
    }
  }

  class Store {
    var codes: Codes

    constructor ()
      ensures codes == map[]
    {
      codes := map[];
    }

    method StartOtp(id: Id, email: string, code: string, now: Time, allowed: bool)
      requires id !in codes
      modifies this
      ensures codes == After(old(codes), Step.Request(id, email, code, now, allowed))
      ensures allowed ==> forall i :: Unconsumed(codes, email, i) <==> i == id
      ensures allowed ==> codes[id].code == code && codes[id].attempts == 0 && codes[id].expiresAt == now + TTL
      ensures forall i :: i in old(codes) ==>
        && i in codes
        && (codes[i] == old(codes)[i]
            || (allowed && Unconsumed(old(codes), email, i) && codes[i] == old(codes)[i].(consumedAt := Some(now))))
      ensures forall used :: Serial(old(codes), used) && id !in used ==> Serial(codes, used + {id})
    {
      if !allowed {
        assert forall used :: used + {id} >= used;
        return;
      }
      IssueLeavesOne(codes, id, email, code, now);
      codes := Retire(codes, email, now);
      codes := codes[id := Row(email, code, 0, now + TTL, None, now)];
    }

    /** The newest usable code of the email, found in one pass over the table. */
    method SelectNewest(email: string, now: Time) returns (pick: Option<Id>)
      ensures Selects(codes, email, now, pick)
    {
      pick := None;
      var todo := codes.Keys;
      while todo != {}
        invariant todo <= codes.Keys
        invariant pick.None? ==> forall i :: i in codes.Keys - todo ==> !Candidate(codes, email, now, i)
        invariant pick.Some? ==>
          && Candidate(codes, email, now, pick.value)
          && forall i :: i in codes.Keys - todo && Candidate(codes, email, now, i) ==>
               codes[i].createdAt <= codes[pick.value].createdAt
        decreases |todo|
      {
        var i :| i in todo;
        todo := todo - {i};
        if Candidate(codes, email, now, i) && (pick.None? || codes[i].createdAt > codes[pick.value].createdAt) {
          pick := Some(i);
        }
      }
    }

    method ConsumeOtp(email: string, code: string, now: Time) returns (r: Result, ghost pick: Option<Id>)
      modifies this
      ensures Selects(old(codes), email, now, pick)
      ensures r == Answer(old(codes), code, pick)
      ensures codes == Checked(old(codes), code, now, pick)
    {
      var otp := SelectNewest(email, now);
      pick := otp;
      if otp.None? { return Unauthorized, pick; }
      var id := otp.value;
      var stored := codes[id].code;
      codes := codes[id := codes[id].(attempts := codes[id].attempts + 1)];
      var attempts := codes[id].attempts;
      if stored != code {
        if attempts >= MAX_ATTEMPTS {
          codes := codes[id := codes[id].(consumedAt := Some(now))];
          return RateLimited, pick;
        }
        return Unauthorized, pick;
      }
      if attempts > MAX_ATTEMPTS { return RateLimited, pick; }
      codes := codes[id := codes[id].(consumedAt := Some(now))];
      r := Ok;
    }
  }
}
