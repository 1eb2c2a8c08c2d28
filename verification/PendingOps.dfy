/**
 The offline queue of inventory adds and its flush loop: what one flush leaves in storage, which operations
 leave, and what happens to operations enqueued while a request is in flight.
 */
module PendingOps {
  import opened Domain

  datatype Op = Op(id: Id, event: Id, body: string, createdAt: Time, attempts: nat, lastError: Option<string>)

  /** How one upload ends; `Rejected` is any answer of the server other than success and 409. */
  datatype Outcome = Ack | Offline | Conflict | Rejected(error: string)

  /** One upload: its outcome, and the operations enqueued while it was in flight. */
  datatype Reply = Reply(outcome: Outcome, arrivals: seq<Op>)

  /** Storage and the loop's working copy. */
  datatype Queue = Queue(stored: seq<Op>, working: seq<Op>)

  function Bumped(op: Op, error: string): Op { op.(attempts := op.attempts + 1, lastError := Some(error)) }

  /** The queue without every operation of this id. */
  function Remove(q: seq<Op>, id: Id): seq<Op> {
    if q == [] then [] else (if q[0].id == id then [] else [q[0]]) + Remove(q[1..], id)
  }

  /** Removal takes every operation of the id and keeps all others. */
  lemma {:induction false} RemovedExactly(q: seq<Op>, id: Id, op: Op)
    ensures op in Remove(q, id) <==> op in q && op.id != id
    ensures op.id != id ==> multiset(Remove(q, id))[op] == multiset(q)[op]
  {
    if q != [] {
      RemovedExactly(q[1..], id, op);
      assert q == [q[0]] + q[1..];
    }
  }

  /** The queue with one more failed attempt on every operation of this id. */
  function Bump(q: seq<Op>, id: Id, error: string): seq<Op> {
    if q == [] then [] else [if q[0].id == id then Bumped(q[0], error) else q[0]] + Bump(q[1..], id, error)
  }

  /** A rejection that keeps the operation for another try. */
  predicate Counted(op: Op, o: Outcome) { o.Rejected? && op.attempts < 4 }

  /**
   The loop as it works on storage, `todo` being what is left of the snapshot. A removal re-reads storage; a
   counted rejection writes the working copy back, and with it forgets what arrived meanwhile.
   */
  function Flush(q: Queue, todo: seq<Op>, replies: seq<Reply>): Queue
    requires |todo| <= |replies|
    decreases |todo|
  {
    if todo == [] then q
    else
      var op, reply := todo[0], replies[0];
      var stored := q.stored + reply.arrivals;
      if reply.outcome.Offline? then q.(stored := stored)
      else
        var next := if Counted(op, reply.outcome) then Bump(q.working, op.id, reply.outcome.error) else Remove(stored, op.id);
        Flush(Queue(next, next), todo[1..], replies[1..])
  }

  // ------------------------------------------------- the reference: one pass

  /** What one pass over the snapshot keeps of it. */
  function Kept(todo: seq<Op>, replies: seq<Reply>): seq<Op>
    requires |todo| <= |replies|
    decreases |todo|
  {
    if todo == [] || replies[0].outcome.Offline? then todo
    else
      (if Counted(todo[0], replies[0].outcome) then [Bumped(todo[0], replies[0].outcome.error)] else [])
      + Kept(todo[1..], replies[1..])
  }

  /** What it keeps of the operations that arrived during its uploads. */
  function Arrived(todo: seq<Op>, replies: seq<Reply>): seq<Op>
    requires |todo| <= |replies|
    decreases |todo|
  {
    if todo == [] then []
    else if replies[0].outcome.Offline? then replies[0].arrivals
    else
      (if Counted(todo[0], replies[0].outcome) then [] else replies[0].arrivals) + Arrived(todo[1..], replies[1..])
  }

  function AllArrivals(replies: seq<Reply>): seq<Op> {
    if replies == [] then [] else replies[0].arrivals + AllArrivals(replies[1..])
  }

  function Ids(q: seq<Op>): set<Id> { if q == [] then {} else {q[0].id} + Ids(q[1..]) }

  predicate Unique(q: seq<Op>) { q == [] || (q[0].id !in Ids(q[1..]) && Unique(q[1..])) }

  lemma {:induction false} IdsSplit(a: seq<Op>, b: seq<Op>)
    ensures Ids(a + b) == Ids(a) + Ids(b)
    decreases |a|
  {
    if a == [] {
      assert a + b == b;
    } else {
      assert (a + b)[1..] == a[1..] + b;
      IdsSplit(a[1..], b);
    }
  }

  lemma {:induction false} UniqueSplit(a: seq<Op>, b: seq<Op>)
    ensures Unique(a + b) <==> Unique(a) && Unique(b) && Ids(a) !! Ids(b)
    decreases |a|
  {
    if a == [] {
      assert a + b == b;
    } else {
      assert (a + b)[1..] == a[1..] + b;
      IdsSplit(a[1..], b);
      UniqueSplit(a[1..], b);
    }
  }

  lemma {:induction false} IdIn(q: seq<Op>, op: Op)
    requires op in q
    ensures op.id in Ids(q)
  {
    if q[0] != op { IdIn(q[1..], op); }
  }

  lemma {:induction false} RemoveSplit(a: seq<Op>, b: seq<Op>, id: Id)
    ensures Remove(a + b, id) == Remove(a, id) + Remove(b, id)
    decreases |a|
  {
    if a == [] {
      assert a + b == b;
    } else {
      assert (a + b)[1..] == a[1..] + b;
      RemoveSplit(a[1..], b, id);
    }
  }

  lemma {:induction false} BumpSplit(a: seq<Op>, b: seq<Op>, id: Id, error: string)
    ensures Bump(a + b, id, error) == Bump(a, id, error) + Bump(b, id, error)
    decreases |a|
  {
    if a == [] {
      assert a + b == b;
    } else {
      assert (a + b)[1..] == a[1..] + b;
      BumpSplit(a[1..], b, id, error);
    }
  }

  lemma {:induction false} OthersUntouched(q: seq<Op>, id: Id, error: string)
    requires id !in Ids(q)
    ensures Remove(q, id) == q && Bump(q, id, error) == q
  {
    if q != [] {
      OthersUntouched(q[1..], id, error);
      assert [q[0]] + q[1..] == q;
    }
  }

  lemma {:induction false} Assoc(a: seq<Op>, b: seq<Op>, c: seq<Op>)
    ensures (a + b) + c == a + (b + c)
  {
  }

  lemma {:induction false} Empty(a: seq<Op>)
    ensures a + [] == a == [] + a
  {
  }

  /** Both updates act on one operation and leave its neighbours as they are. */
  lemma {:induction false} UpdateOne(a: seq<Op>, op: Op, b: seq<Op>, error: string)
    requires op.id !in Ids(a) && op.id !in Ids(b)
    ensures Remove(a + ([op] + b), op.id) == a + b
    ensures Bump(a + ([op] + b), op.id, error) == (a + [Bumped(op, error)]) + b
  {
    RemoveSplit(a, [op] + b, op.id);
    BumpSplit(a, [op] + b, op.id, error);
    OthersUntouched(a, op.id, error);
    OthersUntouched(b, op.id, error);
    UpdateFirst(op, b, error);
    Empty(b);
    Assoc(a, [Bumped(op, error)], b);
  }

  lemma {:induction false} UpdateFirst(op: Op, b: seq<Op>, error: string)
    ensures Remove([op] + b, op.id) == [] + Remove(b, op.id)
    ensures Bump([op] + b, op.id, error) == [Bumped(op, error)] + Bump(b, op.id, error)
  {
    assert ([op] + b)[1..] == b;
  }

  /** The upload of the first operation of `todo`, settled operations before it and arrivals after the rest. */
  lemma {:induction false} OneUpload(done: seq<Op>, op: Op, rest: seq<Op>, extra: seq<Op>, reply: Reply, error: string)
    requires op.id !in Ids(done) && op.id !in Ids(rest) && op.id !in Ids(extra) && op.id !in Ids(reply.arrivals)
    ensures var q := done + (([op] + rest) + extra);
      && Bump(q, op.id, error) == (done + [Bumped(op, error)]) + (rest + extra)
      && Remove(q + reply.arrivals, op.id) == done + (rest + (extra + reply.arrivals))
  {
    var arr := reply.arrivals;
    IdsSplit(rest, extra);
    UpdateOne(done, op, rest + extra, error);
    Assoc([op], rest, extra);
    IdsSplit(extra, arr);
    IdsSplit(rest, extra + arr);
    UpdateOne(done, op, rest + (extra + arr), error);
    Assoc(done, [op] + (rest + extra), arr);
    Assoc([op], rest + extra, arr);
    Assoc(rest, extra, arr);
  }

  /** The loop on storage computes the single pass, whatever it has settled and collected before. */
  lemma {:induction false} FlushFrom(done: seq<Op>, todo: seq<Op>, extra: seq<Op>, replies: seq<Reply>)
    requires |todo| <= |replies| && Unique(todo)
    requires Ids(todo) !! Ids(done) + Ids(extra) + Ids(AllArrivals(replies))
    ensures var q := done + (todo + extra);
      Flush(Queue(q, q), todo, replies).stored == done + (Kept(todo, replies) + (extra + Arrived(todo, replies)))
    decreases |todo|, 0
  {
    var q := done + (todo + extra);
    if todo == [] {
      Empty(extra);
    } else if replies[0].outcome.Offline? {
      Assoc(done, todo + extra, replies[0].arrivals);
      Assoc(todo, extra, replies[0].arrivals);
    } else {
      var op, rest, reply := todo[0], todo[1..], replies[0];
      assert todo == [op] + rest;
      var error := if reply.outcome.Rejected? then reply.outcome.error else "";
      IdsSplit(reply.arrivals, AllArrivals(replies[1..]));
      OneUpload(done, op, rest, extra, reply, error);
      if Counted(op, reply.outcome) {
        FlushCounted(done, op, rest, extra, replies, error);
      } else {
        FlushRemoved(done, op, rest, extra, replies);
      }
    }
  }

  lemma {:induction false} FlushCounted(done: seq<Op>, op: Op, rest: seq<Op>, extra: seq<Op>, replies: seq<Reply>, error: string)
    requires |rest| < |replies| && Unique(rest) && op.id !in Ids(rest)
    requires Ids(rest) !! Ids(done) + Ids(extra) + Ids(AllArrivals(replies[1..]))
    ensures var q := (done + [Bumped(op, error)]) + (rest + extra);
      Flush(Queue(q, q), rest, replies[1..]).stored
      == done + (([Bumped(op, error)] + Kept(rest, replies[1..])) + (extra + ([] + Arrived(rest, replies[1..]))))
    decreases |rest|, 1
  {
    var b := [Bumped(op, error)];
    IdsSplit(done, b);
    FlushFrom(done + b, rest, extra, replies[1..]);
    var kept, arrived := Kept(rest, replies[1..]), Arrived(rest, replies[1..]);
    Empty(arrived);
    Assoc(done, b, kept + (extra + arrived));
    Assoc(b, kept, extra + arrived);
  }

  lemma {:induction false} FlushRemoved(done: seq<Op>, op: Op, rest: seq<Op>, extra: seq<Op>, replies: seq<Reply>)
    requires |rest| < |replies| && Unique(rest)
    requires Ids(rest) !! Ids(done) + Ids(extra) + Ids(replies[0].arrivals) + Ids(AllArrivals(replies[1..]))
    ensures var q := done + (rest + (extra + replies[0].arrivals));
      Flush(Queue(q, q), rest, replies[1..]).stored
      == done + (([] + Kept(rest, replies[1..])) + (extra + (replies[0].arrivals + Arrived(rest, replies[1..]))))
    decreases |rest|, 1
  {
    var arr := replies[0].arrivals;
    IdsSplit(extra, arr);
    FlushFrom(done, rest, extra + arr, replies[1..]);
    Empty(Kept(rest, replies[1..]));
    Assoc(extra, arr, Arrived(rest, replies[1..]));
  }

  /** Ids of the queue and of everything that arrives during the flush are distinct. */
  predicate Distinct(q: seq<Op>, replies: seq<Reply>) { Unique(q + AllArrivals(replies)) }

  /** A flush is one pass over the snapshot, followed by the arrivals that were not written over. */
  lemma {:induction false} FlushIsOnePass(q: seq<Op>, replies: seq<Reply>)
    requires |q| <= |replies| && Distinct(q, replies)
    ensures Flush(Queue(q, q), q, replies).stored == Kept(q, replies) + Arrived(q, replies)
  {
    UniqueSplit(q, AllArrivals(replies));
    FlushFrom([], q, [], replies);
    Empty(q);
    Empty(Arrived(q, replies));
    Empty(Kept(q, replies) + Arrived(q, replies));
  }

  // ------------------------------------------------- who leaves

  /** The position of the first upload that finds the device offline; the length of the queue if none does. */
  function Stop(q: seq<Op>, replies: seq<Reply>): (n: nat)
    requires |q| <= |replies|
    ensures n <= |q| && (n < |q| ==> replies[n].outcome.Offline?)
    ensures forall i :: 0 <= i < n ==> !replies[i].outcome.Offline?
    decreases |q|
  {
    if q == [] || replies[0].outcome.Offline? then 0 else 1 + Stop(q[1..], replies[1..])
  }

  /** Everything from the offline upload on stays as it is, in order. */
  lemma {:induction false} OfflineLeavesTheRest(q: seq<Op>, replies: seq<Reply>)
    requires |q| <= |replies|
    ensures var n := Stop(q, replies); Kept(q, replies) == Kept(q[..n], replies) + q[n..]
    decreases |q|
  {
    var n := Stop(q, replies);
    if q == [] || replies[0].outcome.Offline? {
      assert q[..n] == [] && q[n..] == q;
    } else {
      OfflineLeavesTheRest(q[1..], replies[1..]);
      var front, rest := q[..n], q[1..];
      assert front[0] == q[0] && front[1..] == rest[..n - 1] && q[n..] == rest[n - 1..];
      var head := if Counted(q[0], replies[0].outcome) then [Bumped(q[0], replies[0].outcome.error)] else [];
      assert Kept(front, replies) == head + Kept(front[1..], replies[1..]);
      Assoc(head, Kept(rest[..n - 1], replies[1..]), rest[n - 1..]);
    }
  }

  /** The operation of this id. */
  function Find(q: seq<Op>, id: Id): Option<Op> {
    if q == [] then None else if q[0].id == id then Some(q[0]) else Find(q[1..], id)
  }

  lemma {:induction false} FindAt(q: seq<Op>, op: Op)
    requires op in q && Unique(q)
    ensures Find(q, op.id) == Some(op)
  {
    if q[0] != op {
      IdIn(q[1..], op);
      FindAt(q[1..], op);
    }
  }

  lemma {:induction false} FindNone(q: seq<Op>, id: Id)
    ensures Find(q, id).None? <==> id !in Ids(q)
    ensures Find(q, id).Some? ==> Find(q, id).value in q && Find(q, id).value.id == id
  {
    if q != [] { FindNone(q[1..], id); }
  }

  lemma {:induction false} FindSplit(a: seq<Op>, b: seq<Op>, id: Id)
    ensures Find(a + b, id) == if Find(a, id).Some? then Find(a, id) else Find(b, id)
    decreases |a|
  {
    if a == [] {
      assert a + b == b;
    } else {
      assert (a + b)[1..] == a[1..] + b;
      FindSplit(a[1..], b, id);
    }
  }

  /** What becomes of the operation at position `i`. */
  function Fate(q: seq<Op>, replies: seq<Reply>, i: nat): Option<Op>
    requires |q| <= |replies| && i < |q|
  {
    if i >= Stop(q, replies) then Some(q[i])
    else if Counted(q[i], replies[i].outcome) then Some(Bumped(q[i], replies[i].outcome.error))
    else None
  }

  /** One pass invents no ids and repeats none. */
  lemma {:induction false} KeptIds(q: seq<Op>, replies: seq<Reply>)
    requires |q| <= |replies|
    ensures Ids(Kept(q, replies)) <= Ids(q)
    ensures Unique(q) ==> Unique(Kept(q, replies))
    decreases |q|
  {
    if q != [] && !replies[0].outcome.Offline? {
      KeptIds(q[1..], replies[1..]);
      var rest := Kept(q[1..], replies[1..]);
      if Counted(q[0], replies[0].outcome) {
        assert ([Bumped(q[0], replies[0].outcome.error)] + rest)[1..] == rest;
      } else {
        assert [] + rest == rest;
      }
    }
  }

  lemma {:induction false} ArrivedIds(q: seq<Op>, replies: seq<Reply>)
    requires |q| <= |replies|
    ensures Ids(Arrived(q, replies)) <= Ids(AllArrivals(replies))
    ensures Unique(AllArrivals(replies)) ==> Unique(Arrived(q, replies))
    ensures forall op :: op in Arrived(q, replies) ==> op in AllArrivals(replies)
    decreases |q|
  {
    if q != [] {
      ArrivedIds(q[1..], replies[1..]);
      var a, rest, later := replies[0].arrivals, AllArrivals(replies[1..]), Arrived(q[1..], replies[1..]);
      ArrivedSplit(a, rest, later);
      assert AllArrivals(replies) == a + rest;
    }
  }

  /** Keeping or dropping the first arrivals in front of some of the later ones. */
  lemma {:induction false} ArrivedSplit(a: seq<Op>, rest: seq<Op>, later: seq<Op>)
    requires Ids(later) <= Ids(rest) && forall op :: op in later ==> op in rest
    ensures [] + later == later
    ensures Ids(a + later) <= Ids(a + rest) && Ids(later) <= Ids(a + rest)
    ensures Unique(a + rest) && (Unique(rest) ==> Unique(later)) ==> Unique(a + later) && Unique(later)
    ensures Ids(a) <= Ids(a + rest) && (Unique(a + rest) ==> Unique(a) && Unique(rest))
    ensures forall op :: op in a + later ==> op in a + rest
  {
    IdsSplit(a, rest);
    IdsSplit(a, later);
    UniqueSplit(a, rest);
    UniqueSplit(a, later);
  }

  lemma {:induction false} KeptFinds(q: seq<Op>, replies: seq<Reply>, i: nat)
    requires |q| <= |replies| && i < |q| && Unique(q)
    ensures Find(Kept(q, replies), q[i].id) == Fate(q, replies, i)
    decreases |q|
  {
    if replies[0].outcome.Offline? {
      FindAt(q, q[i]);
    } else {
      var id, rest := q[i].id, Kept(q[1..], replies[1..]);
      var head := if Counted(q[0], replies[0].outcome) then [Bumped(q[0], replies[0].outcome.error)] else [];
      FindSplit(head, rest, id);
      KeptIds(q[1..], replies[1..]);
      if i == 0 {
        FindNone(rest, id);
      } else {
        IdIn(q[1..], q[i]);
        KeptFinds(q[1..], replies[1..], i - 1);
        FateOfRest(q, replies, i);
        assert Find(head, id).None?;
      }
    }
  }

  lemma {:induction false} FateOfRest(q: seq<Op>, replies: seq<Reply>, i: nat)
    requires |q| <= |replies| && 0 < i < |q| && !replies[0].outcome.Offline?
    ensures q[1..][i - 1] == q[i] && Fate(q, replies, i) == Fate(q[1..], replies[1..], i - 1)
  {
  }

  /**
   An operation leaves storage only by acknowledgement, conflict or its fifth rejection; any other is still
   there afterwards, unchanged but for the failed attempt.
   */
  lemma {:induction false} LeavesExactly(q: seq<Op>, replies: seq<Reply>, i: nat)
    requires |q| <= |replies| && i < |q| && Distinct(q, replies)
    ensures var left := Find(Flush(Queue(q, q), q, replies).stored, q[i].id);
      if exists j :: 0 <= j <= i && replies[j].outcome.Offline? then left == Some(q[i])
      else match replies[i].outcome
           case Rejected(error) =>
             left == if q[i].attempts < 4 then Some(q[i].(attempts := q[i].attempts + 1, lastError := Some(error))) else None
           case _ => left == None
  {
    FlushIsOnePass(q, replies);
    UniqueSplit(q, AllArrivals(replies));
    KeptFinds(q, replies, i);
    ArrivedIds(q, replies);
    IdIn(q, q[i]);
    FindNone(Arrived(q, replies), q[i].id);
    FindSplit(Kept(q, replies), Arrived(q, replies), q[i].id);
  }

  /** An upload of this flush that is actually made. */
  predicate Made(q: seq<Op>, replies: seq<Reply>, i: nat)
    requires |q| <= |replies|
  {
    i < |q| && i <= Stop(q, replies)
  }

  lemma {:induction false} ArrivalListed(replies: seq<Reply>, i: nat, op: Op)
    requires i < |replies| && op in replies[i].arrivals
    ensures op in AllArrivals(replies)
  {
    if i > 0 { ArrivalListed(replies[1..], i - 1, op); }
  }

  lemma {:induction false} ArrivedFinds(q: seq<Op>, replies: seq<Reply>, i: nat, op: Op)
    requires |q| <= |replies| && Made(q, replies, i) && op in replies[i].arrivals && Unique(AllArrivals(replies))
    ensures Find(Arrived(q, replies), op.id) == if Counted(q[i], replies[i].outcome) then None else Some(op)
    decreases |q|
  {
    var a, rest := replies[0].arrivals, AllArrivals(replies[1..]);
    UniqueSplit(a, rest);
    if replies[0].outcome.Offline? {
      FindAt(a, op);
    } else {
      var later := Arrived(q[1..], replies[1..]);
      ArrivedIds(q[1..], replies[1..]);
      assert [] + later == later;
      FindSplit(a, later, op.id);
      if i == 0 {
        FindAt(a, op);
        IdIn(a, op);
        FindNone(later, op.id);
      } else {
        ArrivalListed(replies[1..], i - 1, op);
        IdIn(rest, op);
        FindNone(a, op.id);
        ArrivedFinds(q[1..], replies[1..], i - 1, op);
      }
    }
  }

  /**
   An operation enqueued while upload `i` is in flight survives exactly when that upload does not end in a
   rejection before the fifth: the stale working copy is then written over it.
   */
  lemma {:induction false} ArrivalSurvivesExactly(q: seq<Op>, replies: seq<Reply>, i: nat, op: Op)
    requires |q| <= |replies| && Distinct(q, replies) && Made(q, replies, i) && op in replies[i].arrivals
    ensures Find(Flush(Queue(q, q), q, replies).stored, op.id)
         == if replies[i].outcome.Rejected? && q[i].attempts < 4 then None else Some(op)
  {
    FlushIsOnePass(q, replies);
    UniqueSplit(q, AllArrivals(replies));
    ArrivalListed(replies, i, op);
    IdIn(AllArrivals(replies), op);
    KeptIds(q, replies);
    FindNone(Kept(q, replies), op.id);
    FindSplit(Kept(q, replies), Arrived(q, replies), op.id);
    ArrivedFinds(q, replies, i, op);
  }

  /** The working copy is the stored queue unless the flush stopped at an offline upload with arrivals. */
  lemma {:induction false} WorkingIsStored(q: seq<Op>, todo: seq<Op>, replies: seq<Reply>)
    requires |todo| <= |replies|
    ensures var f := Flush(Queue(q, q), todo, replies);
      var n := Stop(todo, replies);
      f.stored == f.working + if n < |todo| then replies[n].arrivals else []
    decreases |todo|
  {
    if todo == [] || replies[0].outcome.Offline? {
      assert q + [] == q;
    } else {
      var next := if Counted(todo[0], replies[0].outcome) then Bump(q, todo[0].id, replies[0].outcome.error)
                  else Remove(q + replies[0].arrivals, todo[0].id);
      WorkingIsStored(next, todo[1..], replies[1..]);
    }
  }

  // ------------------------------------------------- any number of flushes

  datatype Step = Enqueue(op: Op) | FlushAll(replies: seq<Reply>)

  /** Operations a step brings in. */
  function Brought(s: Step): seq<Op> { if s.Enqueue? then [s.op] else AllArrivals(s.replies) }

  function After(q: seq<Op>, s: Step): seq<Op>
    requires s.FlushAll? ==> |q| <= |s.replies|
  {
    if s.Enqueue? then q + [s.op] else Flush(Queue(q, q), q, s.replies).stored
  }

  /** Every operation is new when it is enqueued: an id never used before, and no attempts. */
  ghost predicate LegalRun(q: seq<Op>, seen: set<Id>, steps: seq<Step>)
    decreases |steps|
  {
    steps == [] ||
    (&& (steps[0].FlushAll? ==> |q| <= |steps[0].replies|)
     && Unique(Brought(steps[0])) && Ids(Brought(steps[0])) !! seen
     && (forall op :: op in Brought(steps[0]) ==> op.attempts == 0)
     && LegalRun(After(q, steps[0]), seen + Ids(Brought(steps[0])), steps[1..]))
  }

  /** Rejections of this id in one flush. */
  function RejectedIn(q: seq<Op>, replies: seq<Reply>, id: Id): nat
    requires |q| <= |replies|
    decreases |q|
  {
    if q == [] || replies[0].outcome.Offline? then 0
    else (if q[0].id == id && replies[0].outcome.Rejected? then 1 else 0) + RejectedIn(q[1..], replies[1..], id)
  }

  ghost function Rejections(q: seq<Op>, seen: set<Id>, steps: seq<Step>, id: Id): nat
    requires LegalRun(q, seen, steps)
    decreases |steps|
  {
    if steps == [] then 0
    else (if steps[0].FlushAll? then RejectedIn(q, steps[0].replies, id) else 0)
         + Rejections(After(q, steps[0]), seen + Ids(Brought(steps[0])), steps[1..], id)
  }

  /** A flush rejects an operation at most once, and counts it on the operation if it stays. */
  lemma {:induction false} RejectedOnce(q: seq<Op>, replies: seq<Reply>, id: Id)
    requires |q| <= |replies| && Unique(q)
    ensures Find(q, id).None? ==> RejectedIn(q, replies, id) == 0
    ensures Find(q, id).Some? ==> RejectedIn(q, replies, id) <= 1
    ensures Find(q, id).Some? && Find(Kept(q, replies), id).Some? ==>
      Find(Kept(q, replies), id).value.attempts == Find(q, id).value.attempts + RejectedIn(q, replies, id)
    decreases |q|
  {
    if q != [] && !replies[0].outcome.Offline? {
      var head := if Counted(q[0], replies[0].outcome) then [Bumped(q[0], replies[0].outcome.error)] else [];
      FindSplit(head, Kept(q[1..], replies[1..]), id);
      RejectedOnce(q[1..], replies[1..], id);
      if q[0].id == id {
        KeptIds(q[1..], replies[1..]);
        FindNone(q[1..], id);
        FindNone(Kept(q[1..], replies[1..]), id);
      }
    }
  }

  predicate FewAttempts(q: seq<Op>) { forall op :: op in q ==> op.attempts <= 4 }

  /** What is left of the five tries of this id. */
  function Budget(q: seq<Op>, seen: set<Id>, id: Id): nat {
    if id !in seen then 5
    else match Find(q, id) case None => 0 case Some(op) => if op.attempts <= 5 then 5 - op.attempts else 0
  }

  /** Queues of a run: ids distinct and all seen, never more than four counted attempts. */
  ghost predicate Sound(q: seq<Op>, seen: set<Id>) { Unique(q) && Ids(q) <= seen && FewAttempts(q) }

  lemma {:induction false} KeptFew(q: seq<Op>, replies: seq<Reply>)
    requires |q| <= |replies| && FewAttempts(q)
    ensures FewAttempts(Kept(q, replies))
    decreases |q|
  {
    if q != [] && !replies[0].outcome.Offline? { KeptFew(q[1..], replies[1..]); }
  }

  lemma {:induction false} StepKeepsSound(q: seq<Op>, seen: set<Id>, steps: seq<Step>)
    requires steps != [] && LegalRun(q, seen, steps) && Sound(q, seen)
    ensures Sound(After(q, steps[0]), seen + Ids(Brought(steps[0])))
  {
    var s := steps[0];
    var b := Brought(s);
    UniqueSplit(q, b);
    if s.FlushAll? {
      FlushIsOnePass(q, s.replies);
      var kept, arr := Kept(q, s.replies), Arrived(q, s.replies);
      KeptIds(q, s.replies);
      KeptFew(q, s.replies);
      ArrivedIds(q, s.replies);
      UniqueSplit(kept, arr);
      IdsSplit(kept, arr);
    } else {
      IdsSplit(q, b);
    }
  }

  /** One step spends exactly the rejections it makes. */
  lemma {:induction false} StepSpends(q: seq<Op>, seen: set<Id>, steps: seq<Step>, id: Id)
    requires steps != [] && LegalRun(q, seen, steps) && Sound(q, seen)
    ensures (if steps[0].FlushAll? then RejectedIn(q, steps[0].replies, id) else 0)
            + Budget(After(q, steps[0]), seen + Ids(Brought(steps[0])), id) <= Budget(q, seen, id)
  {
    var s := steps[0];
    var b := Brought(s);
    UniqueSplit(q, b);
    FindNone(q, id);
    if s.FlushAll? {
      var kept, arr := Kept(q, s.replies), Arrived(q, s.replies);
      FlushIsOnePass(q, s.replies);
      RejectedOnce(q, s.replies, id);
      FindSplit(kept, arr, id);
      KeptIds(q, s.replies);
      FindNone(kept, id);
      ArrivedIds(q, s.replies);
      FindNone(arr, id);
    } else {
      FindSplit(q, [s.op], id);
      FindNone([s.op], id);
    }
  }

  /** No operation is rejected more than five times, however many flushes there are. */
  lemma {:induction false} AtMostFiveRejections(q: seq<Op>, seen: set<Id>, steps: seq<Step>, id: Id)
    requires LegalRun(q, seen, steps) && Sound(q, seen)
    ensures Rejections(q, seen, steps, id) <= Budget(q, seen, id) <= 5
    decreases |steps|
  {
    if steps != [] {
      StepKeepsSound(q, seen, steps);
      StepSpends(q, seen, steps, id);
      AtMostFiveRejections(After(q, steps[0]), seen + Ids(Brought(steps[0])), steps[1..], id);
    }
  }

  // ------------------------------------------------- when an operation is still there

  /** The server has accepted the operation or answered that it conflicts. */
  predicate AnsweredIn(q: seq<Op>, replies: seq<Reply>, id: Id)
    requires |q| <= |replies|
    decreases |q|
  {
    q != [] && !replies[0].outcome.Offline?
    && ((q[0].id == id && (replies[0].outcome.Ack? || replies[0].outcome.Conflict?)) || AnsweredIn(q[1..], replies[1..], id))
  }

  ghost predicate Answered(q: seq<Op>, seen: set<Id>, steps: seq<Step>, id: Id)
    requires LegalRun(q, seen, steps)
    decreases |steps|
  {
    steps != [] &&
    (|| (steps[0].FlushAll? && AnsweredIn(q, steps[0].replies, id))
     || Answered(After(q, steps[0]), seen + Ids(Brought(steps[0])), steps[1..], id))
  }

  ghost function FinalQueue(q: seq<Op>, seen: set<Id>, steps: seq<Step>): seq<Op>
    requires LegalRun(q, seen, steps)
    decreases |steps|
  {
    if steps == [] then q else FinalQueue(After(q, steps[0]), seen + Ids(Brought(steps[0])), steps[1..])
  }

  /** One pass drops an operation exactly when it is answered, or rejected after four failed attempts. */
  lemma {:induction false} KeptExactly(q: seq<Op>, replies: seq<Reply>, id: Id)
    requires |q| <= |replies| && Unique(q) && Find(q, id).Some?
    ensures Find(Kept(q, replies), id).Some? <==>
      && !AnsweredIn(q, replies, id)
      && (RejectedIn(q, replies, id) == 0 || Find(q, id).value.attempts + RejectedIn(q, replies, id) < 5)
    decreases |q|
  {
    if !replies[0].outcome.Offline? {
      var head := if Counted(q[0], replies[0].outcome) then [Bumped(q[0], replies[0].outcome.error)] else [];
      FindSplit(head, Kept(q[1..], replies[1..]), id);
      if q[0].id == id {
        KeptIds(q[1..], replies[1..]);
        FindNone(q[1..], id);
        FindNone(Kept(q[1..], replies[1..]), id);
        RejectedOnce(q[1..], replies[1..], id);
        NotAnswered(q[1..], replies[1..], id);
      } else {
        KeptExactly(q[1..], replies[1..], id);
      }
    }
  }

  lemma {:induction false} NotAnswered(q: seq<Op>, replies: seq<Reply>, id: Id)
    requires |q| <= |replies| && id !in Ids(q)
    ensures !AnsweredIn(q, replies, id)
    decreases |q|
  {
    if q != [] { NotAnswered(q[1..], replies[1..], id); }
  }

  /** What one step leaves of an id it does not bring in. */
  lemma {:induction false} StepFinds(q: seq<Op>, seen: set<Id>, steps: seq<Step>, id: Id)
    requires steps != [] && LegalRun(q, seen, steps) && Sound(q, seen) && id in seen
    ensures Find(After(q, steps[0]), id) == if steps[0].FlushAll? then Find(Kept(q, steps[0].replies), id) else Find(q, id)
  {
    var s := steps[0];
    var b := Brought(s);
    UniqueSplit(q, b);
    if s.FlushAll? {
      var kept, arr := Kept(q, s.replies), Arrived(q, s.replies);
      FlushIsOnePass(q, s.replies);
      FindSplit(kept, arr, id);
      ArrivedIds(q, s.replies);
      FindNone(arr, id);
    } else {
      FindSplit(q, [s.op], id);
      FindNone([s.op], id);
    }
  }

  lemma {:induction false} GoneStaysGone(q: seq<Op>, seen: set<Id>, steps: seq<Step>, id: Id)
    requires LegalRun(q, seen, steps) && Sound(q, seen) && id in seen && Find(q, id).None?
    ensures Find(FinalQueue(q, seen, steps), id).None?
    decreases |steps|
  {
    if steps != [] {
      StepKeepsSound(q, seen, steps);
      StepFinds(q, seen, steps, id);
      if steps[0].FlushAll? {
        FindNone(q, id);
        KeptIds(q, steps[0].replies);
        FindNone(Kept(q, steps[0].replies), id);
      }
      GoneStaysGone(After(q, steps[0]), seen + Ids(Brought(steps[0])), steps[1..], id);
    }
  }

  /**
   Over any run of flushes and additions a stored operation stays, with every rejection counted on it, until it is
   accepted, answered with a conflict or rejected for the fifth time; then it is gone for good.
   */
  lemma {:induction false} StoredExactly(q: seq<Op>, seen: set<Id>, steps: seq<Step>, id: Id)
    requires LegalRun(q, seen, steps) && Sound(q, seen) && Find(q, id).Some?
    ensures var end, n := Find(FinalQueue(q, seen, steps), id), Find(q, id).value.attempts + Rejections(q, seen, steps, id);
      && (end.Some? <==> !Answered(q, seen, steps, id) && n < 5)
      && (end.Some? ==> end.value.attempts == n)
    decreases |steps|
  {
    FindNone(q, id);
    if steps != [] {
      var next, seen' := After(q, steps[0]), seen + Ids(Brought(steps[0]));
      StepKeepsSound(q, seen, steps);
      StepFinds(q, seen, steps, id);
      if steps[0].FlushAll? {
        RejectedOnce(q, steps[0].replies, id);
        KeptExactly(q, steps[0].replies, id);
      }
      if Find(next, id).Some? {
        StoredExactly(next, seen', steps[1..], id);
      } else {
        GoneStaysGone(next, seen', steps[1..], id);
      }
    }
  }
}

/** The device's queue as the app keeps it: stored operations, the displayed list, and the flush loop. */
module PendingQueue {
  import opened Domain
  import opened PendingOps

  class Device {
    /** What the storage key holds; absent until the first write. */
    var saved: Option<seq<Op>>
    /** The list on display. */
    var pending: seq<Op>
    var flushing: bool

    constructor ()
      ensures Contents() == [] && pending == [] && !flushing
    {
      saved, pending, flushing := None, [], false;
    }

    function Contents(): seq<Op>
      reads this`saved
    {
      if saved.Some? then saved.value else []
    }

    method ReadQueue() returns (q: seq<Op>)
      ensures q == Contents()
    {
      q := if saved.Some? then saved.value else [];
    }

    method WriteQueue(ops: seq<Op>)
      modifies this`saved
      ensures Contents() == ops
    {
      saved := Some(ops);
    }

    method EnqueueInventoryOp(op: Op)
      modifies this`saved
      ensures Contents() == old(Contents()) + [op]
    {
      var q := ReadQueue();
      WriteQueue(q + [op]);
    }

    /** Operations enqueued by the user while an upload is in flight. */
    method EnqueueAll(ops: seq<Op>)
      modifies this`saved
      ensures Contents() == old(Contents()) + ops
    {
      for i := 0 to |ops|
        invariant Contents() == old(Contents()) + ops[..i]
      {
        EnqueueInventoryOp(ops[i]);
      }
    }

    method RemoveInventoryOp(id: Id) returns (q: seq<Op>)
      modifies this`saved
      ensures q == Contents() == Remove(old(Contents()), id)
    {
      q := ReadQueue();
      q := Remove(q, id);
      WriteQueue(q);
    }

    method Flush(hasToken: bool, replies: seq<Reply>)
      requires |Contents()| <= |replies|
      modifies this
      ensures !hasToken || old(flushing) ==> Contents() == old(Contents()) && pending == old(pending)
      ensures flushing == old(flushing)
      ensures hasToken && !old(flushing) ==>
        var f := PendingOps.Flush(Queue(old(Contents()), old(Contents())), old(Contents()), replies);
        Contents() == f.stored && pending == f.working
    {
      if !hasToken || flushing { return; }
      flushing := true;
      var q := ReadQueue();
      var snapshot := q;
      ghost var result := PendingOps.Flush(Queue(q, q), snapshot, replies);
      var i := 0;
      while i < |snapshot|
        invariant 0 <= i <= |snapshot| && q == Contents()
        invariant PendingOps.Flush(Queue(q, q), snapshot[i..], replies[i..]) == result
      {
        var op := snapshot[i];
        var outcome := replies[i].outcome;
        assert snapshot[i..][1..] == snapshot[i + 1..] && replies[i..][1..] == replies[i + 1..];
        EnqueueAll(replies[i].arrivals);
        if outcome.Offline? { break; }
        if outcome.Ack? {
          q := RemoveInventoryOp(op.id);
        } else if outcome.Conflict? || op.attempts >= 4 {
          q := RemoveInventoryOp(op.id);
        } else {
          q := Bump(q, op.id, outcome.error);
          WriteQueue(q);
        }
        i := i + 1;
      }
      pending := q;
      flushing := false;
    }
  }
}
