/** What every step of the pipelined client keeps. */
module PipelineInvariant {
  import opened Basics
  import opened TransactionIds
  import opened Pipeline
  import Pdu

  // ---- The callers ----

  /** Identifiers are handed out in the counter's order, each caller's once. */
  ghost predicate Counted(c: Callers) {
    && c.next == IdOf(c.allocations)
    && (forall x :: x in c.order ==> x < c.nextSerial && c.order[x] < c.allocations)
    && (forall x, y :: x in c.order && y in c.order && c.order[x] == c.order[y] ==> x == y)
    && (forall x :: x in c.holding ==> x < c.nextSerial && x !in c.order && x !in c.passed)
    && (forall x :: x in c.passed ==> x < c.nextSerial && x !in c.order)
    && (forall x :: x in c.pending ==> x in c.order)
    && (forall x :: x in c.awaiting ==> x in c.order && x !in c.pending)
  }

  /** The caller's identifier is the one of its allocation. */
  ghost predicate Bears(c: Callers, x: nat, id: Word) {
    x in c.order && id == IdOf(c.order[x])
  }

  /** What is on its way to the task bears its caller's identifier, and is there once. */
  ghost predicate Channelled(c: Callers) {
    && (forall x :: x in c.pending ==> Bears(c, x, c.pending[x]))
    && (forall i :: 0 <= i < |c.queue| ==> Bears(c, c.queue[i].serial, c.queue[i].transaction))
    && (forall i :: 0 <= i < |c.queue| ==> c.queue[i].serial !in c.pending)
    && (forall i, j :: 0 <= i < j < |c.queue| ==> c.queue[i].serial != c.queue[j].serial)
  }

  /** What the task has taken is no longer on its way. */
  ghost predicate Handed(c: Callers, taken: set<nat>) {
    && (forall x :: x in taken ==> x in c.order && x !in c.pending)
    && (forall i :: 0 <= i < |c.queue| ==> c.queue[i].serial !in taken)
  }

  /** No more callers than permits. */
  ghost predicate Permitted(c: Callers, limit: nat) {
    && |c.permits| <= limit
    && c.holding <= c.permits && c.passed <= c.permits && c.pending.Keys <= c.permits && c.awaiting <= c.permits
    && forall x :: x in c.permits ==> x < c.nextSerial
  }

  lemma {:induction false} AcquireKeeps(c: Callers, limit: nat)
    requires Counted(c) && Permitted(c, limit) && |c.permits| < limit
    ensures Counted(c.Acquire()) && Permitted(c.Acquire(), limit)
  {
    hide IdOf;
  }

  lemma {:induction false} PassKeeps(c: Callers, x: nat, limit: nat)
    requires Counted(c) && Permitted(c, limit) && x in c.holding
    ensures Counted(c.Pass(x)) && Permitted(c.Pass(x), limit)
  {
    hide IdOf;
  }

  lemma {:induction false} RefuseKeeps(c: Callers, x: nat, limit: nat)
    requires Counted(c) && Permitted(c, limit) && x in c.holding
    ensures Counted(c.Refuse(x)) && Permitted(c.Refuse(x), limit)
  {
    hide IdOf;
  }

  lemma {:induction false} AllocateKeeps(c: Callers, x: nat, limit: nat)
    requires Counted(c) && Permitted(c, limit) && x in c.passed
    ensures Counted(c.Allocate(x)) && Permitted(c.Allocate(x), limit)
  {
    hide IdOf;
    hide Next;
    NextId(c.allocations);
  }

  lemma {:induction false} AllocateChannelled(c: Callers, x: nat, taken: set<nat>)
    requires Counted(c) && Channelled(c) && Handed(c, taken) && x in c.passed
    ensures Channelled(c.Allocate(x)) && Handed(c.Allocate(x), taken)
  {
    hide IdOf;
    hide Next;
    var d := c.Allocate(x);
    assert forall y, id :: Bears(c, y, id) ==> Bears(d, y, id);
    assert Bears(d, x, c.next);
    forall i | 0 <= i < |c.queue|
      ensures c.queue[i].serial != x
    {
      assert Bears(c, c.queue[i].serial, c.queue[i].transaction);
    }
  }

  lemma {:induction false} EnqueueKeeps(
    c: Callers, x: nat, unit: Byte, request: Pdu.RequestPdu, limit: nat, taken: set<nat>)
    requires Counted(c) && Permitted(c, limit) && Channelled(c) && Handed(c, taken)
    requires x in c.pending
    ensures var d := c.Enqueue(x, unit, request);
            Counted(d) && Permitted(d, limit) && Channelled(d) && Handed(d, taken)
  {
    hide IdOf;
    var d := c.Enqueue(x, unit, request);
    assert forall y, id :: Bears(c, y, id) == Bears(d, y, id);
    assert Bears(c, x, c.pending[x]);
  }

  lemma {:induction false} DequeueKeeps(c: Callers, limit: nat, taken: set<nat>)
    requires Counted(c) && Permitted(c, limit) && Channelled(c) && Handed(c, taken) && c.queue != []
    ensures Counted(c.Dequeue()) && Permitted(c.Dequeue(), limit)
    ensures Channelled(c.Dequeue()) && Handed(c.Dequeue(), taken + {c.queue[0].serial})
  {
    hide IdOf;
    var d := c.Dequeue();
    assert forall y, id :: Bears(c, y, id) == Bears(d, y, id);
    assert forall i :: 0 <= i < |d.queue| ==> d.queue[i] == c.queue[i + 1];
    assert Bears(c, c.queue[0].serial, c.queue[0].transaction);
  }

  lemma {:induction false} LeaveKeeps(c: Callers, x: nat, limit: nat)
    requires Counted(c) && Permitted(c, limit) && x in c.awaiting
    ensures Counted(c.Leave(x)) && Permitted(c.Leave(x), limit)
    ensures forall reply :: Counted(c.Return(x, reply)) && Permitted(c.Return(x, reply), limit)
  {
    hide IdOf;
  }

  lemma {:induction false} SameChannel(c: Callers, d: Callers, taken: set<nat>)
    requires Channelled(c) && Handed(c, taken)
    requires d.order == c.order && d.pending == c.pending && d.queue == c.queue
    ensures Channelled(d) && Handed(d, taken)
  {
    hide IdOf;
    assert forall y, id :: Bears(c, y, id) == Bears(d, y, id);
  }

  // ---- The task ----

  /** A registered request was taken and written under this identifier, is unanswered, and its own timer is running. */
  ghost predicate Sound(order: map<nat, nat>, t: Task, id: Word) {
    && id in t.inFlight
    && var e := t.inFlight[id];
    && e.serial in order && IdOf(order[e.serial]) == id
    && e.serial in t.taken && Wrote(t.written, e.serial, id) && t.AnswersTo(e.serial) == []
    && e.key in t.deadlines && t.deadlines[e.key] == id
    && id in t.issued
  }

  ghost predicate Tabled(order: map<nat, nat>, t: Task) {
    && (forall id :: id in t.inFlight ==> Sound(order, t, id))
    && (forall key :: key in t.deadlines ==> key < t.nextKey)
    && (t.desynchronized ==> t.inFlight == map[])
    && 0 !in t.issued
  }

  /** No caller is answered twice, and none before its request was taken. */
  ghost predicate Answered(t: Task) {
    forall x :: x in t.answers ==> x in t.taken && |t.answers[x]| == 1
  }

  ghost predicate Sane(order: map<nat, nat>, t: Task) {
    Tabled(order, t) && Answered(t)
  }

  lemma {:induction false} IdPositive(n: nat)
    ensures IdOf(n) != 0
  {
  }

  lemma {:induction false} FailedAnswers(t: Task, x: nat)
    ensures t.FailAll().AnswersTo(x) == t.AnswersTo(x) + (if x in t.Registered() then [Err(Desynchronized)] else [])
    ensures x in t.FailAll().answers <==> x in t.answers || x in t.Registered()
  {
    assert t.AnswersTo(x) + [] == t.AnswersTo(x);
  }

  /** Two entries never stand for one caller. */
  lemma {:induction false} RegisteredOnce(order: map<nat, nat>, t: Task, id: Word, id': Word)
    requires Tabled(order, t) && id in t.inFlight && id' in t.inFlight
    requires t.inFlight[id].serial == t.inFlight[id'].serial
    ensures id == id'
  {
    hide IdOf;
    assert Sound(order, t, id) && Sound(order, t, id');
  }

  /** Later allocations do not disturb what is registered. */
  lemma {:induction false} OrderGrows(order: map<nat, nat>, t: Task, x: nat, n: nat)
    requires Sane(order, t) && x !in order
    ensures Sane(order[x := n], t)
  {
    hide IdOf;
    forall id | id in t.inFlight
      ensures Sound(order[x := n], t, id)
    {
      assert Sound(order, t, id);
    }
  }

  /** Setting the flag and failing everything leaves an empty table and one answer for each registered caller. */
  lemma {:induction false} DesynchronizeKeeps(order: map<nat, nat>, t: Task)
    requires forall id :: id in t.inFlight ==> t.inFlight[id].serial in t.taken && t.AnswersTo(t.inFlight[id].serial) == []
    requires forall key :: key in t.deadlines ==> key < t.nextKey
    requires 0 !in t.issued && Answered(t)
    ensures Sane(order, t.Desynchronize())
  {
    var u := t.(desynchronized := true);
    var f := u.FailAll();
    forall x | x in f.answers
      ensures x in f.taken && |f.answers[x]| == 1
    {
      FailedAnswers(u, x);
    }
  }

  lemma {:induction false} SaneDesynchronize(order: map<nat, nat>, t: Task)
    requires Sane(order, t)
    ensures Sane(order, t.Desynchronize())
  {
    hide IdOf;
    forall id | id in t.inFlight
      ensures t.inFlight[id].serial in t.taken && t.AnswersTo(t.inFlight[id].serial) == []
    {
      assert Sound(order, t, id);
    }
    DesynchronizeKeeps(order, t);
  }

  /** The entry of an identifier goes, with one timer bearing that identifier, and its caller is answered. */
  lemma {:induction false} ResolveKeeps(order: map<nat, nat>, t: Task, id: Word, key: nat, reply: Reply)
    requires Sane(order, t) && id in t.inFlight
    requires key in t.deadlines && t.deadlines[key] == id
    ensures Sane(order, t.Resolve(id, key, reply))
  {
    hide IdOf;
    var u := t.Resolve(id, key, reply);
    assert Sound(order, t, id);
    forall other | other in u.inFlight
      ensures Sound(order, u, other)
    {
      assert Sound(order, t, other);
      if t.inFlight[other].serial == t.inFlight[id].serial {
        RegisteredOnce(order, t, other, id);
      }
    }
  }

  lemma {:induction false} RegisterKeeps(order: map<nat, nat>, t: Task, c: Command, adu: Bytes)
    requires Sane(order, t) && !t.desynchronized
    requires c.serial in order && IdOf(order[c.serial]) == c.transaction && c.serial !in t.taken
    ensures Sane(order, t.Take(c, Ok(adu)))
  {
    hide IdOf;
    var u := t.Take(c, Ok(adu));
    IdPositive(order[c.serial]);
    assert u.written[|t.written|] == c;
    assert forall i :: 0 <= i < |t.written| ==> u.written[i] == t.written[i];
    forall id | id in u.inFlight
      ensures Sound(order, u, id)
    {
      if id != c.transaction {
        assert Sound(order, t, id);
      }
    }
  }

  lemma {:induction false} SendFailureKeeps(order: map<nat, nat>, t: Task, c: Command, error: Error)
    requires Sane(order, t) && !t.desynchronized
    requires c.serial in order && IdOf(order[c.serial]) == c.transaction && c.serial !in t.taken
    ensures Sane(order, t.Take(c, Err(error)))
  {
    hide IdOf;
    var u := t.(taken := t.taken + {c.serial}).Issue(c.transaction).Answer(c.serial, Err(error));
    IdPositive(order[c.serial]);
    forall id | id in u.inFlight
      ensures u.inFlight[id].serial in u.taken && u.AnswersTo(u.inFlight[id].serial) == []
    {
      assert Sound(order, t, id);
    }
    DesynchronizeKeeps(order, u);
  }

  lemma {:induction false} TakeKeeps(order: map<nat, nat>, t: Task, c: Command, sent: Result<Bytes>)
    requires Sane(order, t)
    requires c.serial in order && IdOf(order[c.serial]) == c.transaction && c.serial !in t.taken
    ensures Sane(order, t.Take(c, sent))
  {
    if t.desynchronized {
    } else if sent.Ok? {
      RegisterKeeps(order, t, c, sent.value);
    } else {
      SendFailureKeeps(order, t, c, sent.error);
    }
  }

  lemma {:induction false} ReceiveKeeps(order: map<nat, nat>, t: Task, received: Result<Frame>)
    requires Sane(order, t)
    ensures Sane(order, t.Receive(received))
  {
    if received.Ok? && received.value.transaction in t.inFlight {
      var id := received.value.transaction;
      assert Sound(order, t, id);
      ResolveKeeps(order, t, id, t.inFlight[id].key, Ok(received.value.response));
    } else {
      SaneDesynchronize(order, t);
    }
  }

  /** A timer that goes off with nothing registered under its identifier disturbs no other. */
  lemma {:induction false} StrayKeeps(order: map<nat, nat>, t: Task, key: nat)
    requires Sane(order, t) && key in t.deadlines && t.deadlines[key] !in t.inFlight
    ensures Sane(order, t.(deadlines := t.deadlines - {key}))
  {
    hide IdOf;
    var u := t.(deadlines := t.deadlines - {key});
    forall id | id in u.inFlight
      ensures Sound(order, u, id)
    {
      assert Sound(order, t, id);
    }
  }

  lemma {:induction false} ExpireKeeps(order: map<nat, nat>, t: Task, key: nat, timeoutDesyncs: bool)
    requires Sane(order, t) && key in t.deadlines
    ensures Sane(order, t.Expire(key, timeoutDesyncs))
  {
    var id := t.deadlines[key];
    if id in t.inFlight {
      ResolveKeeps(order, t, id, key, Err(Timeout(ResponseWait)));
      SaneDesynchronize(order, t.Resolve(id, key, Err(Timeout(ResponseWait))));
    } else {
      StrayKeeps(order, t, key);
    }
  }

  // ---- The whole ----

  ghost predicate CallersSane(s: System) {
    && Counted(s.callers) && Channelled(s.callers)
    && Handed(s.callers, s.task.taken) && Permitted(s.callers, s.limit)
  }

  ghost predicate Inv(s: System) {
    CallersSane(s) && Sane(s.callers.order, s.task)
  }

  lemma {:induction false} FreshInv(limit: nat, desyncs: bool)
    ensures Inv(Fresh(limit, desyncs))
  {
  }

  lemma {:induction false} CallerStepKeeps(s: System, e: Event)
    requires Inv(s) && Enabled(s, e) && !e.OfTask()
    ensures CallersSane(Step(s, e))
  {
    hide Counted;
    hide Channelled;
    hide Handed;
    hide Permitted;
    hide Sane;
    var c, d := s.callers, CallersStep(s, e);
    match e
    case Acquire =>
      AcquireKeeps(c, s.limit);
      SameChannel(c, d, s.task.taken);
    case Pass(x) =>
      PassKeeps(c, x, s.limit);
      SameChannel(c, d, s.task.taken);
    case Refuse(x) =>
      RefuseKeeps(c, x, s.limit);
      SameChannel(c, d, s.task.taken);
    case Allocate(x) =>
      AllocateKeeps(c, x, s.limit);
      AllocateChannelled(c, x, s.task.taken);
    case Enqueue(x, unit, request) => EnqueueKeeps(c, x, unit, request, s.limit, s.task.taken);
    case Return(x) =>
      LeaveKeeps(c, x, s.limit);
      SameChannel(c, d, s.task.taken);
    case Cancel(x) =>
      LeaveKeeps(c, x, s.limit);
      SameChannel(c, d, s.task.taken);
  }

  lemma {:induction false} TakenBy(s: System, e: Event)
    requires Enabled(s, e)
    ensures TaskStep(s, e).taken == s.task.taken + (if e.Take? then {s.callers.queue[0].serial} else {})
  {
  }

  lemma {:induction false} TaskStepKeeps(s: System, e: Event)
    requires Inv(s) && Enabled(s, e) && e.OfTask()
    ensures Inv(Step(s, e))
  {
    hide Counted;
    hide Permitted;
    hide Sane;
    hide IdOf;
    TakenBy(s, e);
    var order := s.callers.order;
    match e
    case Take(broken) =>
      var c := s.callers.queue[0];
      DequeueKeeps(s.callers, s.limit, s.task.taken);
      assert Bears(s.callers, c.serial, c.transaction);
      TakeKeeps(order, s.task, c, Sending(c, broken));
    case Receive(received) => ReceiveKeeps(order, s.task, received);
    case Expire(key) => ExpireKeeps(order, s.task, key, s.timeoutDesyncs);
  }

  /** Every step keeps the invariant. */
  lemma {:induction false} StepKeeps(s: System, e: Event)
    requires Inv(s) && Enabled(s, e)
    ensures Inv(Step(s, e))
  {
    if e.OfTask() {
      TaskStepKeeps(s, e);
    } else {
      CallerStepKeeps(s, e);
      if e.Allocate? {
        hide Sane;
        OrderGrows(s.callers.order, s.task, e.serial, s.callers.allocations);
      }
    }
  }
}
