/** Reachable states of the pipelined client that its guarantees have to exclude. */
module PipelineLoss {
  import opened Basics
  import opened TransactionIds
  import opened Pipeline
  import opened PipelineInvariant
  import opened PipelineRuns
  import opened Messages
  import opened Framings
  import Pdu

  ghost predicate Reachable(s: System) {
    exists states: seq<System>, events: seq<Event> :: IsRun(states, events) && states[|events|] == s
  }

  lemma {:induction false} ReachFresh(limit: nat, desyncs: bool)
    ensures Reachable(Fresh(limit, desyncs))
  {
    var states, events: seq<Event> := [Fresh(limit, desyncs)], [];
    assert IsRun(states, events);
  }

  lemma {:induction false} ReachStep(s: System, e: Event)
    requires Reachable(s) && Enabled(s, e)
    ensures Reachable(Step(s, e))
  {
    hide Step;
    var states: seq<System>, events: seq<Event> :| IsRun(states, events) && states[|events|] == s;
    var more, extended := states + [Step(s, e)], events + [e];
    assert IsRun(more, extended) by {
      assert more[0] == states[0];
      forall i | 0 <= i < |extended|
        ensures Enabled(more[i], extended[i]) && more[i + 1] == Step(more[i], extended[i])
      {
        if i < |events| {
          assert more[i] == states[i] && extended[i] == events[i] && more[i + 1] == states[i + 1];
        } else {
          assert more[i] == s && extended[i] == e;
        }
      }
    }
    assert more[|extended|] == Step(s, e);
  }

  lemma {:induction false} ReachInv(s: System)
    requires Reachable(s)
    ensures Inv(s)
  {
    hide Inv;
    var states: seq<System>, events: seq<Event> :| IsRun(states, events) && states[|events|] == s;
    RunInv(states, events, |events|);
  }

  // ---- One call up to its write ----

  /** No caller is part-way through `dispatch`, and the handle still works. */
  ghost predicate Quiet(s: System) {
    && s.callers.holding == {} && s.callers.passed == {} && s.callers.pending == map[] && s.callers.queue == []
    && !s.task.desynchronized && |s.callers.permits| < s.limit
  }

  /** What every caller sends here. */
  function Probe(x: nat, id: Word): Command {
    Command(x, id, 1, Pdu.RequestPdu.ReadExceptionStatus)
  }

  lemma {:induction false} ProbeSent(x: nat, id: Word)
    ensures Sending(Probe(x, id), None).Ok?
  {
    var m := RequestMessage(Pdu.RequestPdu.ReadExceptionStatus);
    assert EncodeMessage(m).Ok?;
    AduWritten(Tcp, Mbap(id, 1), m);
  }

  /** What a whole call up to its successful write does to a quiet handle. */
  function Issued(s: System): System {
    var c, x := s.callers, s.callers.nextSerial;
    s.(callers := c.(nextSerial := x + 1, permits := c.permits + {x}, awaiting := c.awaiting + {x}, next := Next(c.next),
                     allocations := c.allocations + 1, order := c.order[x := c.allocations]),
       task := s.task.Take(Probe(x, c.next), Sending(Probe(x, c.next), None)))
  }

  lemma {:induction false} ReachEnqueued(s: System)
    requires Reachable(s) && Quiet(s)
    ensures var c, x := s.callers, s.callers.nextSerial;
            Reachable(s.(callers := c.(nextSerial := x + 1, permits := c.permits + {x}, awaiting := c.awaiting + {x},
                                       next := Next(c.next), allocations := c.allocations + 1,
                                       order := c.order[x := c.allocations], queue := [Probe(x, c.next)])))
  {
    var c, x := s.callers, s.callers.nextSerial;
    ReachStep(s, Acquire);
    var s1 := s.(callers := c.(nextSerial := x + 1, permits := c.permits + {x}, holding := {x}));
    assert s1 == Step(s, Acquire);
    ReachStep(s1, Pass(x));
    var s2 := s1.(callers := s1.callers.(holding := {}, passed := {x}));
    assert s2 == Step(s1, Pass(x));
    ReachStep(s2, Allocate(x));
    var s3 := s2.(callers := s2.callers.(passed := {}, pending := map[x := c.next], next := Next(c.next),
                                         allocations := c.allocations + 1, order := c.order[x := c.allocations]));
    assert s3 == Step(s2, Allocate(x));
    var e := Enqueue(x, 1, Pdu.RequestPdu.ReadExceptionStatus);
    ReachStep(s3, e);
    assert Step(s3, e).callers.pending == map[];
  }

  lemma {:induction false} ReachIssued(s: System)
    requires Reachable(s) && Quiet(s)
    ensures Reachable(Issued(s))
  {
    ReachEnqueued(s);
    var c, x := s.callers, s.callers.nextSerial;
    var t := s.(callers := c.(nextSerial := x + 1, permits := c.permits + {x}, awaiting := c.awaiting + {x},
                              next := Next(c.next), allocations := c.allocations + 1,
                              order := c.order[x := c.allocations], queue := [Probe(x, c.next)]));
    ProbeSent(x, c.next);
    ReachStep(t, Take(None));
    assert t.callers.queue[1..] == [];
    assert Step(t, Take(None)) == Issued(s);
  }

  // ---- Cancelling ----

  /** `n` requests were written and every caller was cancelled: their entries are all still there. */
  ghost predicate AllCancelled(s: System, limit: nat, n: nat) {
    && Reachable(s) && Quiet(s) && s.limit == limit
    && s.callers.permits == {} && s.callers.awaiting == {} && s.callers.allocations == n && s.callers.next == IdOf(n)
    && |s.task.inFlight| == n && forall id :: id in s.task.inFlight ==> id <= n
  }

  lemma {:induction false} SmallId(n: nat)
    requires n < CYCLE
    ensures IdOf(n) == n + 1
  {
  }

  lemma {:induction false} CancelOneMore(s: System, limit: nat, n: nat)
    requires AllCancelled(s, limit, n) && n < CYCLE
    ensures var x := s.callers.nextSerial;
            && x in Issued(s).callers.awaiting
            && AllCancelled(Step(Issued(s), Cancel(x)), limit, n + 1)
  {
    hide Reachable;
    hide IdOf;
    SmallId(n);
    NextId(n);
    var x, id := s.callers.nextSerial, s.callers.next;
    ReachIssued(s);
    ProbeSent(x, id);
    var t := Issued(s);
    assert t.task.inFlight == s.task.inFlight[id := Entry(x, s.task.nextKey)];
    assert id !in s.task.inFlight;
    assert t.task.inFlight.Keys == s.task.inFlight.Keys + {id};
    ReachStep(t, Cancel(x));
    var u := Step(t, Cancel(x));
    assert u.callers.permits == {} && u.callers.awaiting == {};
  }

  lemma {:induction false} CancelMany(limit: nat, n: nat) returns (s: System)
    requires 1 <= limit && n <= CYCLE
    ensures AllCancelled(s, limit, n)
    decreases n
  {
    if n == 0 {
      ReachFresh(limit, true);
      s := Fresh(limit, true);
    } else {
      var before := CancelMany(limit, n - 1);
      CancelOneMore(before, limit, n - 1);
      s := Step(Issued(before), Cancel(before.callers.nextSerial));
    }
  }

  /**
   * Cancelling frees the permit and leaves the entry: whatever the limit, from one on, the table can hold any number of
   * requests up to 65535 with no caller waiting for any of them.
   */
  lemma {:induction false} CancelLeavesEntry(limit: nat, n: nat)
    requires 1 <= limit && n <= CYCLE
    ensures exists s :: Reachable(s) && s.limit == limit && s.callers.awaiting == {} && |s.task.inFlight| == n
  {
    hide Reachable;
    var s := CancelMany(limit, n);
  }

  // ---- When the table can exceed the limit ----

  /** Every state a handle of this limit can reach has at most that many requests in its table. */
  ghost predicate TableWithinLimit(limit: nat) {
    forall s :: Reachable(s) && s.limit == limit ==> |s.task.inFlight| <= limit
  }

  lemma {:induction false} NoneAdmitted(states: seq<System>, events: seq<Event>, n: nat)
    requires IsRun(states, events) && n < |states| && states[n].limit == 0
    ensures states[n].callers.nextSerial == 0
    decreases n
  {
    if n == 0 {
    } else {
      assert states[n] == Step(states[n - 1], events[n - 1]);
      NoneAdmitted(states, events, n - 1);
    }
  }

  /** A handle that admits no one has nothing in its table. */
  lemma {:induction false} NoneRegistered(s: System)
    requires Reachable(s) && s.limit == 0
    ensures s.task.inFlight == map[]
  {
    var states: seq<System>, events: seq<Event> :| IsRun(states, events) && states[|events|] == s;
    NoneAdmitted(states, events, |events|);
    RunInv(states, events, |events|);
    assert s.callers.order == map[];
    assert forall id :: id in s.task.inFlight ==> Sound(s.callers.order, s.task, id);
  }

  lemma {:induction false} IdsBelow(ids: set<Word>, n: nat)
    requires forall id :: id in ids ==> 1 <= id <= n
    ensures |ids| <= n
    decreases n
  {
    if n == 0 {
      assert ids == {};
    } else {
      var fewer := ids - {n};
      IdsBelow(fewer, n - 1);
      assert ids <= fewer + {n};
      if n in ids {
        assert ids == fewer + {n};
      } else {
        assert ids == fewer;
      }
    }
  }

  /** There are only 65535 identifiers to hold entries under. */
  lemma {:induction false} TableWithinIds(s: System)
    requires Reachable(s)
    ensures |s.task.inFlight| <= CYCLE
  {
    ReachInv(s);
    forall id | id in s.task.inFlight.Keys
      ensures 1 <= id <= CYCLE
    {
      assert Sound(s.callers.order, s.task, id);
    }
    IdsBelow(s.task.inFlight.Keys, CYCLE);
  }

  /** Whatever its callers do, a handle keeps its table within the limit if and only if it admits none, or 65535. */
  lemma {:induction false} TableWithinLimitIff(limit: nat)
    ensures TableWithinLimit(limit) <==> limit == 0 || limit >= CYCLE
  {
    hide Reachable;
    if limit == 0 || limit >= CYCLE {
      forall s | Reachable(s) && s.limit == limit
        ensures |s.task.inFlight| <= limit
      {
        TableWithinIds(s);
        if limit == 0 {
          NoneRegistered(s);
        }
      }
    } else {
      CancelLeavesEntry(limit, limit + 1);
    }
  }

  // ---- Losing a request ----

  /** Caller 0 still waits under identifier 1, and the `n` calls after it have come and gone. */
  ghost predicate SlowFirst(s: System, n: nat) {
    && Reachable(s) && Quiet(s) && s.limit == 2
    && s.callers.permits == {0} && s.callers.awaiting == {0}
    && s.callers.nextSerial == n + 1 && s.callers.allocations == n + 1 && s.callers.next == IdOf(n + 1)
    && s.task.inFlight == map[1 := Entry(0, 0)]
  }

  lemma {:induction false} FirstIssued() returns (s: System)
    ensures SlowFirst(s, 0)
  {
    hide Sending;
    ReachFresh(2, true);
    ReachIssued(Fresh(2, true));
    ProbeSent(0, 1);
    s := Issued(Fresh(2, true));
    assert s.callers.permits == {0};
  }

  /** One more call that is answered at once and returns. */
  lemma {:induction false} OneMore(s: System, n: nat, response: Pdu.ResponsePdu) returns (r: System)
    requires SlowFirst(s, n) && n + 1 < CYCLE
    ensures SlowFirst(r, n + 1)
  {
    hide Sending;
    hide Reachable;
    hide IdOf;
    var x, id := s.callers.nextSerial, s.callers.next;
    SmallId(0);
    WindowDistinct(0, n + 1);
    NextId(n + 1);
    ReachIssued(s);
    ProbeSent(x, id);
    var t := Issued(s);
    assert t.task.inFlight == map[1 := Entry(0, 0), id := Entry(x, s.task.nextKey)];
    var frame := Ok(Frame(id, 0, response));
    ReachStep(t, Receive(frame));
    var u := Step(t, Receive(frame));
    assert u.task.inFlight == map[1 := Entry(0, 0)];
    assert u.task.AnswersTo(x) != [];
    ReachStep(u, Return(x));
    r := Step(u, Return(x));
    assert r.callers.permits == {0} && r.callers.awaiting == {0};
  }

  lemma {:induction false} ManyMore(n: nat, response: Pdu.ResponsePdu) returns (s: System)
    requires n < CYCLE
    ensures SlowFirst(s, n)
    decreases n
  {
    if n == 0 {
      s := FirstIssued();
    } else {
      var before := ManyMore(n - 1, response);
      s := OneMore(before, n - 1, response);
    }
  }

  /**
   * One allocation past the first cycle is enough: there is a run of 65536 allocations, never more than two calls at a
   * time, after which the first request is neither registered nor answered.
   */
  lemma {:induction false} SecondCycleLoses(response: Pdu.ResponsePdu)
    ensures exists s :: Reachable(s) && s.callers.allocations == 65536 && 0 in Lost(s.task)
  {
    var s := ManyMore(CYCLE - 1, response);
    assert s.callers.next == IdOf(CYCLE) == 1;
    ReachInv(s);
    assert Sound(s.callers.order, s.task, 1);
    ReachIssued(s);
    var t, c := Issued(s), Probe(s.callers.nextSerial, 1);
    ProbeSent(c.serial, 1);
    assert s.callers.nextSerial !in s.task.taken;
    WrittenLost(s.callers.order, s.task, c, Sending(c, None).value);
    assert Reachable(t) && t.callers.allocations == 65536 && 0 in Lost(t.task);
  }
}
