/** Whole runs of the pipelined client: who is answered, how often, and when a request can be lost. */
module PipelineRuns {
  import opened Basics
  import opened TransactionIds
  import opened Pipeline
  import opened PipelineInvariant
  import Pdu

  lemma {:induction false} RunLength(states: seq<System>, events: seq<Event>)
    requires IsRun(states, events)
    ensures |states| == |events| + 1
  {
  }

  lemma {:induction false} RunStep(states: seq<System>, events: seq<Event>, i: nat)
    requires IsRun(states, events) && i < |events|
    ensures |states| == |events| + 1 && Enabled(states[i], events[i])
    ensures states[i + 1].task == TaskStep(states[i], events[i])
    ensures states[i + 1].callers == CallersStep(states[i], events[i])
  {
    hide Enabled;
    hide TaskStep;
    hide CallersStep;
  }

  /** The invariant holds at every state of every run. */
  lemma {:induction false} RunInv(states: seq<System>, events: seq<Event>, i: nat)
    requires IsRun(states, events) && i < |states|
    ensures Inv(states[i])
    decreases i
  {
    if i == 0 {
      FreshInv(states[0].limit, states[0].timeoutDesyncs);
    } else {
      RunInv(states, events, i - 1);
      StepKeeps(states[i - 1], events[i - 1]);
    }
  }

  // ---- The fate of a request ----

  lemma {:induction false} RegisteredHas(t: Task, id: Word)
    requires id in t.inFlight
    ensures t.inFlight[id].serial in t.Registered()
  {
  }

  /** Once taken, a request is registered and unanswered, answered exactly once, or lost; never two of these. */
  lemma {:induction false} Fate(s: System, x: nat)
    requires Inv(s) && x in s.task.taken
    ensures |s.task.AnswersTo(x)| <= 1
    ensures x in s.task.Registered() ==> s.task.AnswersTo(x) == []
    ensures x in Lost(s.task) <==> x !in s.task.Registered() && |s.task.AnswersTo(x)| == 0
  {
    if x in s.task.Registered() {
      var id :| id in s.task.inFlight && s.task.inFlight[id].serial == x;
      assert Sound(s.callers.order, s.task, id);
    }
  }

  lemma {:induction false} ResolvedRegistered(order: map<nat, nat>, t: Task, id: Word, key: nat, reply: Reply)
    requires Sane(order, t) && id in t.inFlight
    ensures t.Resolve(id, key, reply).Registered() == t.Registered() - {t.inFlight[id].serial}
  {
    var u := t.Resolve(id, key, reply);
    forall x | x in u.Registered()
      ensures x in t.Registered() && x != t.inFlight[id].serial
    {
      var other :| other in u.inFlight && u.inFlight[other].serial == x;
      if x == t.inFlight[id].serial {
        RegisteredOnce(order, t, other, id);
      }
    }
    forall x | x in t.Registered() && x != t.inFlight[id].serial
      ensures x in u.Registered()
    {
      var other :| other in t.inFlight && t.inFlight[other].serial == x;
      assert other in u.inFlight;
    }
  }

  lemma {:induction false} ResolvedLost(order: map<nat, nat>, t: Task, id: Word, key: nat, reply: Reply)
    requires Sane(order, t) && id in t.inFlight
    ensures Lost(t.Resolve(id, key, reply)) == Lost(t)
  {
    hide Sane;
    var u := t.Resolve(id, key, reply);
    ResolvedRegistered(order, t, id, key, reply);
    RegisteredHas(t, id);
    assert u.AnswersTo(t.inFlight[id].serial) != [];
  }

  lemma {:induction false} DesynchronizedLost(t: Task)
    ensures Lost(t.Desynchronize()) == Lost(t)
  {
    var u := t.(desynchronized := true);
    var f := u.FailAll();
    assert u.Registered() == t.Registered() && f.Registered() == {};
    forall x
      ensures x in Lost(f) <==> x in Lost(t)
    {
      FailedAnswers(u, x);
    }
  }

  lemma {:induction false} TakenRegistered(order: map<nat, nat>, t: Task, c: Command, adu: Bytes)
    requires Sane(order, t) && !t.desynchronized && c.serial !in t.taken
    ensures t.Take(c, Ok(adu)).Registered()
            == (if c.transaction in t.inFlight then t.Registered() - {t.inFlight[c.transaction].serial} else t.Registered())
               + {c.serial}
  {
    var u := t.Take(c, Ok(adu));
    forall x | x in u.Registered()
      ensures x == c.serial || x in t.Registered()
      ensures c.transaction in t.inFlight && x == t.inFlight[c.transaction].serial ==> x == c.serial
    {
      var id :| id in u.inFlight && u.inFlight[id].serial == x;
      if id != c.transaction && c.transaction in t.inFlight && x == t.inFlight[c.transaction].serial {
        RegisteredOnce(order, t, id, c.transaction);
      }
    }
    forall x | x in t.Registered() && (c.transaction in t.inFlight ==> x != t.inFlight[c.transaction].serial)
      ensures x in u.Registered()
    {
      var id :| id in t.inFlight && t.inFlight[id].serial == x;
      assert id in u.inFlight && u.inFlight[id] == t.inFlight[id];
    }
    assert u.inFlight[c.transaction].serial == c.serial;
  }

  /** The request whose entry a write replaces is lost, and nothing else is. */
  lemma {:induction false} WrittenLost(order: map<nat, nat>, t: Task, c: Command, adu: Bytes)
    requires Sane(order, t) && !t.desynchronized && c.serial !in t.taken
    ensures Lost(t.Take(c, Ok(adu)))
            == Lost(t) + (if c.transaction in t.inFlight then {t.inFlight[c.transaction].serial} else {})
  {
    var u := t.Take(c, Ok(adu));
    TakenRegistered(order, t, c, adu);
    assert forall x :: u.AnswersTo(x) == t.AnswersTo(x);
    if c.transaction in t.inFlight {
      assert Sound(order, t, c.transaction);
      RegisteredHas(t, c.transaction);
    }
  }

  lemma {:induction false} RefusedLost(t: Task, c: Command, reply: Reply)
    requires c.serial !in t.taken
    ensures Lost(t.(taken := t.taken + {c.serial}).Answer(c.serial, reply)) == Lost(t)
  {
    var u := t.(taken := t.taken + {c.serial}).Answer(c.serial, reply);
    assert u.Registered() == t.Registered();
    assert u.AnswersTo(c.serial) != [];
  }

  lemma {:induction false} TakeLost(order: map<nat, nat>, t: Task, c: Command, sent: Result<Bytes>)
    requires Sane(order, t) && c.serial !in t.taken
    ensures Lost(t.Take(c, sent))
            == Lost(t) + (if !t.desynchronized && sent.Ok? && c.transaction in t.inFlight
                          then {t.inFlight[c.transaction].serial} else {})
  {
    hide Sane;
    hide Lost;
    if t.desynchronized {
      RefusedLost(t, c, Err(Desynchronized));
    } else if sent.Ok? {
      WrittenLost(order, t, c, sent.value);
    } else {
      var u := t.Issue(c.transaction);
      SameLost(t, u);
      RefusedLost(u, c, Err(sent.error));
      var v := t.(taken := t.taken + {c.serial}).Issue(c.transaction).Answer(c.serial, Err(sent.error));
      assert v == u.(taken := u.taken + {c.serial}).Answer(c.serial, Err(sent.error));
      DesynchronizedLost(v);
    }
  }

  lemma {:induction false} SameLost(t: Task, u: Task)
    requires u.taken == t.taken && u.inFlight == t.inFlight && u.answers == t.answers
    ensures Lost(u) == Lost(t)
  {
    assert u.Registered() == t.Registered();
  }

  /** What one step loses: the holder of an overwritten entry, and nothing else. */
  lemma {:induction false} LostStep(s: System, e: Event)
    requires Inv(s) && Enabled(s, e)
    ensures Lost(TaskStep(s, e))
            == Lost(s.task)
               + (if Overwrites(s, e) then {s.task.inFlight[s.callers.queue[0].transaction].serial} else {})
  {
    hide Lost;
    hide Sane;
    var t, order := s.task, s.callers.order;
    match e
    case Take(broken) => TakeLost(order, t, s.callers.queue[0], Sending(s.callers.queue[0], broken));
    case Receive(received) =>
      if received.Ok? && received.value.transaction in t.inFlight {
        var id := received.value.transaction;
        ResolvedLost(order, t, id, t.inFlight[id].key, Ok(received.value.response));
      } else {
        DesynchronizedLost(t);
      }
    case Expire(key) =>
      var id := t.deadlines[key];
      if id in t.inFlight {
        ResolvedLost(order, t, id, key, Err(Timeout(ResponseWait)));
        DesynchronizedLost(t.Resolve(id, key, Err(Timeout(ResponseWait))));
      } else {
        SameLost(t, t.(deadlines := t.deadlines - {key}));
      }
    case _ =>
  }

  lemma {:induction false} LostAtFirst(states: seq<System>, events: seq<Event>)
    requires IsRun(states, events)
    ensures Lost(states[0].task) == {}
  {
  }

  lemma {:induction false} LostNext(states: seq<System>, events: seq<Event>, i: nat)
    requires IsRun(states, events) && i < |events|
    ensures Lost(states[i + 1].task) == {} <==> Lost(states[i].task) == {} && !Overwrites(states[i], events[i])
  {
    hide *;
    RunStep(states, events, i);
    RunInv(states, events, i);
    LostStep(states[i], events[i]);
  }

  /**
   * In every run, up to any point: no request is lost if and only if no write replaced the entry of a request still in
   * flight under the same identifier.
   */
  lemma {:induction false} NothingLostIff(states: seq<System>, events: seq<Event>, n: nat)
    requires IsRun(states, events) && n < |states|
    ensures Lost(states[n].task) == {} <==> forall i :: 0 <= i < n ==> !Overwrites(states[i], events[i])
    decreases n
  {
    hide *;
    RunLength(states, events);
    LostAtFirst(states, events);
    if n == 0 {
    } else {
      NothingLostIff(states, events, n - 1);
      LostNext(states, events, n - 1);
    }
  }

  /** So, without such a write, every request taken is registered or answered, and exactly once in all. */
  lemma {:induction false} ExactlyOnce(states: seq<System>, events: seq<Event>, n: nat, x: nat)
    requires IsRun(states, events) && n < |states|
    requires forall i :: 0 <= i < n ==> !Overwrites(states[i], events[i])
    requires x in states[n].task.taken
    ensures var t := states[n].task;
            (x in t.Registered() && t.AnswersTo(x) == []) || (x !in t.Registered() && |t.AnswersTo(x)| == 1)
  {
    NothingLostIff(states, events, n);
    RunInv(states, events, n);
    Fate(states[n], x);
  }

  // ---- Timers ----

  /** Every live timer belongs to a registered request. With the invariant, entries and timers are in bijection. */
  ghost predicate Paired(t: Task) {
    forall key :: key in t.deadlines ==> t.deadlines[key] in t.inFlight && t.inFlight[t.deadlines[key]].key == key
  }

  lemma {:induction false} DesynchronizedPaired(t: Task)
    requires Paired(t)
    ensures t.Desynchronize().deadlines == map[] && Paired(t.Desynchronize())
  {
    var u := t.Desynchronize();
    forall key | key in t.deadlines
      ensures key in t.Keys()
    {
      assert t.inFlight[t.deadlines[key]].key == key;
    }
    assert t.(desynchronized := true).Keys() == t.Keys();
  }

  lemma {:induction false} ResolvedPaired(order: map<nat, nat>, t: Task, id: Word, key: nat, reply: Reply)
    requires Sane(order, t) && Paired(t) && id in t.inFlight && t.inFlight[id].key == key
    ensures Paired(t.Resolve(id, key, reply))
  {
    assert Sound(order, t, id);
  }

  lemma {:induction false} PairedStep(s: System, e: Event)
    requires Inv(s) && Enabled(s, e) && Paired(s.task) && !Overwrites(s, e)
    ensures Paired(TaskStep(s, e))
  {
    var t, order := s.task, s.callers.order;
    match e
    case Take(broken) =>
      var c := s.callers.queue[0];
      var sent := Sending(c, broken);
      if !t.desynchronized && sent.Err? {
        DesynchronizedPaired(t.(taken := t.taken + {c.serial}).Issue(c.transaction).Answer(c.serial, Err(sent.error)));
      }
    case Receive(received) =>
      if received.Ok? && received.value.transaction in t.inFlight {
        var id := received.value.transaction;
        ResolvedPaired(order, t, id, t.inFlight[id].key, Ok(received.value.response));
      } else {
        DesynchronizedPaired(t);
      }
    case Expire(key) =>
      ResolvedPaired(order, t, t.deadlines[key], key, Err(Timeout(ResponseWait)));
      DesynchronizedPaired(t.Resolve(t.deadlines[key], key, Err(Timeout(ResponseWait))));
    case _ =>
  }

  /**
   * Without an overwriting write, at every state: registered requests and live timers are in bijection, each timer
   * bearing the identifier of its request, and a desynchronized handle has neither.
   */
  lemma {:induction false} TimersPaired(states: seq<System>, events: seq<Event>, n: nat)
    requires IsRun(states, events) && n < |states|
    requires forall i :: 0 <= i < n ==> !Overwrites(states[i], events[i])
    ensures var t := states[n].task;
            && Paired(t)
            && (forall id :: id in t.inFlight ==>
                  t.inFlight[id].key in t.deadlines && t.deadlines[t.inFlight[id].key] == id)
            && (t.desynchronized ==> t.inFlight == map[] && t.deadlines == map[])
    decreases n
  {
    RunInv(states, events, n);
    var t := states[n].task;
    forall id | id in t.inFlight
      ensures t.inFlight[id].key in t.deadlines && t.deadlines[t.inFlight[id].key] == id
    {
      assert Sound(states[n].callers.order, t, id);
    }
    if n == 0 {
    } else {
      TimersPaired(states, events, n - 1);
      RunInv(states, events, n - 1);
      PairedStep(states[n - 1], events[n - 1]);
    }
  }

  // ---- Answers ----

  /** What is added to an unanswered caller starts with a failure. */
  ghost predicate Negative(answers: seq<Reply>) {
    answers == [] || answers[0].Err?
  }

  lemma {:induction false} DesynchronizedNegative(t: Task, x: nat)
    requires Negative(t.AnswersTo(x))
    ensures Negative(t.Desynchronize().AnswersTo(x))
  {
    FailedAnswers(t.(desynchronized := true), x);
  }

  lemma {:induction false} TakeNegative(t: Task, c: Command, sent: Result<Bytes>, x: nat)
    requires t.AnswersTo(x) == []
    ensures Negative(t.Take(c, sent).AnswersTo(x))
  {
    if !t.desynchronized && sent.Err? {
      DesynchronizedNegative(t.(taken := t.taken + {c.serial}).Issue(c.transaction).Answer(c.serial, Err(sent.error)), x);
    }
  }

  lemma {:induction false} ExpireNegative(t: Task, key: nat, timeoutDesyncs: bool, x: nat)
    requires t.AnswersTo(x) == [] && key in t.deadlines
    ensures Negative(t.Expire(key, timeoutDesyncs).AnswersTo(x))
  {
    var id := t.deadlines[key];
    if id in t.inFlight {
      DesynchronizedNegative(t.Resolve(id, key, Err(Timeout(ResponseWait))), x);
    }
  }

  /**
   * A positive answer comes from a frame that bears the request's own identifier, which arrives while the request is
   * registered: after it was written, while its own timer is still running.
   */
  lemma {:induction false} PositiveAnswer(s: System, e: Event, x: nat, response: Pdu.ResponsePdu)
    requires Inv(s) && Enabled(s, e)
    requires s.task.AnswersTo(x) == [] && TaskStep(s, e).AnswersTo(x) == [Ok(response)]
    ensures && x in s.callers.order
            && var id := IdOf(s.callers.order[x]);
            && id in s.task.inFlight && s.task.inFlight[id].serial == x
            && Wrote(s.task.written, x, id)
            && s.task.inFlight[id].key in s.task.deadlines
            && e.Receive? && e.received.Ok?
            && e.received.value.transaction == id && e.received.value.response == response
  {
    hide IdOf;
    var t := s.task;
    match e
    case Take(broken) => TakeNegative(t, s.callers.queue[0], Sending(s.callers.queue[0], broken), x);
    case Receive(received) =>
      if received.Ok? && received.value.transaction in t.inFlight {
        assert Sound(s.callers.order, t, received.value.transaction);
        assert t.Receive(received).AnswersTo(x)[0] == Ok(received.value.response);
      } else {
        DesynchronizedNegative(t, x);
      }
    case Expire(key) => ExpireNegative(t, key, s.timeoutDesyncs, x);
    case _ =>
  }

  /** The j-th event is the successful write of this caller's request under this identifier, which started this timer. */
  ghost predicate WrittenAt(states: seq<System>, events: seq<Event>, j: nat, x: nat, id: Word, key: nat) {
    && j < |events| && j < |states|
    && events[j].Take? && !states[j].task.desynchronized && states[j].callers.queue != []
    && var c := states[j].callers.queue[0];
    && c.serial == x && c.transaction == id && Sending(c, events[j].broken).Ok?
    && states[j].task.nextKey == key
  }

  /** The i-th event is a frame under this identifier, met by the caller's entry with its timer still running. */
  ghost predicate AnsweredAt(
    states: seq<System>, events: seq<Event>, i: nat, x: nat, id: Word, key: nat, response: Pdu.ResponsePdu)
  {
    && i < |events| && i < |states|
    && events[i].Receive? && events[i].received.Ok?
    && events[i].received.value.transaction == id && events[i].received.value.response == response
    && id in states[i].task.inFlight && states[i].task.inFlight[id] == Entry(x, key)
    && key in states[i].task.deadlines
  }

  /** An entry was there before, or is the one just written. */
  lemma {:induction false} EntryFrom(s: System, e: Event, id: Word)
    requires Enabled(s, e) && id in TaskStep(s, e).inFlight
    ensures var entry := TaskStep(s, e).inFlight[id];
            || (id in s.task.inFlight && s.task.inFlight[id] == entry)
            || (e.Take? && !s.task.desynchronized
                && var c := s.callers.queue[0];
                && c.serial == entry.serial && c.transaction == id && Sending(c, e.broken).Ok?
                && entry.key == s.task.nextKey)
  {
  }

  /** Every entry of the table goes back to the write that made it. */
  lemma {:induction false} EntryWritten(states: seq<System>, events: seq<Event>, i: nat, id: Word)
    requires IsRun(states, events) && i < |states| && id in states[i].task.inFlight
    ensures var entry := states[i].task.inFlight[id];
            exists j :: 0 <= j < i && WrittenAt(states, events, j, entry.serial, id, entry.key)
    decreases i
  {
    if i == 0 {
    } else {
      var s, e, entry := states[i - 1], events[i - 1], states[i].task.inFlight[id];
      assert Enabled(s, e) && states[i].task == TaskStep(s, e);
      EntryFrom(s, e, id);
      hide TaskStep;
      hide Step;
      if id in s.task.inFlight && s.task.inFlight[id] == entry {
        EntryWritten(states, events, i - 1, id);
      } else {
        assert WrittenAt(states, events, i - 1, entry.serial, id, entry.key);
      }
    }
  }

  /** Answers are only ever added. */
  lemma {:induction false} AnswersGrow(s: System, e: Event, x: nat)
    requires Enabled(s, e)
    ensures s.task.AnswersTo(x) <= TaskStep(s, e).AnswersTo(x)
  {
    var t := s.task;
    match e
    case Take(broken) =>
      var c := s.callers.queue[0];
      var sent := Sending(c, broken);
      var u := t.(taken := t.taken + {c.serial}).Issue(c.transaction);
      if !t.desynchronized && sent.Err? {
        FailedAnswers(u.Answer(c.serial, Err(sent.error)).(desynchronized := true), x);
      }
    case Receive(received) => FailedAnswers(t.(desynchronized := true), x);
    case Expire(key) =>
      var id := t.deadlines[key];
      if id in t.inFlight {
        FailedAnswers(t.Resolve(id, key, Err(Timeout(ResponseWait))).(desynchronized := true), x);
      }
    case _ =>
  }

  lemma {:induction false} NoAnswerAtFirst(states: seq<System>, events: seq<Event>, x: nat)
    requires IsRun(states, events)
    ensures states[0].task.AnswersTo(x) == []
  {
  }

  /** The step that gives a positive answer. */
  lemma {:induction false} AnsweredNow(states: seq<System>, events: seq<Event>, i: nat, x: nat, response: Pdu.ResponsePdu)
    requires IsRun(states, events) && i < |events|
    requires states[i].task.AnswersTo(x) == [] && states[i + 1].task.AnswersTo(x) == [Ok(response)]
    ensures exists j, id, key ::
              0 <= j < i && WrittenAt(states, events, j, x, id, key) && AnsweredAt(states, events, i, x, id, key, response)
  {
    RunStep(states, events, i);
    RunInv(states, events, i);
    hide Enabled;
    hide TaskStep;
    hide Step;
    hide Inv;
    hide WrittenAt;
    var s, e := states[i], events[i];
    PositiveAnswer(s, e, x, response);
    var id := e.received.value.transaction;
    var key := s.task.inFlight[id].key;
    EntryWritten(states, events, i, id);
    var j :| 0 <= j < i && WrittenAt(states, events, j, x, id, key);
    assert AnsweredAt(states, events, i, x, id, key, response);
  }

  /**
   * In every run, a caller that holds a positive answer had its request written, and later a frame under that very
   * identifier came in while the request was registered and the timer started with the write was still running; the
   * answer is what the frame said.
   */
  lemma {:induction false} PositiveAnswerExplained(
    states: seq<System>, events: seq<Event>, n: nat, x: nat, response: Pdu.ResponsePdu)
    requires IsRun(states, events) && n < |states| && states[n].task.AnswersTo(x) == [Ok(response)]
    ensures exists j, i, id, key ::
              && 0 <= j < i < n && WrittenAt(states, events, j, x, id, key)
              && AnsweredAt(states, events, i, x, id, key, response)
    decreases n
  {
    hide *;
    RunLength(states, events);
    NoAnswerAtFirst(states, events, x);
    if n == 0 {
    } else {
      RunStep(states, events, n - 1);
      AnswersGrow(states[n - 1], events[n - 1], x);
      if states[n - 1].task.AnswersTo(x) == [Ok(response)] {
        PositiveAnswerExplained(states, events, n - 1, x, response);
      } else {
        assert states[n - 1].task.AnswersTo(x) == [];
        AnsweredNow(states, events, n - 1, x, response);
      }
    }
  }

  // ---- Desynchronization ----

  lemma {:induction false} DesynchronizedStep(s: System, e: Event)
    requires Inv(s) && Enabled(s, e) && s.task.desynchronized
    ensures TaskStep(s, e).desynchronized && TaskStep(s, e).written == s.task.written
  {
  }

  lemma {:induction false} DesynchronizedEmpty(s: System)
    requires Inv(s)
    ensures s.task.desynchronized ==> s.task.inFlight == map[]
  {
  }

  /** The flag never reverts: from then on the table is empty and nothing is written any more. */
  lemma {:induction false} DesynchronizedForever(states: seq<System>, events: seq<Event>, i: nat, j: nat)
    requires IsRun(states, events) && i <= j < |states| && states[i].task.desynchronized
    ensures states[j].task.desynchronized && states[j].task.inFlight == map[]
    ensures states[j].task.written == states[i].task.written
    decreases j
  {
    hide *;
    RunLength(states, events);
    RunInv(states, events, j);
    DesynchronizedEmpty(states[j]);
    if i < j {
      DesynchronizedForever(states, events, i, j - 1);
      RunStep(states, events, j - 1);
      RunInv(states, events, j - 1);
      DesynchronizedStep(states[j - 1], events[j - 1]);
    }
  }

  // ---- Permits ----

  lemma {:induction false} SubsetSize(smaller: set<nat>, larger: set<nat>)
    requires smaller <= larger
    ensures |smaller| <= |larger|
  {
    if smaller != larger {
      var x :| x in larger && x !in smaller;
      SubsetSize(smaller, larger - {x});
    }
  }

  /** Of the registered requests, no more than `max_in_flight` have a caller that still awaits them. */
  lemma {:induction false} InFlightBounded(states: seq<System>, events: seq<Event>, n: nat)
    requires IsRun(states, events) && n < |states|
    ensures |states[n].task.Registered() * states[n].callers.awaiting| <= states[n].limit
  {
    RunInv(states, events, n);
    var s := states[n];
    SubsetSize(s.task.Registered() * s.callers.awaiting, s.callers.permits);
  }

  // ---- The table ----

  /** The callers that were cancelled, before the n-th state, without having been answered. */
  ghost function Abandoned(states: seq<System>, events: seq<Event>, n: nat): set<nat>
    requires n < |states| && n <= |events|
  {
    if n == 0 then {}
    else
      var e := events[n - 1];
      Abandoned(states, events, n - 1)
      + if e.Cancel? && states[n - 1].task.AnswersTo(e.serial) == [] then {e.serial} else {}
  }

  /** Whatever is queued or registered is still awaited, or was abandoned. */
  ghost predicate Accounted(s: System, abandoned: set<nat>) {
    && (forall i :: 0 <= i < |s.callers.queue| ==> s.callers.queue[i].serial in s.callers.awaiting + abandoned)
    && s.task.Registered() <= s.callers.awaiting + abandoned
  }

  /** A step registers at most the request it takes. */
  lemma {:induction false} RegisteredStep(s: System, e: Event)
    requires Inv(s) && Enabled(s, e)
    ensures TaskStep(s, e).Registered() <= s.task.Registered() + (if e.Take? then {s.callers.queue[0].serial} else {})
  {
    forall x | x in TaskStep(s, e).Registered()
      ensures x in s.task.Registered() || (e.Take? && x == s.callers.queue[0].serial)
    {
      var id :| id in TaskStep(s, e).inFlight && TaskStep(s, e).inFlight[id].serial == x;
      EntryFrom(s, e, id);
      if id in s.task.inFlight && s.task.inFlight[id] == TaskStep(s, e).inFlight[id] {
        RegisteredHas(s.task, id);
      }
    }
  }

  /** An answered caller is neither queued nor registered. */
  lemma {:induction false} AnsweredIsDone(s: System, x: nat)
    requires Inv(s) && s.task.AnswersTo(x) != []
    ensures x !in s.task.Registered() && forall i :: 0 <= i < |s.callers.queue| ==> s.callers.queue[i].serial != x
  {
    assert x in s.task.taken;
    Fate(s, x);
  }

  lemma {:induction false} AccountedStep(s: System, e: Event, abandoned: set<nat>)
    requires Inv(s) && Enabled(s, e) && Accounted(s, abandoned)
    ensures Accounted(Step(s, e),
                      abandoned + if e.Cancel? && s.task.AnswersTo(e.serial) == [] then {e.serial} else {})
  {
    RegisteredStep(s, e);
    hide TaskStep;
    if !e.OfTask() {
      CallerLeavesTask(s, e);
    }
    if (e.Return? || e.Cancel?) && s.task.AnswersTo(e.serial) != [] {
      AnsweredIsDone(s, e.serial);
    }
    hide Inv;
    var q := s.callers.queue;
    assert e.Take? ==> forall i :: 0 <= i < |q[1..]| ==> q[1..][i] == q[i + 1];
  }

  lemma {:induction false} CallerLeavesTask(s: System, e: Event)
    requires Enabled(s, e) && !e.OfTask()
    ensures TaskStep(s, e) == s.task
  {
  }

  lemma {:induction false} RunAccounted(states: seq<System>, events: seq<Event>, n: nat)
    requires IsRun(states, events) && n < |states|
    ensures Accounted(states[n], Abandoned(states, events, n))
    decreases n
  {
    if n == 0 {
    } else {
      hide Accounted;
      hide Inv;
      RunAccounted(states, events, n - 1);
      RunInv(states, events, n - 1);
      AccountedStep(states[n - 1], events[n - 1], Abandoned(states, events, n - 1));
    }
  }

  function CallersOf(table: map<Word, Entry>): set<nat> {
    set id | id in table :: table[id].serial
  }

  /** Entries of different callers: the table is no larger than the set of its callers. */
  lemma {:induction false} TableSize(table: map<Word, Entry>)
    requires forall id, id' :: id in table && id' in table && table[id].serial == table[id'].serial ==> id == id'
    ensures |table| <= |CallersOf(table)|
    decreases |table|
  {
    if table == map[] {
    } else {
      var id :| id in table;
      var smaller := table - {id};
      TableSize(smaller);
      forall x | x in CallersOf(table)
        ensures x in CallersOf(smaller) + {table[id].serial}
      {
        var i :| i in table && table[i].serial == x;
        assert i != id ==> i in smaller && smaller[i].serial == x;
      }
      assert CallersOf(table) == CallersOf(smaller) + {table[id].serial};
      assert table.Keys == smaller.Keys + {id};
    }
  }

  /**
   * In every run the table holds no more requests than the limit and the callers that were cancelled unanswered: within
   * the limit, then, as long as only answered callers are cancelled.
   */
  lemma {:induction false} TableBounded(states: seq<System>, events: seq<Event>, n: nat)
    requires IsRun(states, events) && n < |states|
    ensures |states[n].task.inFlight| <= states[n].limit + |Abandoned(states, events, n)|
    ensures (forall i :: 0 <= i < n && events[i].Cancel? ==> states[i].task.AnswersTo(events[i].serial) != [])
            ==> |states[n].task.inFlight| <= states[n].limit
  {
    var s, abandoned := states[n], Abandoned(states, events, n);
    RunAccounted(states, events, n);
    RunInv(states, events, n);
    forall id, id' | id in s.task.inFlight && id' in s.task.inFlight
                     && s.task.inFlight[id].serial == s.task.inFlight[id'].serial
      ensures id == id'
    {
      RegisteredOnce(s.callers.order, s.task, id, id');
    }
    TableSize(s.task.inFlight);
    assert CallersOf(s.task.inFlight) == s.task.Registered();
    SubsetSize(s.task.Registered(), s.callers.permits + abandoned);
    NoneAbandoned(states, events, n);
  }

  lemma {:induction false} NoneAbandoned(states: seq<System>, events: seq<Event>, n: nat)
    requires n < |states| && n <= |events|
    ensures (forall i :: 0 <= i < n && events[i].Cancel? ==> states[i].task.AnswersTo(events[i].serial) != [])
            ==> Abandoned(states, events, n) == {}
    decreases n
  {
    if n == 0 {
    } else {
      NoneAbandoned(states, events, n - 1);
    }
  }

  // ---- When nothing can be overwritten ----

  /** Every request on its way or in flight is one of the last 65535 to be allocated an identifier. */
  ghost predicate Windowed(s: System) {
    && (forall i :: 0 <= i < |s.callers.queue| && s.callers.queue[i].serial in s.callers.order ==>
          s.callers.allocations - s.callers.order[s.callers.queue[i].serial] <= CYCLE)
    && (forall id :: id in s.task.inFlight && s.task.inFlight[id].serial in s.callers.order ==>
          s.callers.allocations - s.callers.order[s.task.inFlight[id].serial] <= CYCLE)
  }

  lemma {:induction false} WindowedSafe(s: System, e: Event)
    requires Inv(s) && Windowed(s)
    ensures !Overwrites(s, e)
  {
    hide IdOf;
    if Overwrites(s, e) {
      var c, order := s.callers.queue[0], s.callers.order;
      var holder := s.task.inFlight[c.transaction].serial;
      assert Sound(order, s.task, c.transaction);
      assert Bears(s.callers, c.serial, c.transaction);
      assert c.serial !in s.task.taken && holder in s.task.taken;
      assert order[c.serial] != order[holder];
      WindowDistinct(order[c.serial], order[holder]);
    }
  }

  /** No request is ever lost while none stays outstanding across 65535 allocations. */
  lemma {:induction false} WindowedNothingLost(states: seq<System>, events: seq<Event>, n: nat)
    requires IsRun(states, events) && n < |states|
    requires forall i :: 0 <= i < n ==> Windowed(states[i])
    ensures Lost(states[n].task) == {}
  {
    hide Lost;
    hide Windowed;
    hide Overwrites;
    forall i | 0 <= i < n
      ensures !Overwrites(states[i], events[i])
    {
      RunInv(states, events, i);
      WindowedSafe(states[i], events[i]);
    }
    NothingLostIff(states, events, n);
  }

  lemma {:induction false} AllocationsGrow(states: seq<System>, events: seq<Event>, i: nat, j: nat)
    requires IsRun(states, events) && i <= j < |states|
    ensures states[i].callers.allocations <= states[j].callers.allocations
    decreases j
  {
    if i < j {
      AllocationsGrow(states, events, i, j - 1);
    }
  }

  /** In particular, a handle that has allocated no more than 65535 identifiers has lost nothing. */
  lemma {:induction false} FirstCycleNothingLost(states: seq<System>, events: seq<Event>, n: nat)
    requires IsRun(states, events) && n < |states| && states[n].callers.allocations <= CYCLE
    ensures Lost(states[n].task) == {}
  {
    forall i | 0 <= i < n
      ensures Windowed(states[i])
    {
      AllocationsGrow(states, events, i, n);
    }
    WindowedNothingLost(states, events, n);
  }
}
