/** What each arm of the background task does in every run, and what goes over the wire. */
module PipelineSteps {
  import opened Basics
  import opened TransactionIds
  import opened Messages
  import opened Framings
  import opened Pipeline
  import opened PipelineInvariant
  import opened PipelineRuns

  /** This caller holds an entry of the table. */
  ghost predicate Held(t: Task, x: nat) {
    exists id :: id in t.inFlight && t.inFlight[id].serial == x
  }

  /** Nobody but this caller was answered. */
  ghost predicate OnlyAnswered(t: Task, u: Task, x: nat, reply: Reply) {
    u.AnswersTo(x) == [reply] && forall y :: y != x ==> u.AnswersTo(y) == t.AnswersTo(y)
  }

  /** Neither what was written nor what is known to have been issued changed. */
  ghost predicate SameRecords(t: Task, u: Task) {
    && u.issued == t.issued && u.taken == t.taken && u.nextKey == t.nextKey
    && u.written == t.written && u.wire == t.wire
  }

  /** The handle is given up: every entry's caller, and no other, is told so; every entry and its timer is gone. */
  ghost predicate GivenUp(t: Task, u: Task) {
    && u.desynchronized && u.inFlight == map[]
    && (forall key :: key in u.deadlines <==>
          key in t.deadlines && forall id :: id in t.inFlight ==> t.inFlight[id].key != key)
    && (forall key :: key in u.deadlines ==> u.deadlines[key] == t.deadlines[key])
    && (forall x :: Held(t, x) ==> u.AnswersTo(x) == t.AnswersTo(x) + [Err(Desynchronized)])
    && (forall x :: !Held(t, x) ==> u.AnswersTo(x) == t.AnswersTo(x))
  }

  lemma {:induction false} DesynchronizeGivesUp(t: Task)
    ensures GivenUp(t, t.Desynchronize()) && SameRecords(t, t.Desynchronize())
  {
    var u := t.(desynchronized := true);
    forall x
      ensures x in u.Registered() <==> Held(t, x)
      ensures Held(t, x) ==> u.FailAll().AnswersTo(x) == t.AnswersTo(x) + [Err(Desynchronized)]
      ensures !Held(t, x) ==> u.FailAll().AnswersTo(x) == t.AnswersTo(x)
    {
      FailedAnswers(u, x);
      Nothing(t.AnswersTo(x));
    }
    assert forall key :: key in u.Keys() <==> exists id :: id in t.inFlight && t.inFlight[id].key == key;
  }

  // ---- Receiving ----

  /** The j-th event takes a command with this identifier off the channel, on a handle that still works. */
  ghost predicate TakenUnder(states: seq<System>, events: seq<Event>, j: nat, id: Word) {
    && j < |events| && j < |states|
    && events[j].Take? && !states[j].task.desynchronized
    && states[j].callers.queue != [] && states[j].callers.queue[0].transaction == id
  }

  lemma {:induction false} IssuedStep(s: System, e: Event, id: Word)
    requires Enabled(s, e)
    ensures id in TaskStep(s, e).issued <==>
            id in s.task.issued
            || (e.Take? && !s.task.desynchronized && s.callers.queue[0].transaction == id)
  {
    hide Sending;
  }

  /** An identifier is marked as issued if and only if a request was taken under it before. */
  lemma {:induction false} IssuedIff(states: seq<System>, events: seq<Event>, n: nat, id: Word)
    requires IsRun(states, events) && n < |states|
    ensures id in states[n].task.issued <==> exists j :: 0 <= j < n && TakenUnder(states, events, j, id)
    decreases n
  {
    if n == 0 {
    } else {
      IssuedIff(states, events, n - 1, id);
      assert Enabled(states[n - 1], events[n - 1]);
      assert states[n].task == TaskStep(states[n - 1], events[n - 1]);
      IssuedStep(states[n - 1], events[n - 1], id);
      hide TaskStep;
      if TakenUnder(states, events, n - 1, id) {
      } else if id in states[n].task.issued {
        var j :| 0 <= j < n - 1 && TakenUnder(states, events, j, id);
      }
    }
  }

  /** An entry's caller has no answer yet, and its timer runs under its identifier. */
  lemma {:induction false} Unanswered(states: seq<System>, events: seq<Event>, i: nat, id: Word)
    requires IsRun(states, events) && i < |states| && id in states[i].task.inFlight
    ensures var t := states[i].task;
            && t.AnswersTo(t.inFlight[id].serial) == [] && !t.desynchronized
            && t.inFlight[id].key in t.deadlines && t.deadlines[t.inFlight[id].key] == id
  {
    hide IdOf;
    RunInv(states, events, i);
    assert Sound(states[i].callers.order, states[i].task, id);
  }

  /**
   * In every run, a frame whose identifier a caller holds answers that caller with what the frame says, takes out its
   * entry and its timer, and leaves every other entry, timer and answer as it was.
   */
  lemma {:induction false} FrameAnswersHolder(states: seq<System>, events: seq<Event>, i: nat, frame: Frame)
    requires IsRun(states, events) && i < |events| && events[i] == Receive(Ok(frame))
    requires frame.transaction in states[i].task.inFlight
    ensures var t, u, entry := states[i].task, states[i + 1].task, states[i].task.inFlight[frame.transaction];
            && OnlyAnswered(t, u, entry.serial, Ok(frame.response))
            && u.inFlight == t.inFlight - {frame.transaction} && u.deadlines == t.deadlines - {entry.key}
            && !u.desynchronized && SameRecords(t, u)
  {
    Unanswered(states, events, i, frame.transaction);
  }

  /**
   * A frame no one holds: if a request was ever taken under its identifier it changes nothing at all, and otherwise the
   * handle is given up.
   */
  lemma {:induction false} StrayFrame(states: seq<System>, events: seq<Event>, i: nat, frame: Frame)
    requires IsRun(states, events) && i < |events| && events[i] == Receive(Ok(frame))
    requires frame.transaction !in states[i].task.inFlight
    ensures (exists j :: 0 <= j < i && TakenUnder(states, events, j, frame.transaction))
            ==> states[i + 1] == states[i]
    ensures !(exists j :: 0 <= j < i && TakenUnder(states, events, j, frame.transaction))
            ==> GivenUp(states[i].task, states[i + 1].task) && SameRecords(states[i].task, states[i + 1].task)
  {
    IssuedIff(states, events, i, frame.transaction);
    DesynchronizeGivesUp(states[i].task);
    hide GivenUp;
    assert states[i + 1] == Step(states[i], events[i]);
  }

  /** A failed receive gives the handle up, whatever the failure. */
  lemma {:induction false} ReceiveFails(states: seq<System>, events: seq<Event>, i: nat, error: Error)
    requires IsRun(states, events) && i < |events| && events[i] == Receive(Err(error))
    ensures GivenUp(states[i].task, states[i + 1].task) && SameRecords(states[i].task, states[i + 1].task)
  {
    DesynchronizeGivesUp(states[i].task);
    hide GivenUp;
    assert states[i + 1] == Step(states[i], events[i]);
  }

  // ---- Timers ----

  /**
   * A timer that goes off while a caller holds its identifier answers that caller with a timeout. The handle is given
   * up, and the other callers with it, if and only if a timeout desynchronizes the transport; if not, every other
   * entry, timer and answer stays as it was.
   */
  lemma {:induction false} ExpiryAnswersHolder(states: seq<System>, events: seq<Event>, i: nat, key: nat)
    requires IsRun(states, events) && i < |events| && events[i] == Expire(key)
    requires key in states[i].task.deadlines && states[i].task.deadlines[key] in states[i].task.inFlight
    ensures var t, u, id := states[i].task, states[i + 1].task, states[i].task.deadlines[key];
            var x := t.inFlight[id].serial;
            && u.AnswersTo(x) == [Err(Timeout(ResponseWait))] && SameRecords(t, u)
            && (u.desynchronized <==> states[i].timeoutDesyncs)
            && var alone := t.(inFlight := t.inFlight - {id}, deadlines := t.deadlines - {key});
            && (if states[i].timeoutDesyncs
                then GivenUp(alone.(answers := alone.answers[x := [Err(Timeout(ResponseWait))]]), u)
                else u.inFlight == alone.inFlight && u.deadlines == alone.deadlines
                     && OnlyAnswered(t, u, x, Err(Timeout(ResponseWait))))
  {
    var t, id := states[i].task, states[i].task.deadlines[key];
    Unanswered(states, events, i, id);
    var x := t.inFlight[id].serial;
    var alone := t.Resolve(id, key, Err(Timeout(ResponseWait)));
    var late: seq<Reply> := [Err(Timeout(ResponseWait))];
    Nothing(late);
    assert alone.answers == t.answers[x := [Err(Timeout(ResponseWait))]];
    if states[i].timeoutDesyncs {
      DesynchronizeGivesUp(alone);
      NoLongerHeld(states, events, i, id, alone);
    }
  }

  lemma {:induction false} NoLongerHeld(states: seq<System>, events: seq<Event>, i: nat, id: Word, alone: Task)
    requires IsRun(states, events) && i < |states| && id in states[i].task.inFlight
    requires alone.inFlight == states[i].task.inFlight - {id}
    ensures !Held(alone, states[i].task.inFlight[id].serial)
  {
    RunInv(states, events, i);
    var t, order := states[i].task, states[i].callers.order;
    forall other | other in alone.inFlight
      ensures alone.inFlight[other].serial != t.inFlight[id].serial
    {
      if t.inFlight[other].serial == t.inFlight[id].serial {
        RegisteredOnce(order, t, other, id);
      }
    }
  }

  /** A timer whose identifier no one holds is only taken off the queue. */
  lemma {:induction false} StrayExpiry(states: seq<System>, events: seq<Event>, i: nat, key: nat)
    requires IsRun(states, events) && i < |events| && events[i] == Expire(key)
    requires key in states[i].task.deadlines && states[i].task.deadlines[key] !in states[i].task.inFlight
    ensures var t, u := states[i].task, states[i + 1].task;
            && u.inFlight == t.inFlight && u.deadlines == t.deadlines - {key} && u.answers == t.answers
            && u.desynchronized == t.desynchronized && SameRecords(t, u)
  {
    assert states[i + 1] == Step(states[i], events[i]);
  }

  // ---- Commands ----

  /** On a handle that was given up, a request is refused and nothing else happens. */
  lemma {:induction false} CommandRefused(states: seq<System>, events: seq<Event>, i: nat)
    requires IsRun(states, events) && i < |events| && events[i].Take? && states[i].task.desynchronized
    ensures var t, u := states[i].task, states[i + 1].task;
            && OnlyAnswered(t, u, states[i].callers.queue[0].serial, Err(Desynchronized))
            && u.inFlight == map[] && u.deadlines == t.deadlines && u.desynchronized
            && u.wire == t.wire && u.written == t.written && u.issued == t.issued
  {
    hide Sending;
    RunInv(states, events, i);
    assert states[i].callers.queue[0].serial !in states[i].task.taken;
    assert states[i].callers.queue[0].serial !in states[i].task.answers;
    assert states[i + 1] == Step(states[i], events[i]);
  }

  /**
   * On a handle that works, a request that encodes and is written goes over the wire as its ADU under the caller's own
   * identifier and unit, and is entered under that identifier with a timer of its own; no one is answered.
   */
  lemma {:induction false} CommandWritten(states: seq<System>, events: seq<Event>, i: nat, adu: Bytes)
    requires IsRun(states, events) && i < |events| && !states[i].task.desynchronized && events[i] == Take(None)
    requires var c := states[i].callers.queue[0];
             EncodeAdu(Tcp, Mbap(c.transaction, c.unit), RequestMessage(c.request)) == Ok(adu)
    ensures var t, u, c := states[i].task, states[i + 1].task, states[i].callers.queue[0];
            && u.wire == t.wire + [adu] && u.written == t.written + [c]
            && u.inFlight == t.inFlight[c.transaction := Entry(c.serial, t.nextKey)]
            && t.nextKey !in t.deadlines && u.deadlines == t.deadlines[t.nextKey := c.transaction]
            && u.answers == t.answers && !u.desynchronized
  {
    hide EncodeAdu;
    RunInv(states, events, i);
    assert states[i + 1] == Step(states[i], events[i]);
  }

  /** One that does not encode, or is not written, is answered with that failure, and the handle is given up. */
  lemma {:induction false} CommandFails(states: seq<System>, events: seq<Event>, i: nat, error: Error)
    requires IsRun(states, events) && i < |events| && !states[i].task.desynchronized && events[i].Take?
    requires var c := states[i].callers.queue[0];
             var encoding := EncodeAdu(Tcp, Mbap(c.transaction, c.unit), RequestMessage(c.request));
             if encoding.Err? then encoding.error == error
             else events[i].broken.Some? && error == Io(events[i].broken.value)
    ensures var t, u, c := states[i].task, states[i + 1].task, states[i].callers.queue[0];
            && u.AnswersTo(c.serial) == [Err(error)] && u.wire == t.wire && u.written == t.written
            && GivenUp(t.(answers := t.answers[c.serial := [Err(error)]]), u)
  {
    hide EncodeAdu;
    RunInv(states, events, i);
    var t, c := states[i].task, states[i].callers.queue[0];
    assert c.serial !in t.taken && c.serial !in t.answers;
    var v := t.(taken := t.taken + {c.serial}).Issue(c.transaction).Answer(c.serial, Err(error));
    var failed: seq<Reply> := [Err(error)];
    Nothing(failed);
    assert v.answers == t.answers[c.serial := [Err(error)]];
    assert states[i + 1].task == v.Desynchronize();
    DesynchronizeGivesUp(v);
    NotHeldYet(states, events, i);
    var w := t.(answers := t.answers[c.serial := [Err(error)]]);
    assert forall x :: Held(v, x) <==> Held(w, x);
    assert forall x :: v.AnswersTo(x) == w.AnswersTo(x);
  }

  lemma {:induction false} NotHeldYet(states: seq<System>, events: seq<Event>, i: nat)
    requires IsRun(states, events) && i < |states| && states[i].callers.queue != []
    ensures !Held(states[i].task, states[i].callers.queue[0].serial)
  {
    hide IdOf;
    RunInv(states, events, i);
    var s := states[i];
    forall id | id in s.task.inFlight
      ensures s.task.inFlight[id].serial != s.callers.queue[0].serial
    {
      assert Sound(s.callers.order, s.task, id);
    }
  }

  // ---- The channel and the wire ----

  /** What the callers have put on the channel before the n-th state, in order. */
  ghost function Enqueued(states: seq<System>, events: seq<Event>, n: nat): seq<Command>
    requires IsRun(states, events) && n < |states|
    decreases n
  {
    if n == 0 then []
    else
      var before := Enqueued(states, events, n - 1);
      match events[n - 1]
      case Enqueue(x, unit, request) =>
        assert Enabled(states[n - 1], events[n - 1]);
        before + [Command(x, states[n - 1].callers.pending[x], unit, request)]
      case _ => before
  }

  /** Each command bears its caller's own identifier. */
  lemma {:induction false} EnqueuedBears(states: seq<System>, events: seq<Event>, n: nat, k: nat)
    requires IsRun(states, events) && n < |states| && k < |Enqueued(states, events, n)|
    ensures var c := Enqueued(states, events, n)[k]; Bears(states[n].callers, c.serial, c.transaction)
    decreases n
  {
    hide IdOf;
    if n == 0 {
    } else {
      RunStep(states, events, n - 1);
      hide TaskStep;
      hide Step;
      hide Sane;
      RunInv(states, events, n - 1);
      var s, e := states[n - 1], events[n - 1];
      if k < |Enqueued(states, events, n - 1)| {
        EnqueuedBears(states, events, n - 1, k);
        var c := Enqueued(states, events, n)[k];
        OrderKept(s, e, c.serial);
      }
    }
  }

  lemma {:induction false} OrderKept(s: System, e: Event, x: nat)
    requires Inv(s) && Enabled(s, e) && x in s.callers.order
    ensures x in CallersStep(s, e).order && CallersStep(s, e).order[x] == s.callers.order[x]
  {
    hide IdOf;
  }

  /**
   * The channel keeps order and loses nothing: in every run, what was written and then what is queued are, on a handle
   * that works, exactly what the callers put on the channel; on one given up, what was written is where that began.
   */
  lemma {:induction false} ChannelInOrder(states: seq<System>, events: seq<Event>, n: nat)
    requires IsRun(states, events) && n < |states|
    ensures var s := states[n];
            && (!s.task.desynchronized ==> s.task.written + s.callers.queue == Enqueued(states, events, n))
            && s.task.written <= Enqueued(states, events, n)
    decreases n
  {
    if n == 0 {
    } else {
      ChannelInOrder(states, events, n - 1);
      var s, e := states[n - 1], events[n - 1];
      assert Enabled(s, e) && states[n] == Step(s, e);
      WrittenStep(s, e);
      hide TaskStep;
      if e.Enqueue? {
        Assoc(s.task.written, s.callers.queue, [Command(e.serial, s.callers.pending[e.serial], e.unit, e.request)]);
      } else if e.Take? {
        var q := s.callers.queue;
        assert q == [q[0]] + q[1..];
        Assoc(s.task.written, [q[0]], q[1..]);
      }
    }
  }

  /** A step writes at most the command it takes, and does so if the handle works afterwards. */
  lemma {:induction false} WrittenStep(s: System, e: Event)
    requires Enabled(s, e)
    ensures var t, u := s.task, TaskStep(s, e);
            && (t.desynchronized ==> u.desynchronized)
            && (!e.Take? ==> u.written == t.written)
            && (e.Take? ==> u.written == t.written || (!t.desynchronized && u.written == t.written + [s.callers.queue[0]]))
            && (e.Take? && !u.desynchronized ==> u.written == t.written + [s.callers.queue[0]])
  {
    hide Sending;
  }

  /** The bytes on the wire are the ADUs of what was written, each under the identifier and unit of its command. */
  lemma {:induction false} WireCarriesWritten(states: seq<System>, events: seq<Event>, n: nat)
    requires IsRun(states, events) && n < |states|
    ensures var t := states[n].task;
            && |t.wire| == |t.written|
            && forall k :: 0 <= k < |t.wire| ==>
                 var c := t.written[k];
                 EncodeAdu(Tcp, Mbap(c.transaction, c.unit), RequestMessage(c.request)) == Ok(t.wire[k])
    decreases n
  {
    hide EncodeAdu;
    if n == 0 {
    } else {
      WireCarriesWritten(states, events, n - 1);
      var s, e := states[n - 1], events[n - 1];
      assert Enabled(s, e) && states[n] == Step(s, e);
      WireStep(s, e);
      hide TaskStep;
    }
  }

  lemma {:induction false} WireStep(s: System, e: Event)
    requires Enabled(s, e)
    ensures var t, u := s.task, TaskStep(s, e);
            || (u.written == t.written && u.wire == t.wire)
            || (e.Take?
                && var c := s.callers.queue[0];
                && EncodeAdu(Tcp, Mbap(c.transaction, c.unit), RequestMessage(c.request)).Ok?
                && u.written == t.written + [c]
                && u.wire == t.wire + [EncodeAdu(Tcp, Mbap(c.transaction, c.unit), RequestMessage(c.request)).value])
  {
    hide EncodeAdu;
  }

  // ---- What a call returns ----

  /** A caller that was refused: it never gets an identifier. */
  ghost predicate Gone(c: Callers, x: nat) {
    x < c.nextSerial && x !in c.holding && x !in c.passed && x !in c.order
  }

  lemma {:induction false} GoneStays(s: System, e: Event, x: nat)
    requires Inv(s) && Enabled(s, e) && (Gone(s.callers, x) || e == Refuse(x))
    ensures Gone(CallersStep(s, e), x)
  {
    hide IdOf;
    hide Next;
    hide Sane;
  }

  /** A caller's one answer stays its answer. */
  lemma {:induction false} AnswerStays(states: seq<System>, events: seq<Event>, n: nat, x: nat)
    requires IsRun(states, events) && n < |events| && states[n].task.AnswersTo(x) != []
    ensures |states[n].task.AnswersTo(x)| == 1 && states[n + 1].task.AnswersTo(x) == states[n].task.AnswersTo(x)
  {
    hide IdOf;
    hide CallersSane;
    RunInv(states, events, n);
    RunInv(states, events, n + 1);
    assert Enabled(states[n], events[n]) && states[n + 1] == Step(states[n], events[n]);
    AnswersGrow(states[n], events[n], x);
    hide TaskStep;
    assert |states[n + 1].task.AnswersTo(x)| == 1;
  }

  /** Why a call returned what it did: the j-th event is the return of an answer, or a refusal. */
  ghost predicate ReturnedAt(states: seq<System>, events: seq<Event>, n: nat, j: nat, x: nat, reply: Reply)
    requires n < |states|
  {
    && j < n && j < |events| && j < |states|
    && (|| (events[j] == Return(x) && states[n].task.AnswersTo(x) == [reply])
        || (events[j] == Refuse(x) && states[j].task.desynchronized && reply == Err(Desynchronized)
            && Gone(states[n].callers, x)))
  }

  lemma {:induction false} ReturnedStep(s: System, e: Event, x: nat)
    requires Enabled(s, e) && x in CallersStep(s, e).returned
    ensures var reply := CallersStep(s, e).returned[x];
            || (e == Return(x) && s.task.AnswersTo(x) != [] && reply == s.task.AnswersTo(x)[0])
            || (e == Refuse(x) && s.task.desynchronized && reply == Err(Desynchronized))
            || (x in s.callers.returned && reply == s.callers.returned[x])
  {
  }

  lemma {:induction false} ReturnedStays(
    states: seq<System>, events: seq<Event>, n: nat, j: nat, x: nat, reply: Reply)
    requires IsRun(states, events) && n < |events| && ReturnedAt(states, events, n, j, x, reply)
    ensures ReturnedAt(states, events, n + 1, j, x, reply)
  {
    RunStep(states, events, n);
    hide Inv;
    hide Enabled;
    hide TaskStep;
    hide CallersStep;
    hide Step;
    hide Gone;
    if events[j] == Return(x) {
      AnswerStays(states, events, n, x);
    } else {
      RunInv(states, events, n);
      GoneStays(states[n], events[n], x);
    }
  }

  lemma {:induction false} NoneReturnedAtFirst(states: seq<System>, events: seq<Event>)
    requires IsRun(states, events)
    ensures states[0].callers.returned == map[]
  {
  }

  lemma {:induction false} ReturnedNow(states: seq<System>, events: seq<Event>, n: nat, x: nat, reply: Reply)
    requires IsRun(states, events) && n < |events| && n < |states|
    requires var s, e := states[n], events[n];
             || (e == Return(x) && s.task.AnswersTo(x) != [] && reply == s.task.AnswersTo(x)[0])
             || (e == Refuse(x) && s.task.desynchronized && reply == Err(Desynchronized))
    ensures ReturnedAt(states, events, n + 1, n, x, reply)
  {
    RunStep(states, events, n);
    hide Inv;
    hide Enabled;
    hide TaskStep;
    hide CallersStep;
    hide Step;
    hide Gone;
    if events[n] == Return(x) {
      AnswerStays(states, events, n, x);
    } else {
      RunInv(states, events, n);
      GoneStays(states[n], events[n], x);
    }
  }

  lemma {:induction false} ReturnedSince(states: seq<System>, events: seq<Event>, n: nat, x: nat)
    requires IsRun(states, events) && n < |states| && x in states[n].callers.returned
    ensures exists j: nat :: ReturnedAt(states, events, n, j, x, states[n].callers.returned[x])
    decreases n
  {
    hide *;
    RunLength(states, events);
    NoneReturnedAtFirst(states, events);
    if n == 0 {
    } else {
      RunStep(states, events, n - 1);
      var s, e, reply := states[n - 1], events[n - 1], states[n].callers.returned[x];
      ReturnedStep(s, e, x);
      if x in s.callers.returned && reply == s.callers.returned[x] {
        ReturnedSince(states, events, n - 1, x);
        var j: nat :| ReturnedAt(states, events, n - 1, j, x, reply);
        ReturnedStays(states, events, n - 1, j, x, reply);
      } else {
        ReturnedNow(states, events, n - 1, x, reply);
      }
    }
  }

  /**
   * In every run, a call returns the one answer that went down its reply channel; or it was refused, on a handle that had
   * been given up by then, and its request is never taken.
   */
  lemma {:induction false} ReturnedWhy(states: seq<System>, events: seq<Event>, n: nat, x: nat)
    requires IsRun(states, events) && n < |states| && x in states[n].callers.returned
    ensures var reply := states[n].callers.returned[x];
            || (states[n].task.AnswersTo(x) == [reply] && exists j :: 0 <= j < n && events[j] == Return(x))
            || (reply == Err(Desynchronized) && x !in states[n].task.taken
                && exists j :: 0 <= j < n && events[j] == Refuse(x) && states[j].task.desynchronized)
  {
    ReturnedSince(states, events, n, x);
    RunInv(states, events, n);
    var j: nat :| ReturnedAt(states, events, n, j, x, states[n].callers.returned[x]);
  }
}
