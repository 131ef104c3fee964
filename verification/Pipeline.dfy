/**
 * The pipelined client as a state machine: callers that hold permits and allocate identifiers, the command channel, and
 * the one background task (src/client/pipeline.rs).
 */
module Pipeline {
  import opened Basics
  import opened TransactionIds
  import opened Messages
  import opened Framings
  import Pdu

  type Reply = Result<Pdu.ResponsePdu>

  /** A response frame; only its transaction identifier is compared. */
  datatype Frame = Frame(transaction: Word, unit: Byte, response: Pdu.ResponsePdu)

  /** What a caller puts on the channel. `serial` stands for its reply channel. */
  datatype Command = Command(serial: nat, transaction: Word, unit: Byte, request: Pdu.RequestPdu)

  /** `send_request`: the request's ADU under its identifier and unit, if it encodes and the write does not fail. */
  function Sending(c: Command, broken: Option<IoKind>): Result<Bytes> {
    var adu :- EncodeAdu(Tcp, Mbap(c.transaction, c.unit), RequestMessage(c.request));
    if broken.Some? then Err(Io(broken.value)) else Ok(adu)
  }

  /** A registered request: who awaits it, and which timer runs for it. */
  datatype Entry = Entry(serial: nat, key: nat)

  /** The background task, with what it has taken, written and answered so far. */
  datatype Task = Task(
    inFlight: map<Word, Entry>,
    deadlines: map<nat, Word>,
    issued: set<Word>,
    desynchronized: bool,
    nextKey: nat,
    taken: set<nat>,
    written: seq<Command>,
    wire: seq<Bytes>,
    answers: map<nat, seq<Reply>>)
  {
    function AnswersTo(serial: nat): seq<Reply> {
      if serial in answers then answers[serial] else []
    }

    /** The callers whose requests are registered. */
    function Registered(): set<nat> {
      set id | id in inFlight :: inFlight[id].serial
    }

    /** The timers of the registered requests. */
    function Keys(): set<nat> {
      set id | id in inFlight :: inFlight[id].key
    }

    function Answer(serial: nat, reply: Reply): Task {
      this.(answers := answers[serial := AnswersTo(serial) + [reply]])
    }

    /** `fail_all`. */
    function FailAll(): Task {
      this.(inFlight := map[],
            deadlines := deadlines - Keys(),
            answers := map serial | serial in answers.Keys + Registered() ::
              AnswersTo(serial) + (if serial in Registered() then [Err(Desynchronized)] else []))
    }

    function Desynchronize(): Task {
      this.(desynchronized := true).FailAll()
    }

    /** The command arm of `run`. */
    function Take(c: Command, sent: Result<Bytes>): Task {
      var t := this.(taken := taken + {c.serial});
      if desynchronized then t.Answer(c.serial, Err(Error.Desynchronized))
      else if sent.Err? then t.Issue(c.transaction).Answer(c.serial, Err(sent.error)).Desynchronize()
      else t.Issue(c.transaction).Register(c, sent.value)
    }

    function Issue(id: Word): Task {
      this.(issued := issued + {id})
    }

    /** After the write: start a timer, then enter the request, replacing what is there. */
    function Register(c: Command, adu: Bytes): Task {
      this.(deadlines := deadlines[nextKey := c.transaction],
            inFlight := inFlight[c.transaction := Entry(c.serial, nextKey)],
            nextKey := nextKey + 1,
            written := written + [c],
            wire := wire + [adu])
    }

    /** Take an entry out of the table together with this timer, and answer its caller. */
    function Resolve(id: Word, key: nat, reply: Reply): Task
      requires id in inFlight
    {
      this.(inFlight := inFlight - {id}, deadlines := deadlines - {key}).Answer(inFlight[id].serial, reply)
    }

    /** The receive arm: a match is answered, a late reply is dropped, an identifier never issued is a violation. */
    function Receive(received: Result<Frame>): Task {
      match received
      case Err(_) => Desynchronize()
      case Ok(frame) =>
        if frame.transaction in inFlight then
          Resolve(frame.transaction, inFlight[frame.transaction].key, Ok(frame.response))
        else if frame.transaction in issued then this
        else Desynchronize()
    }

    /** The timer arm. */
    function Expire(key: nat, timeoutDesyncs: bool): Task
      requires key in deadlines
    {
      var id := deadlines[key];
      if id !in inFlight then this.(deadlines := deadlines - {key})
      else
        var t := Resolve(id, key, Err(Timeout(ResponseWait)));
        if timeoutDesyncs then t.Desynchronize() else t
    }
  }

  /**
   * The callers of the handle, its counter and its channel. `permits` are the callers that hold a semaphore permit,
   * from acquiring it until they return or are cancelled; `order` records which allocation its identifier was, and
   * `returned` what its call returned.
   */
  datatype Callers = Callers(
    nextSerial: nat,
    permits: set<nat>,
    holding: set<nat>,
    passed: set<nat>,
    pending: map<nat, Word>,
    awaiting: set<nat>,
    next: Word,
    allocations: nat,
    order: map<nat, nat>,
    queue: seq<Command>,
    returned: map<nat, Reply>)
  {
    function Acquire(): Callers {
      this.(nextSerial := nextSerial + 1, permits := permits + {nextSerial}, holding := holding + {nextSerial})
    }

    function Pass(x: nat): Callers {
      this.(holding := holding - {x}, passed := passed + {x})
    }

    function Refuse(x: nat): Callers {
      this.(permits := permits - {x}, holding := holding - {x}, returned := returned[x := Err(Desynchronized)])
    }

    /** Under the lock: read the counter and advance it. */
    function Allocate(x: nat): Callers {
      this.(passed := passed - {x}, pending := pending[x := next], next := Next(next),
            allocations := allocations + 1, order := order[x := allocations])
    }

    function Enqueue(x: nat, unit: Byte, request: Pdu.RequestPdu): Callers
      requires x in pending
    {
      this.(pending := pending - {x}, queue := queue + [Command(x, pending[x], unit, request)],
            awaiting := awaiting + {x})
    }

    function Dequeue(): Callers
      requires queue != []
    {
      this.(queue := queue[1..])
    }

    /** A caller has its answer, or has dropped the call: either way its permit is free. */
    function Leave(x: nat): Callers {
      this.(permits := permits - {x}, awaiting := awaiting - {x})
    }

    function Return(x: nat, reply: Reply): Callers {
      Leave(x).(returned := returned[x := reply])
    }
  }

  datatype System = System(limit: nat, timeoutDesyncs: bool, callers: Callers, task: Task)

  datatype Event =
    | Acquire
    | Pass(serial: nat)
    | Refuse(serial: nat)
    | Allocate(serial: nat)
    | Enqueue(serial: nat, unit: Byte, request: Pdu.RequestPdu)
    | Take(broken: Option<IoKind>)
    | Receive(received: Result<Frame>)
    | Expire(key: nat)
    | Return(serial: nat)
    | Cancel(serial: nat)
  {
    /** Whether one of the arms of the task's `select!` runs. */
    predicate OfTask() {
      Take? || Receive? || Expire?
    }
  }

  predicate Enabled(s: System, e: Event) {
    match e
    case Acquire => |s.callers.permits| < s.limit
    case Pass(x) => x in s.callers.holding && !s.task.desynchronized
    case Refuse(x) => x in s.callers.holding && s.task.desynchronized
    case Allocate(x) => x in s.callers.passed
    case Enqueue(x, _, _) => x in s.callers.pending
    case Take(_) => s.callers.queue != []
    case Receive(_) => true
    case Expire(key) => key in s.task.deadlines
    case Return(x) => x in s.callers.awaiting && s.task.AnswersTo(x) != []
    case Cancel(x) => x in s.callers.awaiting
  }

  function CallersStep(s: System, e: Event): Callers
    requires Enabled(s, e)
  {
    match e
    case Acquire => s.callers.Acquire()
    case Pass(x) => s.callers.Pass(x)
    case Refuse(x) => s.callers.Refuse(x)
    case Allocate(x) => s.callers.Allocate(x)
    case Enqueue(x, unit, request) => s.callers.Enqueue(x, unit, request)
    case Take(_) => s.callers.Dequeue()
    case Return(x) => s.callers.Return(x, s.task.AnswersTo(x)[0])
    case Cancel(x) => s.callers.Leave(x)
    case _ => s.callers
  }

  function TaskStep(s: System, e: Event): Task
    requires Enabled(s, e)
  {
    match e
    case Take(broken) => s.task.Take(s.callers.queue[0], Sending(s.callers.queue[0], broken))
    case Receive(received) => s.task.Receive(received)
    case Expire(key) => s.task.Expire(key, s.timeoutDesyncs)
    case _ => s.task
  }

  function Step(s: System, e: Event): System
    requires Enabled(s, e)
  {
    System(s.limit, s.timeoutDesyncs, CallersStep(s, e), TaskStep(s, e))
  }

  const IDLE_CALLERS := Callers(0, {}, {}, {}, map[], {}, 1, 0, map[], [], map[])
  const IDLE_TASK := Task(map[], map[], {}, false, 0, {}, [], [], map[])

  function Fresh(limit: nat, timeoutDesyncs: bool): System {
    System(limit, timeoutDesyncs, IDLE_CALLERS, IDLE_TASK)
  }

  /** States and the events between them, from a new handle on. */
  ghost predicate IsRun(states: seq<System>, events: seq<Event>) {
    && |states| == |events| + 1
    && states[0] == Fresh(states[0].limit, states[0].timeoutDesyncs)
    && forall i :: 0 <= i < |events| ==> Enabled(states[i], events[i]) && states[i + 1] == Step(states[i], events[i])
  }

  /** A successful write replaces the table entry of a request still in flight under the same identifier. */
  predicate Overwrites(s: System, e: Event) {
    && Enabled(s, e)
    && e.Take? && Sending(s.callers.queue[0], e.broken).Ok? && !s.task.desynchronized
    && s.callers.queue[0].transaction in s.task.inFlight
  }

  /** A request of this caller's was written under this identifier. */
  ghost predicate Wrote(written: seq<Command>, serial: nat, id: Word) {
    exists i :: 0 <= i < |written| && written[i].serial == serial && written[i].transaction == id
  }

  /** The requests the task has taken that are neither registered nor answered. */
  function Lost(t: Task): set<nat> {
    set x | x in t.taken && x !in t.Registered() && t.AnswersTo(x) == []
  }
}
