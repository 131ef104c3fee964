/** The background task of the pipelined client in its own form: a table, timers and a bitmap updated in place. */
module BackgroundTask {
  import opened Basics
  import opened TransactionIds
  import opened Messages
  import opened Framings
  import opened PduEncoder
  import opened Pipeline
  import opened PipelineInvariant

  /** The task after failing only the entries of `gone`. */
  ghost function Failed(t: Task, gone: set<Word>): Task {
    t.(inFlight := t.inFlight - gone,
       deadlines := t.deadlines - KeysOf(t, gone),
       answers := Told(t, SerialsOf(t, gone)))
  }

  ghost function KeysOf(t: Task, ids: set<Word>): set<nat> {
    set id | id in ids && id in t.inFlight :: t.inFlight[id].key
  }

  ghost function SerialsOf(t: Task, ids: set<Word>): set<nat> {
    set id | id in ids && id in t.inFlight :: t.inFlight[id].serial
  }

  /** Each entry has its own caller and its own live timer, so removing the timer cannot panic. */
  ghost predicate Removable(t: Task) {
    && (forall id :: id in t.inFlight ==> t.inFlight[id].key in t.deadlines && t.deadlines[t.inFlight[id].key] == id)
    && (forall id, id' :: id in t.inFlight && id' in t.inFlight && t.inFlight[id].serial == t.inFlight[id'].serial
                          ==> id == id')
  }

  /** The invariant of the client gives what the task's own code relies on. */
  lemma {:induction false} SaneRemovable(order: map<nat, nat>, t: Task)
    requires Sane(order, t)
    ensures Removable(t)
  {
    hide IdOf;
    forall id | id in t.inFlight
      ensures t.inFlight[id].key in t.deadlines && t.deadlines[t.inFlight[id].key] == id
    {
      assert Sound(order, t, id);
    }
    forall id, id' | id in t.inFlight && id' in t.inFlight && t.inFlight[id].serial == t.inFlight[id'].serial
      ensures id == id'
    {
      RegisteredOnce(order, t, id, id');
    }
  }

  /** In every state of every run the task's arms find what they rely on, so no timer removal panics. */
  lemma {:induction false} ArmsAllowed(s: System)
    requires Inv(s)
    ensures Removable(s.task) && s.task.nextKey !in s.task.deadlines
    ensures s.callers.queue != [] ==> s.callers.queue[0].serial !in s.task.Registered()
  {
    SaneRemovable(s.callers.order, s.task);
    forall id | id in s.task.inFlight
      ensures s.task.inFlight[id].serial in s.task.taken
    {
      assert Sound(s.callers.order, s.task, id);
    }
  }

  lemma {:induction false} FailedNone(t: Task)
    ensures Failed(t, {}) == t
  {
    var f := Failed(t, {});
    assert f.inFlight == t.inFlight && f.deadlines == t.deadlines;
    assert forall x :: x in t.answers ==> t.AnswersTo(x) + [] == t.answers[x];
    assert f.answers == t.answers;
  }

  lemma {:induction false} FailedEvery(t: Task)
    ensures Failed(t, t.inFlight.Keys) == t.FailAll()
  {
    assert KeysOf(t, t.inFlight.Keys) == t.Keys();
    assert SerialsOf(t, t.inFlight.Keys) == t.Registered();
    assert t.inFlight - t.inFlight.Keys == map[];
    assert Failed(t, t.inFlight.Keys).answers == t.FailAll().answers;
  }

  /** The answers given once the callers of `serials` have been told. */
  ghost function Told(t: Task, serials: set<nat>): map<nat, seq<Reply>> {
    map x | x in t.answers.Keys + serials ::
      t.AnswersTo(x) + (if x in serials then [Err(Desynchronized)] else [])
  }

  lemma {:induction false} ToldNext(t: Task, serials: set<nat>, x: nat)
    requires x !in serials
    ensures var a := Told(t, serials);
            Told(t, serials + {x}) == a[x := (if x in a then a[x] else []) + [Err(Desynchronized)]]
  {
    assert t.AnswersTo(x) + [] == t.AnswersTo(x);
  }

  /** Failing one more entry: its timer and its caller are its own. */
  lemma {:induction false} FailedNext(t: Task, gone: set<Word>, id: Word)
    requires Removable(t) && id in t.inFlight && id !in gone
    ensures var f := Failed(t, gone);
            && id in f.inFlight && f.inFlight[id] == t.inFlight[id] && t.inFlight[id].key in f.deadlines
            && Failed(t, gone + {id})
               == f.(inFlight := f.inFlight - {id}, deadlines := f.deadlines - {t.inFlight[id].key})
                  .Answer(t.inFlight[id].serial, Err(Desynchronized))
  {
    hide KeysOf;
    hide SerialsOf;
    var f, e := Failed(t, gone), t.inFlight[id];
    FailedKeys(t, gone, id);
    ToldNext(t, SerialsOf(t, gone), e.serial);
    hide Told;
    assert t.inFlight - (gone + {id}) == t.inFlight - gone - {id};
    assert t.deadlines - (KeysOf(t, gone) + {e.key}) == t.deadlines - KeysOf(t, gone) - {e.key};
  }

  lemma {:induction false} FailedWithin(t: Task, gone: set<Word>, id: Word)
    requires id in Failed(t, gone).inFlight
    ensures id in t.inFlight && id !in gone
  {
  }

  lemma {:induction false} FailedLeft(t: Task, gone: set<Word>)
    requires gone <= t.inFlight.Keys && Failed(t, gone).inFlight == map[]
    ensures gone == t.inFlight.Keys
  {
    assert forall id :: id in t.inFlight && id !in gone ==> id in t.inFlight - gone;
  }

  lemma {:induction false} FailedKeys(t: Task, gone: set<Word>, id: Word)
    requires Removable(t) && id in t.inFlight && id !in gone
    ensures KeysOf(t, gone + {id}) == KeysOf(t, gone) + {t.inFlight[id].key}
    ensures SerialsOf(t, gone + {id}) == SerialsOf(t, gone) + {t.inFlight[id].serial}
    ensures t.inFlight[id].key !in KeysOf(t, gone) && t.inFlight[id].serial !in SerialsOf(t, gone)
  {
  }

  /** The identifiers whose flag is set. */
  ghost function Flagged(flags: array<bool>): set<Word>
    reads flags
  {
    set id: Word | 0 <= id < 0x1_0000 && id < flags.Length && flags[id]
  }

  class PipelineTask {
    var inFlight: map<Word, Entry>
    var deadlines: map<nat, Word>
    /** One flag for every identifier a request was ever written under. */
    const issued: array<bool>
    var desynchronized: bool
    var nextKey: nat
    var taken: set<nat>
    var written: seq<Command>
    var wire: seq<Bytes>
    /** What has gone down each caller's reply channel. */
    var answers: map<nat, seq<Reply>>

    constructor ()
      ensures Valid() && fresh(issued) && Abstract() == IDLE_TASK
    {
      inFlight, deadlines, desynchronized, nextKey, taken := map[], map[], false, 0, {};
      written, wire, answers := [], [], map[];
      issued := new bool[0x1_0000](_ => false);
    }

    ghost predicate Valid()
      reads this, issued
    {
      issued.Length == 0x1_0000 && Removable(Abstract())
    }

    ghost function Abstract(): Task
      reads this, issued
    {
      Task(inFlight, deadlines, Flagged(issued), desynchronized, nextKey, taken, written, wire, answers)
    }

    /** `reply.send`. */
    method Reply(serial: nat, reply: Reply)
      modifies this`answers
      ensures Abstract() == old(Abstract()).Answer(serial, reply)
    {
      var sent := if serial in answers then answers[serial] else [];
      answers := answers[serial := sent + [reply]];
    }

    /** `DelayQueue::remove`, which panics unless the timer is live. */
    method RemoveTimer(key: nat)
      requires key in deadlines
      modifies this`deadlines
      ensures Abstract() == old(Abstract()).(deadlines := old(deadlines) - {key})
    {
      deadlines := deadlines - {key};
    }

    /** What `fail_all` does with one entry. */
    method FailOne(id: Word)
      requires id in inFlight && inFlight[id].key in deadlines
      modifies this`inFlight, this`deadlines, this`answers
      ensures Abstract() == old(Abstract()).Resolve(id, old(inFlight)[id].key, Err(Error.Desynchronized))
    {
      var entry := inFlight[id];
      inFlight := inFlight - {id};
      RemoveTimer(entry.key);
      Reply(entry.serial, Err(Error.Desynchronized));
    }

    /** `fail_all`: drain the table, in whatever order it comes. */
    method FailAll()
      requires Valid()
      modifies this`inFlight, this`deadlines, this`answers
      ensures Abstract() == old(Abstract()).FailAll()
      ensures Valid()
    {
      hide Failed;
      ghost var start := Abstract();
      ghost var gone: set<Word> := {};
      FailedNone(start);
      while inFlight != map[]
        invariant gone <= start.inFlight.Keys
        invariant Abstract() == Failed(start, gone)
        decreases |inFlight|
      {
        var id :| id in inFlight;
        FailedWithin(start, gone, id);
        FailedNext(start, gone, id);
        FailOne(id);
        gone := gone + {id};
      }
      FailedLeft(start, gone);
      FailedEvery(start);
    }

    /** `desynchronized.store(true)` and `fail_all`. */
    method Desynchronize()
      requires Valid()
      modifies this`desynchronized, this`inFlight, this`deadlines, this`answers
      ensures Valid() && Abstract() == old(Abstract()).Desynchronize()
    {
      desynchronized := true;
      FailAll();
    }

    /** After the write: start a timer and enter the request. */
    method Enter(c: Command, adu: Bytes)
      requires Valid() && c.serial !in Abstract().Registered() && nextKey !in deadlines
      modifies this`deadlines, this`inFlight, this`nextKey, this`written, this`wire
      ensures Abstract() == old(Abstract()).Register(c, adu)
      ensures Valid()
    {
      var key := nextKey;
      deadlines := deadlines[key := c.transaction];
      inFlight := inFlight[c.transaction := Entry(c.serial, key)];
      nextKey, written, wire := key + 1, written + [c], wire + [adu];
      StillRemovable(old(Abstract()), c, Abstract());
    }

    /** The command arm: `broken` is how the transport failed to write, if it did. */
    method OnCommand(c: Command, broken: Option<IoKind>)
      requires Valid() && c.serial !in Abstract().Registered() && nextKey !in deadlines
      modifies this, issued
      ensures Abstract() == old(Abstract()).Take(c, Sending(c, broken))
      ensures Valid()
    {
      hide Sending;
      taken := taken + {c.serial};
      if desynchronized {
        Reply(c.serial, Err(Error.Desynchronized));
        return;
      }
      issued[c.transaction] := true;
      assert Flagged(issued) == old(Flagged(issued)) + {c.transaction};
      var sent, adu := SendRequest(c, broken);
      match sent
      case Ok(_) =>
        Enter(c, adu);
      case Err(error) =>
        Reply(c.serial, Err(error));
        Desynchronize();
    }

    /** `send_request`: encode into a buffer of its own, then write that. */
    method SendRequest(c: Command, broken: Option<IoKind>) returns (sent: Result<()>, adu: Bytes)
      ensures match Sending(c, broken)
              case Ok(bytes) => sent == Ok(()) && adu == bytes
              case Err(error) => sent == Err(error)
    {
      hide EncodeAdu;
      var outgoing := new OutBuffer();
      sent := EncodeAduInto(Tcp, outgoing, Mbap(c.transaction, c.unit), RequestMessage(c.request));
      adu := outgoing.data;
      if sent.Ok? {
        Nothing(EncodeAdu(Tcp, Mbap(c.transaction, c.unit), RequestMessage(c.request)).value);
        if broken.Some? {
          sent := Err(Io(broken.value));
        }
      }
    }

    /** The receive arm. */
    method OnReceive(received: Result<Frame>)
      requires Valid()
      modifies this`desynchronized, this`inFlight, this`deadlines, this`answers
      ensures Abstract() == old(Abstract()).Receive(received)
      ensures Valid()
    {
      match received
      case Err(_) =>
        Desynchronize();
      case Ok(frame) =>
        if frame.transaction in inFlight {
          var entry := inFlight[frame.transaction];
          inFlight := inFlight - {frame.transaction};
          RemoveTimer(entry.key);
          Reply(entry.serial, Ok(frame.response));
        } else if !issued[frame.transaction] {
          Desynchronize();
        }
    }

    /** The timer arm: the queue has already let go of the timer that went off. */
    method OnExpire(key: nat, timeoutDesyncs: bool)
      requires Valid() && key in deadlines
      modifies this`desynchronized, this`inFlight, this`deadlines, this`answers
      ensures Abstract() == old(Abstract()).Expire(key, timeoutDesyncs)
      ensures Valid()
    {
      var id := deadlines[key];
      deadlines := deadlines - {key};
      if id in inFlight {
        var entry := inFlight[id];
        inFlight := inFlight - {id};
        Reply(entry.serial, Err(Timeout(ResponseWait)));
        if timeoutDesyncs {
          Desynchronize();
        }
      }
    }
  }

  /** Entering a request under a new timer keeps every entry's timer its own, even when it replaces another. */
  lemma {:induction false} StillRemovable(t: Task, c: Command, u: Task)
    requires Removable(t) && c.serial !in t.Registered() && t.nextKey !in t.deadlines
    requires u.inFlight == t.inFlight[c.transaction := Entry(c.serial, t.nextKey)]
    requires u.deadlines == t.deadlines[t.nextKey := c.transaction]
    ensures Removable(u)
  {
    forall id | id in t.inFlight
      ensures t.inFlight[id].serial != c.serial
    {
      assert t.inFlight[id].serial in t.Registered();
    }
  }
}
