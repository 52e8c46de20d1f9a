/** The client of mcp/src/db.ts: frames in, and a table of requests waiting for their answers. */
module IpcClient {
  import opened Numbers
  import opened Sequences
  import opened IpcFrames

  type Id = nat

  datatype Response = Response(id: Id, body: string)

  datatype Reason = TimedOut | SocketClosed | WriteFailed | SocketMissing

  /** The promise handed to a caller.  A promise takes the first outcome it is given. */
  datatype Promise = Unsettled | Resolved(response: Response) | Rejected(reason: Reason)

  function Settle(p: Promise, outcome: Promise): Promise {
    if p.Unsettled? then outcome else p
  }

  type Promises = map<Id, Promise>

  /** No promise was taken back, and none that had an outcome got another. */
  ghost predicate Kept(before: Promises, after: Promises) {
    forall id :: id in before ==> id in after && (before[id].Unsettled? || after[id] == before[id])
  }

  /** One frame: an answer to a waiting request resolves it; anything else is dropped. */
  function Received(promises: Promises, message: Option<Response>): Promises {
    if message.Some? && message.value.id in promises && promises[message.value.id].Unsettled?
    then promises[message.value.id := Resolved(message.value)]
    else promises
  }

  function ReceivedAll(promises: Promises, bodies: seq<seq<Byte>>, decode: seq<Byte> -> Option<Response>): Promises {
    if bodies == [] then promises
    else ReceivedAll(Received(promises, decode(bodies[0])), bodies[1..], decode)
  }

  ghost function Waiting(promises: Promises): set<Id> {
    set id | id in promises && promises[id].Unsettled?
  }

  lemma {:induction false} ReceivedKeeps(
    promises: Promises, bodies: seq<seq<Byte>>, decode: seq<Byte> -> Option<Response>)
    ensures Kept(promises, ReceivedAll(promises, bodies, decode))
    ensures ReceivedAll(promises, bodies, decode).Keys == promises.Keys
    decreases |bodies|
  {
    if bodies != [] {
      var next := Received(promises, decode(bodies[0]));
      ReceivedKeeps(next, bodies[1..], decode);
      assert next.Keys == promises.Keys;
    }
  }

  /** The first of these frames that answers a request. */
  function FirstAnswer(bodies: seq<seq<Byte>>, decode: seq<Byte> -> Option<Response>, id: Id): Option<Response> {
    if bodies == [] then None
    else
      var msg := decode(bodies[0]);
      if msg.Some? && msg.value.id == id then msg else FirstAnswer(bodies[1..], decode, id)
  }

  /** A waiting request takes the first frame that names it; malformed and unknown frames change nothing. */
  lemma {:induction false} FirstAnswerWins(
    promises: Promises, bodies: seq<seq<Byte>>, decode: seq<Byte> -> Option<Response>, id: Id)
    requires id in promises
    ensures
      var after := ReceivedAll(promises, bodies, decode);
      var answer := FirstAnswer(bodies, decode, id);
      && id in after
      && after[id] == if answer.Some? then Settle(promises[id], Resolved(answer.value)) else promises[id]
    decreases |bodies|
  {
    if bodies != [] {
      FirstAnswerWins(Received(promises, decode(bodies[0])), bodies[1..], decode, id);
    }
  }

  datatype State = State(connected: bool, buffer: seq<Byte>, promises: Promises)

  /** What can happen to the client. */
  datatype Event =
    | Connected
    | Data(chunk: seq<Byte>)
    | Requested(id: Id)
    | Timeout(id: Id)
    | WriteError(id: Id)
    | Closed

  /** A request has a fresh id, only running timers fire, and only issued requests were written. */
  predicate Enabled(s: State, e: Event) {
    match e
    case Requested(id) => id !in s.promises
    case Timeout(id) => id in s.promises && s.promises[id].Unsettled?
    case WriteError(id) => id in s.promises
    case _ => true
  }

  function RejectWaiting(promises: Promises): Promises {
    map id | id in promises :: Settle(promises[id], Rejected(SocketClosed))
  }

  function Step(decode: seq<Byte> -> Option<Response>, s: State, e: Event): State
    requires Enabled(s, e)
  {
    match e
    case Connected => s.(connected := true)
    case Data(chunk) =>
      var p := Parse(s.buffer + chunk);
      s.(buffer := p.rest, promises := ReceivedAll(s.promises, p.bodies, decode))
    case Requested(id) =>
      s.(promises := s.promises[id := if s.connected then Unsettled else Rejected(SocketMissing)])
    case Timeout(id) => s.(promises := s.promises[id := Rejected(TimedOut)])
    case WriteError(id) => s.(promises := s.promises[id := Settle(s.promises[id], Rejected(WriteFailed))])
    case Closed => s.(connected := false, promises := RejectWaiting(s.promises))
  }

  predicate IsRun(decode: seq<Byte> -> Option<Response>, s: State, events: seq<Event>)
    decreases |events|
  {
    events == [] || (Enabled(s, events[0]) && IsRun(decode, Step(decode, s, events[0]), events[1..]))
  }

  function After(decode: seq<Byte> -> Option<Response>, s: State, events: seq<Event>): State
    requires IsRun(decode, s, events)
    decreases |events|
  {
    if events == [] then s else After(decode, Step(decode, s, events[0]), events[1..])
  }

  /** How often a run gives a request an outcome it did not have before. */
  function Outcomes(decode: seq<Byte> -> Option<Response>, s: State, events: seq<Event>, id: Id): nat
    requires IsRun(decode, s, events)
    decreases |events|
  {
    if events == [] then 0
    else
      var next := Step(decode, s, events[0]);
      var settled := id in next.promises && !next.promises[id].Unsettled?
                     && (id !in s.promises || s.promises[id] != next.promises[id]);
      (if settled then 1 else 0) + Outcomes(decode, next, events[1..], id)
  }

  lemma StepKeeps(decode: seq<Byte> -> Option<Response>, s: State, e: Event)
    requires Enabled(s, e)
    ensures Kept(s.promises, Step(decode, s, e).promises)
  {
    if e.Data? {
      ReceivedKeeps(s.promises, Parse(s.buffer + e.chunk).bodies, decode);
    }
  }

  predicate Has(s: State, id: Id) {
    id in s.promises && !s.promises[id].Unsettled?
  }

  /** Over every run of answers, timeouts, write errors and closes, a request gets exactly one outcome if it
      ends up with one, and none otherwise; an outcome it already had stays. */
  lemma {:induction false} SettledOnce(decode: seq<Byte> -> Option<Response>, s: State, events: seq<Event>, id: Id)
    requires IsRun(decode, s, events)
    ensures Outcomes(decode, s, events, id)
         == if Has(After(decode, s, events), id) && !Has(s, id) then 1 else 0
    ensures Has(s, id) ==>
              Has(After(decode, s, events), id) && After(decode, s, events).promises[id] == s.promises[id]
    ensures id in s.promises ==> id in After(decode, s, events).promises
    decreases |events|
  {
    if events != [] {
      StepKeeps(decode, s, events[0]);
      SettledOnce(decode, Step(decode, s, events[0]), events[1..], id);
    }
  }

  /** When the socket has closed, no caller is left waiting. */
  lemma {:induction false} CloseLeavesNoneWaiting(
    decode: seq<Byte> -> Option<Response>, s: State, events: seq<Event>, id: Id)
    requires IsRun(decode, s, events) && id in s.promises && Closed in events
    ensures Has(After(decode, s, events), id)
    decreases |events|
  {
    var next := Step(decode, s, events[0]);
    StepKeeps(decode, s, events[0]);
    if events[0] == Closed {
      SettledOnce(decode, next, events[1..], id);
    } else {
      CloseLeavesNoneWaiting(decode, next, events[1..], id);
    }
  }

  /** One turn of the decoding loop. */
  lemma FrontFrame(promises: Promises, buf: seq<Byte>, decode: seq<Byte> -> Option<Response>)
    requires Whole(buf)
    ensures
      var len := FromBe(buf);
      && Parse(buf).rest == Parse(buf[4 + len..]).rest
      && ReceivedAll(promises, Parse(buf).bodies, decode)
         == ReceivedAll(Received(promises, decode(buf[4..4 + len])), Parse(buf[4 + len..]).bodies, decode)
  {
    var len := FromBe(buf);
    assert ([buf[4..4 + len]] + Parse(buf[4 + len..]).bodies)[1..] == Parse(buf[4 + len..]).bodies;
  }

  class Client {
    const decode: seq<Byte> -> Option<Response>
    var connected: bool
    var buffer: seq<Byte>
    var pending: set<Id>
    var timers: set<Id>
    var promises: Promises

    /** The table holds exactly the requests without an outcome, each with its timer running, and the buffer
        holds no whole frame. */
    ghost predicate Valid()
      reads this
    {
      pending == timers == Waiting(promises) && !Whole(buffer)
    }

    ghost function Current(): State
      reads this
    {
      State(connected, buffer, promises)
    }

    constructor (decode: seq<Byte> -> Option<Response>)
      ensures Valid() && Current() == State(false, [], map[]) && this.decode == decode
    {
      this.decode := decode;
      connected, buffer, pending, timers, promises := false, [], {}, {}, map[];
    }

    /** Hands a decoded frame to the request it answers; `None` is a frame that is not valid JSON. */
    method Deliver(msg: Option<Response>)
      requires pending == timers == Waiting(promises)
      modifies this`pending, this`timers, this`promises
      ensures pending == timers == Waiting(promises)
      ensures promises == Received(old(promises), msg)
    {
      if msg.Some? && msg.value.id in pending {
        timers := timers - {msg.value.id};
        pending := pending - {msg.value.id};
        promises := promises[msg.value.id := Settle(promises[msg.value.id], Resolved(msg.value))];
      }
    }

    /** Takes the frame at the front off the buffer. */
    method TakeFrame(len: nat)
      requires pending == timers == Waiting(promises) && Whole(buffer) && len == FromBe(buffer)
      modifies this`buffer, this`pending, this`timers, this`promises
      ensures pending == timers == Waiting(promises) && buffer == old(buffer)[4 + len..]
      ensures Parse(buffer).rest == Parse(old(buffer)).rest
      ensures ReceivedAll(promises, Parse(buffer).bodies, decode)
           == ReceivedAll(old(promises), Parse(old(buffer)).bodies, decode)
    {
      var payload := buffer[4..4 + len];
      FrontFrame(promises, buffer, decode);
      buffer := buffer[4 + len..];
      Deliver(decode(payload));
    }

    /** Takes whole frames off the buffer and hands each to the request it answers. */
    method OnData(chunk: seq<Byte>)
      requires Valid()
      modifies this`buffer, this`pending, this`timers, this`promises
      ensures Valid() && Current() == Step(decode, old(Current()), Data(chunk))
    {
      ghost var all := Parse(buffer + chunk);
      buffer := buffer + chunk;
      while |buffer| >= 4
        invariant pending == timers == Waiting(promises)
        invariant Parse(buffer).rest == all.rest
        invariant ReceivedAll(promises, Parse(buffer).bodies, decode) == ReceivedAll(old(promises), all.bodies, decode)
        decreases |buffer|
      {
        var len := FromBe(buffer);
        if |buffer| < 4 + len {
          return;
        }
        TakeFrame(len);
      }
    }

    /** Issues a request under a fresh id; without a socket it is rejected on the spot. */
    method Request(id: Id)
      requires Valid() && id !in promises
      modifies this`pending, this`timers, this`promises
      ensures Valid() && Current() == Step(decode, old(Current()), Requested(id))
    {
      timers := timers + {id};
      pending := pending + {id};
      promises := promises[id := Unsettled];
      if !connected {
        timers := timers - {id};
        pending := pending - {id};
        promises := promises[id := Settle(promises[id], Rejected(SocketMissing))];
      }
    }

    /** A timer that has not been cleared fires. */
    method OnTimeout(id: Id)
      requires Valid() && id in timers
      modifies this`pending, this`timers, this`promises
      ensures Enabled(old(Current()), Timeout(id))
      ensures Valid() && Current() == Step(decode, old(Current()), Timeout(id))
    {
      timers := timers - {id};
      pending := pending - {id};
      promises := promises[id := Settle(promises[id], Rejected(TimedOut))];
    }

    /** A write reports an error, perhaps long after its request got an outcome otherwise. */
    method OnWriteError(id: Id)
      requires Valid() && id in promises
      modifies this`pending, this`timers, this`promises
      ensures Valid() && Current() == Step(decode, old(Current()), WriteError(id))
    {
      timers := timers - {id};
      pending := pending - {id};
      promises := promises[id := Settle(promises[id], Rejected(WriteFailed))];
    }

    method OnConnect()
      requires Valid()
      modifies this`connected
      ensures Valid() && Current() == Step(decode, old(Current()), Connected)
    {
      connected := true;
    }

    /** The socket closes: every waiting request is rejected, in any order; the buffer is left as it is. */
    method OnClose()
      requires Valid()
      modifies this`connected, this`pending, this`timers, this`promises
      ensures Valid() && pending == {} && Current() == Step(decode, old(Current()), Closed)
    {
      connected := false;
      while pending != {}
        invariant !connected && pending == timers == Waiting(promises) && promises.Keys == old(promises).Keys
        invariant forall id :: id in promises && id in pending ==> old(promises)[id] == Unsettled
        invariant forall id :: id in promises && id !in pending ==>
          promises[id] == Settle(old(promises)[id], Rejected(SocketClosed))
      {
        var id :| id in pending;
        timers := timers - {id};
        promises := promises[id := Settle(promises[id], Rejected(SocketClosed))];
        pending := pending - {id};
      }
      assert promises == RejectWaiting(old(promises));
    }
  }
}
