/** Where the outcomes of the requests of mcp/src/db.ts come from, over whole runs of the client. */
module IpcRuns {
  import opened Numbers
  import opened Sequences
  import opened IpcFrames
  import opened IpcClient

  // ----- runs in pieces -----

  lemma {:induction false} RunSplits(decode: seq<Byte> -> Option<Response>, s: State, events: seq<Event>, k: nat)
    requires IsRun(decode, s, events) && k <= |events|
    ensures IsRun(decode, s, events[..k])
    ensures IsRun(decode, After(decode, s, events[..k]), events[k..])
    ensures After(decode, s, events) == After(decode, After(decode, s, events[..k]), events[k..])
    decreases k
  {
    if k == 0 {
      assert events[0..] == events;
    } else {
      RunSplits(decode, Step(decode, s, events[0]), events[1..], k - 1);
      assert events[..k][1..] == events[1..][..k - 1] && events[1..][k - 1..] == events[k..];
    }
  }

  // ----- answers -----

  /** The bytes that a run receives. */
  function Streamed(events: seq<Event>): seq<Byte> {
    if events == [] then []
    else (if events[0].Data? then events[0].chunk else []) + Streamed(events[1..])
  }

  /** The event may give the request an outcome other than an answer. */
  predicate Interferes(e: Event, id: Id) {
    e == Timeout(id) || e == WriteError(id) || e == Closed
  }

  lemma {:induction false} AnswerInPieces(
    a: seq<seq<Byte>>, b: seq<seq<Byte>>, decode: seq<Byte> -> Option<Response>, id: Id)
    ensures FirstAnswer(a + b, decode, id)
         == if FirstAnswer(a, decode, id).Some? then FirstAnswer(a, decode, id) else FirstAnswer(b, decode, id)
    decreases |a|
  {
    if a == [] {
      Empties(b);
    } else {
      assert (a + b)[1..] == a[1..] + b;
      AnswerInPieces(a[1..], b, decode, id);
    }
  }

  /** The promise of a request without an outcome once these frames have come. */
  function Answered(bodies: seq<seq<Byte>>, decode: seq<Byte> -> Option<Response>, id: Id): Promise {
    var a := FirstAnswer(bodies, decode, id);
    if a.Some? then Resolved(a.value) else Unsettled
  }

  /** The bytes of one chunk, and of those behind it. */
  lemma DataFirst(
    decode: seq<Byte> -> Option<Response>, promises: Promises, buf: seq<Byte>, chunk: seq<Byte>, more: seq<Byte>,
    id: Id)
    requires id in promises && promises[id].Unsettled?
    ensures
      var p := Parse(buf + chunk);
      var after := ReceivedAll(promises, p.bodies, decode);
      && id in after && after[id] == Answered(p.bodies, decode, id)
      && Answered(Parse(buf + (chunk + more)).bodies, decode, id)
         == if after[id].Unsettled? then Answered(Parse(p.rest + more).bodies, decode, id) else after[id]
  {
    var p := Parse(buf + chunk);
    FirstAnswerWins(promises, p.bodies, decode, id);
    Assoc(buf, chunk, more);
    ParseInPieces(buf + chunk, more);
    AnswerInPieces(p.bodies, Parse(p.rest + more).bodies, decode, id);
  }

  /** Without a timeout, a write error or a close, a waiting request ends with the first frame that names it among
      all those received, however they were cut, and goes on waiting if there is none. */
  lemma {:induction false} AnswerArrives(
    decode: seq<Byte> -> Option<Response>, s: State, events: seq<Event>, id: Id)
    requires IsRun(decode, s, events) && id in s.promises && s.promises[id].Unsettled? && !Whole(s.buffer)
    requires forall i :: 0 <= i < |events| ==> !Interferes(events[i], id)
    ensures id in After(decode, s, events).promises
    ensures After(decode, s, events).promises[id]
         == Answered(Parse(s.buffer + Streamed(events)).bodies, decode, id)
    decreases |events|
  {
    if events == [] {
      Empties(s.buffer);
    } else {
      var e, next := events[0], Step(decode, s, events[0]);
      var more := Streamed(events[1..]);
      if e.Data? {
        DataFirst(decode, s.promises, s.buffer, e.chunk, more, id);
      } else {
        Empties(more);
      }
      if id in next.promises && next.promises[id].Unsettled? {
        AnswerArrives(decode, next, events[1..], id);
      } else {
        SettledOnce(decode, next, events[1..], id);
      }
    }
  }

  /** A request made while connected, with the answer among the frames that come, gets that answer. */
  lemma RequestIsAnswered(
    decode: seq<Byte> -> Option<Response>, s: State, id: Id, events: seq<Event>, bodies: seq<seq<Byte>>,
    tail: seq<Byte>)
    requires s.connected && s.buffer == [] && id !in s.promises && IsRun(decode, s, [Requested(id)] + events)
    requires forall i :: 0 <= i < |events| ==> !Interferes(events[i], id)
    requires Streamed(events) == Stream(bodies) + tail && !Whole(tail)
    requires forall i :: 0 <= i < |bodies| ==> |bodies[i]| < 0x1_0000_0000
    ensures id in After(decode, s, [Requested(id)] + events).promises
    ensures After(decode, s, [Requested(id)] + events).promises[id] == Answered(bodies, decode, id)
  {
    var all := [Requested(id)] + events;
    assert all[1..] == events;
    AnswerArrives(decode, Step(decode, s, Requested(id)), events, id);
    StreamParses(bodies, tail);
    Empties(Streamed(events));
    Empties(bodies);
  }

  // ----- causes -----

  /** What must happen, and in which state, for a request to get an outcome. */
  predicate Causes(decode: seq<Byte> -> Option<Response>, s: State, e: Event, id: Id, outcome: Promise) {
    match outcome
    case Unsettled => false
    case Resolved(r) => e.Data? && FirstAnswer(Parse(s.buffer + e.chunk).bodies, decode, id) == Some(r)
    case Rejected(TimedOut) => e == Timeout(id)
    case Rejected(WriteFailed) => e == WriteError(id)
    case Rejected(SocketClosed) => e == Closed
    case Rejected(SocketMissing) => e == Requested(id) && !s.connected
  }

  lemma StepCauses(decode: seq<Byte> -> Option<Response>, s: State, e: Event, id: Id)
    requires Enabled(s, e) && !Has(s, id) && Has(Step(decode, s, e), id)
    ensures Causes(decode, s, e, id, Step(decode, s, e).promises[id])
  {
    if e.Data? {
      var bodies := Parse(s.buffer + e.chunk).bodies;
      ReceivedKeeps(s.promises, bodies, decode);
      FirstAnswerWins(s.promises, bodies, decode, id);
    }
  }

  /** Every outcome was given by an event of the run that causes just that outcome, to a request without one. */
  lemma {:induction false} OutcomeHasCause(
    decode: seq<Byte> -> Option<Response>, s: State, events: seq<Event>, id: Id) returns (k: nat)
    requires IsRun(decode, s, events) && !Has(s, id) && Has(After(decode, s, events), id)
    ensures k < |events| && IsRun(decode, s, events[..k])
    ensures
      var before := After(decode, s, events[..k]);
      !Has(before, id) && Causes(decode, before, events[k], id, After(decode, s, events).promises[id])
    decreases |events|
  {
    var next := Step(decode, s, events[0]);
    if Has(next, id) {
      k := 0;
      StepCauses(decode, s, events[0], id);
      SettledOnce(decode, next, events[1..], id);
    } else {
      k := OutcomeHasCause(decode, next, events[1..], id);
      assert events[..k + 1][1..] == events[1..][..k];
      k := k + 1;
    }
  }

  /** A timer that fires and a write error leave no request without an outcome. */
  lemma {:induction false} FailureSettles(
    decode: seq<Byte> -> Option<Response>, s: State, events: seq<Event>, id: Id, k: nat)
    requires IsRun(decode, s, events) && k < |events| && (events[k] == Timeout(id) || events[k] == WriteError(id))
    ensures Has(After(decode, s, events), id)
    decreases k
  {
    var next := Step(decode, s, events[0]);
    if k == 0 {
      SettledOnce(decode, next, events[1..], id);
    } else {
      FailureSettles(decode, next, events[1..], id, k - 1);
    }
  }

  // ----- without a socket -----

  /** Whether there is a socket after these events: the last of them to open or close one decides. */
  predicate Online(connected: bool, events: seq<Event>) {
    if events == [] then connected
    else
      match events[|events| - 1]
      case Connected => true
      case Closed => false
      case _ => Online(connected, events[..|events| - 1])
  }

  lemma {:induction false} OnlineIs(decode: seq<Byte> -> Option<Response>, s: State, events: seq<Event>)
    requires IsRun(decode, s, events)
    ensures After(decode, s, events).connected == Online(s.connected, events)
    decreases |events|
  {
    if events != [] {
      var n := |events| - 1;
      RunSplits(decode, s, events, n);
      OnlineIs(decode, s, events[..n]);
      var before := After(decode, s, events[..n]);
      assert events[n..] == [events[n]] && events[n..][1..] == [];
      assert After(decode, before, events[n..]) == Step(decode, before, events[n]);
    }
  }

  /** A request fails for want of a socket if and only if it was made while there was none. */
  lemma MissingIff(decode: seq<Byte> -> Option<Response>, s: State, events: seq<Event>, id: Id)
    requires IsRun(decode, s, events) && id !in s.promises
    ensures
      var after := After(decode, s, events).promises;
      (id in after && after[id] == Rejected(SocketMissing))
      <==> exists k :: 0 <= k < |events| && events[k] == Requested(id) && !Online(s.connected, events[..k])
  {
    var after := After(decode, s, events).promises;
    if id in after && after[id] == Rejected(SocketMissing) {
      var k := OutcomeHasCause(decode, s, events, id);
      OnlineIs(decode, s, events[..k]);
    }
    if k :| 0 <= k < |events| && events[k] == Requested(id) && !Online(s.connected, events[..k]) {
      RunSplits(decode, s, events, k);
      OnlineIs(decode, s, events[..k]);
      var before := After(decode, s, events[..k]);
      assert events[k..][0] == Requested(id);
      SettledOnce(decode, Step(decode, before, Requested(id)), events[k..][1..], id);
    }
  }
}
