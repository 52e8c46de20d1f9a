/** The subscriber registry of livebus/src/subscriber.rs, run sequentially. */
module Subscribers {
  import opened SetFacts
  import opened Topics

  /** Capacity of a subscriber's queue, and the lag at which it is evicted. */
  const WINDOW: nat := 50

  /** An event someone dispatched, or the notice that a subscriber was evicted as the `count`-th. */
  datatype Event = Plain(name: string, body: string) | Degraded(id: nat, count: nat)

  function Topic(e: Event): string {
    match e case Plain(name, _) => name case Degraded(_, _) => "system.degraded_mode"
  }

  datatype Outcome = Sent | Full | Closed

  /** One attempt to put a matching event on a subscriber's queue; `guarded` ones never evict. */
  datatype Send = Send(event: Event, outcome: Outcome, guarded: bool)

  /**
   * A registered subscriber.  `consumed`, `seen` and `log` are history: what the transport took off the
   * queue, every event dispatched since registration with the patterns then in force, and every attempt
   * to send.
   */
  datatype Sub = Sub(
    patterns: seq<string>,
    queue: seq<Event>,
    lag: nat,
    delivered: nat,
    closed: bool,
    consumed: seq<Event>,
    seen: seq<(seq<string>, Event)>,
    log: seq<Send>)

  // ----- what a history says -----

  ghost function Events(seen: seq<(seq<string>, Event)>): seq<Event> {
    if seen == [] then [] else Events(seen[..|seen| - 1]) + [seen[|seen| - 1].1]
  }

  /** The events of `seen` that matched the patterns in force. */
  ghost function Wanted(seen: seq<(seq<string>, Event)>): seq<Event> {
    if seen == [] then []
    else
      var (patterns, e) := seen[|seen| - 1];
      Wanted(seen[..|seen| - 1]) + if MatchesAny(patterns, Topic(e)) then [e] else []
  }

  ghost function Offered(log: seq<Send>): seq<Event> {
    if log == [] then [] else Offered(log[..|log| - 1]) + [log[|log| - 1].event]
  }

  ghost function Accepted(log: seq<Send>): seq<Event> {
    if log == [] then []
    else Accepted(log[..|log| - 1]) + if log[|log| - 1].outcome.Sent? then [log[|log| - 1].event] else []
  }

  /** Failed sends since the last success. */
  ghost function Lag(log: seq<Send>): nat {
    if log == [] then 0
    else match log[|log| - 1].outcome
      case Sent => 0
      case Full => Lag(log[..|log| - 1]) + 1
      case Closed => Lag(log[..|log| - 1])
  }

  ghost function Fulls(log: seq<Send>): nat {
    if log == [] then 0 else Fulls(log[..|log| - 1]) + if log[|log| - 1].outcome.Full? then 1 else 0
  }

  /** Sends of real dispatches, and among them those that found the queue full or the channel closed. */
  ghost function Real(log: seq<Send>): nat {
    if log == [] then 0 else Real(log[..|log| - 1]) + if log[|log| - 1].guarded then 0 else 1
  }

  ghost function RealFulls(log: seq<Send>): nat {
    if log == [] then 0
    else RealFulls(log[..|log| - 1]) + if log[|log| - 1].outcome.Full? && !log[|log| - 1].guarded then 1 else 0
  }

  ghost function RealCloseds(log: seq<Send>): nat {
    if log == [] then 0
    else RealCloseds(log[..|log| - 1]) + if log[|log| - 1].outcome.Closed? && !log[|log| - 1].guarded then 1 else 0
  }

  /** Failed sends of real dispatches since the last success. */
  ghost function RealLag(log: seq<Send>): nat {
    if log == [] then 0
    else match log[|log| - 1].outcome
      case Sent => 0
      case Full => RealLag(log[..|log| - 1]) + if log[|log| - 1].guarded then 0 else 1
      case Closed => RealLag(log[..|log| - 1])
  }

  lemma LogSnoc(log: seq<Send>, x: Send)
    ensures Offered(log + [x]) == Offered(log) + [x.event]
    ensures Accepted(log + [x]) == Accepted(log) + if x.outcome.Sent? then [x.event] else []
  {
    assert (log + [x])[..|log|] == log;
  }

  lemma CountsSnoc(log: seq<Send>, x: Send)
    ensures Lag(log + [x]) == if x.outcome.Sent? then 0 else if x.outcome.Full? then Lag(log) + 1 else Lag(log)
    ensures Fulls(log + [x]) == Fulls(log) + if x.outcome.Full? then 1 else 0
    ensures RealFulls(log + [x]) == RealFulls(log) + if x.outcome.Full? && !x.guarded then 1 else 0
    ensures RealCloseds(log + [x]) == RealCloseds(log) + if x.outcome.Closed? && !x.guarded then 1 else 0
    ensures RealLag(log + [x]) == if x.outcome.Sent? then 0
                                  else if x.outcome.Full? && !x.guarded then RealLag(log) + 1 else RealLag(log)
  {
    assert (log + [x])[..|log|] == log;
  }

  lemma SeenSnoc(seen: seq<(seq<string>, Event)>, patterns: seq<string>, e: Event)
    ensures Events(seen + [(patterns, e)]) == Events(seen) + [e]
    ensures Wanted(seen + [(patterns, e)]) == Wanted(seen) + if MatchesAny(patterns, Topic(e)) then [e] else []
  {
    assert (seen + [(patterns, e)])[..|seen|] == seen;
  }

  // ----- what holds of a subscriber -----

  /** The queue holds what was accepted and not yet consumed, out of what matched. */
  ghost predicate QueueSound(s: Sub) {
    && Offered(s.log) == Wanted(s.seen)
    && s.consumed + s.queue == Accepted(s.log)
    && s.delivered == |Accepted(s.log)|
    && |s.queue| <= WINDOW
  }

  /** The lag counter counts failures since the last success; with nothing consumed they are all there were. */
  ghost predicate LagSound(s: Sub) {
    && s.lag == Lag(s.log) && RealLag(s.log) <= s.lag
    && (s.consumed == [] ==> Fulls(s.log) == s.lag && RealFulls(s.log) == RealLag(s.log) && (s.lag > 0 ==>
        |s.queue| == WINDOW))
  }

  /** The queue and the counters are what the history says they are. */
  ghost predicate Sound(s: Sub) {
    QueueSound(s) && LagSound(s)
  }

  /** What holds of a subscriber that is still registered once a dispatch is over. */
  ghost predicate Tolerated(s: Sub) {
    RealLag(s.log) < WINDOW && RealCloseds(s.log) == 0
  }

  /** A matching event is tried on the queue; the lag counter counts failures since the last success. */
  ghost function Offer(s: Sub, e: Event, guarded: bool): Sub {
    var t := s.(seen := s.seen + [(s.patterns, e)]);
    if !MatchesAny(s.patterns, Topic(e)) then t
    else if s.closed then t.(log := s.log + [Send(e, Closed, guarded)])
    else if |s.queue| < WINDOW then
      t.(queue := s.queue + [e], lag := 0, delivered := s.delivered + 1, log := s.log + [Send(e, Sent, guarded)])
    else t.(lag := s.lag + 1, log := s.log + [Send(e, Full, guarded)])
  }

  /** A real dispatch of `e` condemns the subscriber. */
  ghost predicate Condemned(s: Sub, e: Event) {
    MatchesAny(s.patterns, Topic(e)) && (s.closed || (|s.queue| >= WINDOW && s.lag + 1 >= WINDOW))
  }

  lemma OfferQueueSound(s: Sub, e: Event, guarded: bool)
    requires QueueSound(s)
    ensures QueueSound(Offer(s, e, guarded))
  {
    SeenSnoc(s.seen, s.patterns, e);
    if MatchesAny(s.patterns, Topic(e)) {
      var outcome := if s.closed then Closed else if |s.queue| < WINDOW then Sent else Full;
      LogSnoc(s.log, Send(e, outcome, guarded));
      QueuePush(s.consumed, s.queue, e);
    }
  }

  lemma QueuePush(consumed: seq<Event>, queue: seq<Event>, e: Event)
    ensures consumed + (queue + [e]) == consumed + queue + [e]
    ensures |consumed + queue + [e]| == |consumed + queue| + 1
  {
  }

  lemma OfferLagSound(s: Sub, e: Event, guarded: bool)
    requires LagSound(s) && |s.queue| <= WINDOW
    ensures LagSound(Offer(s, e, guarded))
    ensures Tolerated(s) && (guarded || !Condemned(s, e)) ==> Tolerated(Offer(s, e, guarded))
  {
    if MatchesAny(s.patterns, Topic(e)) {
      var outcome := if s.closed then Closed else if |s.queue| < WINDOW then Sent else Full;
      CountsSnoc(s.log, Send(e, outcome, guarded));
    }
  }

  /** The lag of a log is the failures since its last success. */
  lemma {:induction false} LagIs(log: seq<Send>) returns (m: nat)
    ensures m <= |log| && Lag(log) == Fulls(log[m..])
    ensures (m > 0 ==> log[m - 1].outcome.Sent?) && forall k :: m <= k < |log| ==> !log[k].outcome.Sent?
  {
    m := |log|;
    if log != [] && !log[|log| - 1].outcome.Sent? {
      var n := |log| - 1;
      m := LagIs(log[..n]);
      assert log[..n][m..] + [log[n]] == log[m..];
      CountsSnoc(log[..n][m..], log[n]);
    }
  }

  /** Who a real dispatch condemns: of those that want the event, the closed ones and those whose last fifty attempts
      or more found the queue full. */
  lemma CondemnedIff(s: Sub, e: Event)
    requires LagSound(s)
    ensures Condemned(s, e)
       <==> MatchesAny(s.patterns, Topic(e)) && (s.closed || Lag(Offer(s, e, false).log) >= 50)
    ensures Condemned(s, e) ==> s.closed || |s.queue| >= 50
  {
    if MatchesAny(s.patterns, Topic(e)) {
      var outcome := if s.closed then Closed else if |s.queue| < WINDOW then Sent else Full;
      CountsSnoc(s.log, Send(e, outcome, false));
    }
  }

  lemma OfferSound(s: Sub, e: Event, guarded: bool)
    requires Sound(s)
    ensures Sound(Offer(s, e, guarded))
    ensures Tolerated(s) && (guarded || !Condemned(s, e)) ==> Tolerated(Offer(s, e, guarded))
  {
    OfferQueueSound(s, e, guarded);
    OfferLagSound(s, e, guarded);
  }

  // ----- what subscribers can rely on -----

  /** `a` is what is left of `b` after leaving out some elements. */
  ghost predicate Subsequence(a: seq<Event>, b: seq<Event>)
    decreases |b|
  {
    if b == [] then a == []
    else
      Subsequence(a, b[..|b| - 1]) ||
      (a != [] && a[|a| - 1] == b[|b| - 1] && Subsequence(a[..|a| - 1], b[..|b| - 1]))
  }

  lemma {:induction false} AcceptedInOrder(log: seq<Send>)
    ensures Subsequence(Accepted(log), Offered(log))
    ensures |Accepted(log)| <= |Offered(log)|
    ensures (forall i :: 0 <= i < |log| ==> log[i].outcome.Sent?) ==> Accepted(log) == Offered(log)
  {
    if log != [] {
      var init, x := log[..|log| - 1], log[|log| - 1];
      AcceptedInOrder(init);
      assert Offered(log)[..|Offered(log)| - 1] == Offered(init);
      if x.outcome.Sent? {
        assert Accepted(log)[..|Accepted(log)| - 1] == Accepted(init);
      } else {
        assert Accepted(log) == Accepted(init);
      }
    }
  }

  /**
   * What a subscriber has consumed or still has queued is an in-order selection of the matching events
   * dispatched since it registered, and all of them if every send succeeded.
   */
  lemma DeliveredInOrder(s: Sub)
    requires Sound(s)
    ensures Subsequence(s.consumed + s.queue, Wanted(s.seen)) && s.delivered == |s.consumed + s.queue|
    ensures (forall i :: 0 <= i < |s.log| ==> s.log[i].outcome.Sent?) ==> s.consumed + s.queue == Wanted(s.seen)
  {
    AcceptedInOrder(s.log);
  }

  lemma {:induction false} RealSplits(log: seq<Send>)
    ensures Real(log) <= |Accepted(log)| + RealFulls(log) + RealCloseds(log)
  {
    if log != [] {
      RealSplits(log[..|log| - 1]);
    }
  }

  /** A subscriber that never drains its queue does not survive its hundredth matching dispatch. */
  lemma UndrainedIsEvicted(s: Sub)
    requires Sound(s) && Tolerated(s) && s.consumed == []
    ensures Real(s.log) <= 99
  {
    RealSplits(s.log);
    assert s.consumed + s.queue == s.queue;
  }

  // ----- the registry -----

  ghost function OfferAll(subs: map<nat, Sub>, e: Event, guarded: bool): map<nat, Sub> {
    map id | id in subs :: Offer(subs[id], e, guarded)
  }

  ghost predicate IsSuffix(a: seq<Event>, b: seq<Event>) {
    |a| <= |b| && a == b[|b| - |a|..]
  }

  /** The subscriber is sound and has seen exactly the last events dispatched. */
  ghost predicate Current(s: Sub, dispatched: seq<Event>) {
    Sound(s) && IsSuffix(Events(s.seen), dispatched)
  }

  ghost predicate AllCurrent(subs: map<nat, Sub>, dispatched: seq<Event>) {
    forall id :: id in subs ==> Current(subs[id], dispatched)
  }

  ghost predicate AllTolerated(subs: map<nat, Sub>) {
    forall id :: id in subs ==> Tolerated(subs[id])
  }

  lemma SuffixSnoc(a: seq<Event>, b: seq<Event>, e: Event)
    requires IsSuffix(a, b)
    ensures IsSuffix(a + [e], b + [e])
  {
  }

  lemma OfferCurrent(s: Sub, dispatched: seq<Event>, e: Event, guarded: bool)
    requires Current(s, dispatched)
    ensures Current(Offer(s, e, guarded), dispatched + [e])
    ensures Tolerated(s) && (guarded || !Condemned(s, e)) ==> Tolerated(Offer(s, e, guarded))
  {
    OfferSound(s, e, guarded);
    SeenSnoc(s.seen, s.patterns, e);
    SuffixSnoc(Events(s.seen), dispatched, e);
  }

  lemma OfferAllCurrent(subs: map<nat, Sub>, dispatched: seq<Event>, e: Event, guarded: bool)
    requires AllCurrent(subs, dispatched)
    ensures AllCurrent(OfferAll(subs, e, guarded), dispatched + [e])
    ensures forall id :: id in subs && Tolerated(subs[id]) && (guarded || !Condemned(subs[id], e)) ==>
      Tolerated(OfferAll(subs, e, guarded)[id])
  {
    forall id | id in subs
      ensures Current(Offer(subs[id], e, guarded), dispatched + [e])
      ensures Tolerated(subs[id]) && (guarded || !Condemned(subs[id], e)) ==> Tolerated(Offer(subs[id], e, guarded))
    {
      OfferCurrent(subs[id], dispatched, e, guarded);
    }
  }

  /** The registry after one eviction, whose notice is offered to the others. */
  ghost function Without(subs: map<nat, Sub>, id: nat, count: nat): map<nat, Sub> {
    if id in subs then OfferAll(subs - {id}, Degraded(id, count + 1), true) else subs
  }

  /** The registry after evicting `order` one by one. */
  ghost function EvictedAll(subs: map<nat, Sub>, order: seq<nat>, count: nat): map<nat, Sub>
    decreases |order|
  {
    if order == [] then subs
    else EvictedAll(Without(subs, order[0], count), order[1..], count + if order[0] in subs then 1 else 0)
  }

  /** The notices those evictions dispatch. */
  ghost function Notices(subs: map<nat, Sub>, order: seq<nat>, count: nat): seq<Event>
    decreases |order|
  {
    if order == [] then []
    else if order[0] in subs then
      [Degraded(order[0], count + 1)] + Notices(Without(subs, order[0], count), order[1..], count + 1)
    else Notices(subs, order[1..], count)
  }

  lemma WithoutCurrent(subs: map<nat, Sub>, id: nat, count: nat, dispatched: seq<Event>)
    requires AllCurrent(subs, dispatched)
    ensures id in subs ==> AllCurrent(Without(subs, id, count), dispatched + [Degraded(id, count + 1)])
    ensures Without(subs, id, count).Keys == subs.Keys - {id}
    ensures forall i :: i in subs && i != id && Tolerated(subs[i]) ==> Tolerated(Without(subs, id, count)[i])
  {
    if id in subs {
      OfferAllCurrent(subs - {id}, dispatched, Degraded(id, count + 1), true);
    }
  }

  /** An eviction keeps the registry sound for everyone else. */
  lemma EvictionKeepsOthers(subs: map<nat, Sub>, id: nat, count: nat, dispatched: seq<Event>)
    requires AllCurrent(subs, dispatched) && AllTolerated(subs) && id in subs
    ensures AllCurrent(Without(subs, id, count), dispatched + [Degraded(id, count + 1)])
    ensures AllTolerated(Without(subs, id, count)) && Without(subs, id, count).Keys == subs.Keys - {id}
  {
    WithoutCurrent(subs, id, count, dispatched);
  }

  /** Part way through the evictions: those in `rest` are still to be evicted, all others are tolerated. */
  ghost predicate Pending(subs: map<nat, Sub>, dispatched: seq<Event>, rest: seq<nat>) {
    && Distinct(rest) && (forall id :: id in rest ==> id in subs)
    && AllCurrent(subs, dispatched)
    && forall id :: id in subs && id !in rest ==> Tolerated(subs[id])
  }

  lemma DistinctTail(rest: seq<nat>)
    requires Distinct(rest) && rest != []
    ensures Distinct(rest[1..]) && rest[0] !in rest[1..]
    ensures forall id :: id in rest <==> id == rest[0] || id in rest[1..]
  {
    assert rest == [rest[0]] + rest[1..];
  }

  lemma PendingStep(subs: map<nat, Sub>, dispatched: seq<Event>, rest: seq<nat>, count: nat)
    requires Pending(subs, dispatched, rest) && rest != []
    ensures rest[0] in subs
    ensures Pending(Without(subs, rest[0], count), dispatched + [Degraded(rest[0], count + 1)], rest[1..])
  {
    DistinctTail(rest);
    WithoutCurrent(subs, rest[0], count, dispatched);
  }

  /** After the evictions everyone left is current and tolerated, and one notice was sent for each. */
  lemma {:induction false} EvictionsSettle(subs: map<nat, Sub>, dispatched: seq<Event>, order: seq<nat>, count: nat)
    requires Pending(subs, dispatched, order)
    ensures AllCurrent(EvictedAll(subs, order, count), dispatched + Notices(subs, order, count))
    ensures AllTolerated(EvictedAll(subs, order, count)) && |Notices(subs, order, count)| == |order|
    decreases |order|
  {
    if order == [] {
      assert dispatched + Notices(subs, order, count) == dispatched;
    } else {
      PendingStep(subs, dispatched, order, count);
      var notice := Degraded(order[0], count + 1);
      var rest := Notices(Without(subs, order[0], count), order[1..], count + 1);
      EvictionsSettle(Without(subs, order[0], count), dispatched + [notice], order[1..], count + 1);
      assert dispatched + [notice] + rest == dispatched + ([notice] + rest);
    }
  }

  lemma {:induction false} EvictedKeys(subs: map<nat, Sub>, order: seq<nat>, count: nat)
    ensures EvictedAll(subs, order, count).Keys == subs.Keys - (set id | id in order)
    decreases |order|
  {
    if order != [] {
      var rest := Without(subs, order[0], count);
      EvictedKeys(rest, order[1..], count + if order[0] in subs then 1 else 0);
      assert rest.Keys == subs.Keys - {order[0]};
      assert order == [order[0]] + order[1..];
    }
  }

  /** Notices were put behind what was queued, and nothing else happened to the queue. */
  ghost predicate GrownBy(queue: seq<Event>, now: seq<Event>) {
    queue <= now && forall i :: |queue| <= i < |now| ==> now[i].Degraded?
  }

  lemma WithoutGrows(subs: map<nat, Sub>, victim: nat, count: nat, id: nat)
    requires id in Without(subs, victim, count)
    ensures id in subs && GrownBy(subs[id].queue, Without(subs, victim, count)[id].queue)
  {
  }

  /** A subscriber that does not want notices is left as it is, but for having seen them. */
  lemma {:induction false} EvictedQuiet(subs: map<nat, Sub>, order: seq<nat>, count: nat, id: nat)
    requires id in EvictedAll(subs, order, count)
    ensures id in subs
    ensures !MatchesAny(subs[id].patterns, "system.degraded_mode") ==>
              EvictedAll(subs, order, count)[id] == subs[id].(seen := EvictedAll(subs, order, count)[id].seen)
    decreases |order|
  {
    if order != [] {
      EvictedQuiet(Without(subs, order[0], count), order[1..], count + if order[0] in subs then 1 else 0, id);
    }
  }

  lemma {:induction false} EvictedGrows(subs: map<nat, Sub>, order: seq<nat>, count: nat, id: nat)
    requires id in EvictedAll(subs, order, count)
    ensures id in subs && GrownBy(subs[id].queue, EvictedAll(subs, order, count)[id].queue)
    decreases |order|
  {
    if order != [] {
      EvictedGrows(Without(subs, order[0], count), order[1..], count + if order[0] in subs then 1 else 0, id);
      WithoutGrows(subs, order[0], count, id);
    }
  }

  /** The queue once an event was tried: with the event at its end if the subscriber wants it, is open and has fewer
      than fifty in its queue. */
  ghost function QueuedWith(s: Sub, e: Event): seq<Event> {
    if MatchesAny(s.patterns, Topic(e)) && !s.closed && |s.queue| < 50 then s.queue + [e] else s.queue
  }

  /** Who stays after a dispatch, and with what in the queue. */
  ghost predicate Dispatched(before: map<nat, Sub>, e: Event, after: map<nat, Sub>) {
    && (forall id :: id in after ==> id in before)
    && forall id :: id in before ==>
         var s := before[id];
         && (id !in after
             <==> MatchesAny(s.patterns, Topic(e)) && (s.closed || Lag(Offer(s, e, false).log) >= 50))
         && (!s.closed && |s.queue| < 50 ==> id in after)
         && (id in after ==> GrownBy(QueuedWith(s, e), after[id].queue))
         && (id in after && !MatchesAny(s.patterns, "system.degraded_mode") ==>
               after[id] == Offer(s, e, false).(seen := after[id].seen))
  }

  lemma DispatchedIs(before: map<nat, Sub>, e: Event, order: seq<nat>, count: nat)
    requires (forall id :: id in before ==> LagSound(before[id])) && Picked(before, {}, e, false, order)
    ensures Dispatched(before, e, EvictedAll(OfferAll(before, e, false), order, count))
  {
    var tried := OfferAll(before, e, false);
    var after := EvictedAll(tried, order, count);
    EvictedKeys(tried, order, count);
    assert tried.Keys == before.Keys;
    forall id | id in before
      ensures id !in after <==> Condemned(before[id], e)
      ensures id in after ==> GrownBy(QueuedWith(before[id], e), after[id].queue)
      ensures id in after && !MatchesAny(before[id].patterns, "system.degraded_mode") ==>
        after[id] == Offer(before[id], e, false).(seen := after[id].seen)
    {
      assert id in order <==> Condemned(before[id], e);
      if id in after {
        EvictedGrows(tried, order, count, id);
        EvictedQuiet(tried, order, count, id);
      }
    }
    forall id | id in before
      ensures id !in after <==>
        MatchesAny(before[id].patterns, Topic(e)) && (before[id].closed || Lag(Offer(before[id], e, false).log) >= 50)
      ensures !before[id].closed && |before[id].queue| < 50 ==> id in after
    {
      CondemnedIff(before[id], e);
    }
  }

  /** A run of dispatches, with the registry before, between and after them. */
  ghost predicate DispatchRun(registries: seq<map<nat, Sub>>, events: seq<Event>) {
    && |registries| == |events| + 1
    && forall k :: 0 <= k < |events| ==> Dispatched(registries[k], events[k], registries[k + 1])
  }

  /** A subscriber that has been offered `n` matching events since it registered and never drained its queue. */
  ghost predicate Undrained(s: Sub, patterns: seq<string>, n: nat) {
    && s.patterns == patterns && !s.closed && |s.queue| == (if n < 50 then n else 50)
    && s.lag == Lag(s.log) == if n < 50 then 0 else n - 50
  }

  lemma UndrainedNext(s: Sub, patterns: seq<string>, n: nat, e: Event)
    requires Undrained(s, patterns, n) && MatchesAny(patterns, Topic(e))
    ensures Undrained(Offer(s, e, false), patterns, n + 1)
  {
    CountsSnoc(s.log, Send(e, if |s.queue| < WINDOW then Sent else Full, false));
  }

  /** Registered, and never drained, up to the ninety-ninth of the events it wants. */
  ghost predicate Surviving(subs: map<nat, Sub>, id: nat, patterns: seq<string>, n: nat) {
    (id in subs <==> n <= 99) && (id in subs ==> Undrained(subs[id], patterns, n))
  }

  lemma SurvivingNext(
    before: map<nat, Sub>, e: Event, after: map<nat, Sub>, id: nat, patterns: seq<string>, n: nat)
    requires Dispatched(before, e, after) && Surviving(before, id, patterns, n)
    requires MatchesAny(patterns, Topic(e)) && !MatchesAny(patterns, "system.degraded_mode")
    ensures Surviving(after, id, patterns, n + 1)
  {
    if id in before {
      UndrainedNext(before[id], patterns, n, e);
    }
  }

  ghost predicate Wanting(patterns: seq<string>, events: seq<Event>) {
    && !MatchesAny(patterns, "system.degraded_mode")
    && forall i :: 0 <= i < |events| ==> MatchesAny(patterns, Topic(events[i]))
  }

  lemma SurvivingAt(registries: seq<map<nat, Sub>>, events: seq<Event>, id: nat, patterns: seq<string>, k: nat)
    requires DispatchRun(registries, events) && Wanting(patterns, events) && k < |events|
    requires Surviving(registries[k], id, patterns, k)
    ensures Surviving(registries[k + 1], id, patterns, k + 1)
  {
    SurvivingNext(registries[k], events[k], registries[k + 1], id, patterns, k);
  }

  /** A new subscriber that never drains its queue, wants every event and no notices, stays registered over
      ninety-nine dispatches and is evicted by the hundredth. */
  lemma {:induction false} UndrainedSurvives(
    registries: seq<map<nat, Sub>>, events: seq<Event>, id: nat, patterns: seq<string>, k: nat)
    requires DispatchRun(registries, events) && Wanting(patterns, events) && k <= |events|
    requires Surviving(registries[0], id, patterns, 0)
    ensures Surviving(registries[k], id, patterns, k)
  {
    if k > 0 {
      UndrainedSurvives(registries, events, id, patterns, k - 1);
      SurvivingAt(registries, events, id, patterns, k - 1);
    }
  }

  lemma TriedPending(subs: map<nat, Sub>, dispatched: seq<Event>, e: Event, order: seq<nat>)
    requires AllCurrent(subs, dispatched) && AllTolerated(subs) && Picked(subs, {}, e, false, order)
    ensures Pending(OfferAll(subs, e, false), dispatched + [e], order)
  {
    OfferAllCurrent(subs, dispatched, e, false);
  }

  /** One attempt: skips a subscriber that does not want the event, else tries its queue. */
  method TrySend(s: Sub, e: Event, guarded: bool) returns (t: Sub, condemned: bool)
    ensures t == Offer(s, e, guarded) && condemned == (!guarded && Condemned(s, e))
  {
    t, condemned := s.(seen := s.seen + [(s.patterns, e)]), false;
    var wants := TopicMatchesAny(s.patterns, Topic(e));
    if !wants {
      return;
    }
    if s.closed {
      t := t.(log := s.log + [Send(e, Closed, guarded)]);
      condemned := !guarded;
    } else if |s.queue| < WINDOW {
      t := t.(queue := s.queue + [e], lag := 0, delivered := s.delivered + 1, log := s.log + [Send(e, Sent, guarded)]);
    } else {
      t := t.(lag := s.lag + 1, log := s.log + [Send(e, Full, guarded)]);
      condemned := !guarded && s.lag + 1 >= WINDOW;
    }
  }

  /** Part way through a dispatch: those in `rest` have not been tried yet. */
  ghost predicate Tried(before: map<nat, Sub>, now: map<nat, Sub>, rest: set<nat>, e: Event, guarded: bool) {
    && now.Keys == before.Keys && rest <= now.Keys
    && forall id :: id in now ==> now[id] == if id in rest then before[id] else Offer(before[id], e, guarded)
  }

  /** Those condemned among the ones tried. */
  ghost predicate Picked(before: map<nat, Sub>, rest: set<nat>, e: Event, guarded: bool, condemned: seq<nat>) {
    && Distinct(condemned)
    && forall id :: id in condemned <==> !guarded && id in before && id !in rest && Condemned(before[id], e)
  }

  lemma TriedStep(before: map<nat, Sub>, now: map<nat, Sub>, rest: set<nat>, e: Event, guarded: bool, id: nat, t: Sub)
    requires Tried(before, now, rest, e, guarded) && id in rest && t == Offer(now[id], e, guarded)
    ensures Tried(before, now[id := t], rest - {id}, e, guarded)
  {
  }

  lemma PickedStep(
    before: map<nat, Sub>, rest: set<nat>, e: Event, guarded: bool, condemned: seq<nat>, id: nat, doomed: bool)
    requires Picked(before, rest, e, guarded, condemned) && id in rest && id in before
    requires doomed == (!guarded && Condemned(before[id], e))
    ensures Picked(before, rest - {id}, e, guarded, if doomed then condemned + [id] else condemned)
  {
  }

  lemma TriedAll(before: map<nat, Sub>, now: map<nat, Sub>, e: Event, guarded: bool)
    requires Tried(before, now, {}, e, guarded)
    ensures now == OfferAll(before, e, guarded)
  {
  }

  function Drained(s: Sub): Sub
    requires s.queue != []
  {
    s.(queue := s.queue[1..], consumed := s.consumed + [s.queue[0]])
  }

  lemma DrainedCurrent(s: Sub, dispatched: seq<Event>)
    requires Current(s, dispatched) && s.queue != []
    ensures Current(Drained(s), dispatched) && (Tolerated(s) ==> Tolerated(Drained(s)))
  {
    assert s.consumed + [s.queue[0]] + s.queue[1..] == s.consumed + s.queue;
  }

  class Manager {
    var subs: map<nat, Sub>
    var nextId: nat
    var evicted: nat
    /** The bus counters this registry moves: events published and drops recorded. */
    var published: nat
    var dropped: nat
    ghost var dispatched: seq<Event>

    ghost predicate Valid()
      reads this
    {
      && (forall id :: id in subs ==> id < nextId)
      && AllCurrent(subs, dispatched) && AllTolerated(subs)
    }

    constructor ()
      ensures Valid() && subs == map[] && nextId == 1 && evicted == 0 && dispatched == []
    {
      subs, nextId, evicted, published, dropped, dispatched := map[], 1, 0, 0, 0, [];
    }

    method PatternsValid(patterns: seq<string>) returns (ok: bool)
      ensures ok == forall i :: 0 <= i < |patterns| ==> ValidTopic(patterns[i])
    {
      for i := 0 to |patterns|
        invariant forall j :: 0 <= j < i ==> ValidTopic(patterns[j])
      {
        ok := ValidateTopic(patterns[i]);
        if !ok {
          return false;
        }
      }
      return true;
    }

    /** Registers a subscriber under a fresh id, or refuses its patterns. */
    method Register(patterns: seq<string>) returns (ok: bool, id: nat)
      requires Valid()
      modifies this
      ensures Valid() && dispatched == old(dispatched) && evicted == old(evicted)
      ensures ok == forall i :: 0 <= i < |patterns| ==> ValidTopic(patterns[i])
      ensures ok ==> id == old(nextId) && nextId == id + 1 && id !in old(subs) &&
                     subs == old(subs)[id := Sub(patterns, [], 0, 0, false, [], [], [])]
      ensures !ok ==> subs == old(subs) && nextId == old(nextId)
    {
      id := nextId;
      ok := PatternsValid(patterns);
      if ok {
        nextId := nextId + 1;
        subs := subs[id := Sub(patterns, [], 0, 0, false, [], [], [])];
        assert dispatched[|dispatched|..] == [];
      }
    }

    /** Replaces the patterns of a registered subscriber; queue and counters carry over. */
    method UpdatePatterns(id: nat, patterns: seq<string>) returns (ok: bool)
      requires Valid()
      modifies this
      ensures Valid() && dispatched == old(dispatched) && nextId == old(nextId) && evicted == old(evicted)
      ensures ok == (id in old(subs) && forall i :: 0 <= i < |patterns| ==> ValidTopic(patterns[i]))
      ensures subs == if ok then old(subs)[id := old(subs)[id].(patterns := patterns)] else old(subs)
    {
      ok := PatternsValid(patterns);
      if !ok {
        return;
      }
      if id !in subs {
        return false;
      }
      subs := subs[id := subs[id].(patterns := patterns)];
    }

    method Unregister(id: nat)
      requires Valid()
      modifies this
      ensures Valid() && dispatched == old(dispatched) && nextId == old(nextId) && evicted == old(evicted)
      ensures subs == old(subs) - {id}
    {
      subs := subs - {id};
    }

    /** The transport takes the oldest event off a queue. */
    method Drain(id: nat) returns (got: bool, e: Event)
      requires Valid()
      modifies this
      ensures Valid() && dispatched == old(dispatched) && nextId == old(nextId) && evicted == old(evicted)
      ensures got == (id in old(subs) && old(subs)[id].queue != [])
      ensures got ==>
        e == old(subs)[id].queue[0] && subs == old(subs)[id := Drained(old(subs)[id])]
      ensures !got ==> subs == old(subs)
    {
      got, e := false, Plain("", "");
      if id in subs && subs[id].queue != [] {
        got, e := true, subs[id].queue[0];
        DrainedCurrent(subs[id], dispatched);
        subs := subs[id := Drained(subs[id])];
      }
    }

    /** The transport goes away without unregistering. */
    method Hangup(id: nat)
      requires Valid()
      modifies this
      ensures Valid() && dispatched == old(dispatched) && nextId == old(nextId) && evicted == old(evicted)
      ensures subs == if id in old(subs) then old(subs)[id := old(subs)[id].(closed := true)] else old(subs)
    {
      if id in subs {
        subs := subs[id := subs[id].(closed := true)];
      }
    }
  
    /**
     * Tries `e` on everyone registered, in any order.  `condemned` collects those a real dispatch must
     * evict; a guarded one collects none.
     */
    method TryAll(e: Event, guarded: bool) returns (condemned: seq<nat>)
      modifies this
      ensures subs == OfferAll(old(subs), e, guarded) && dispatched == old(dispatched) + [e]
      ensures nextId == old(nextId) && evicted == old(evicted) && published == old(published) && dropped == old(dropped)
      ensures Picked(old(subs), {}, e, guarded, condemned)
    {
      var rest := subs.Keys;
      condemned := [];
      while rest != {}
        invariant Tried(old(subs), subs, rest, e, guarded) && Picked(old(subs), rest, e, guarded, condemned)
        invariant nextId == old(nextId) && evicted == old(evicted) && published == old(published)
                && dropped == old(dropped)
        invariant dispatched == old(dispatched)
      {
        var id :| id in rest;
        var t, doomed := TrySend(subs[id], e, guarded);
        TriedStep(old(subs), subs, rest, e, guarded, id, t);
        PickedStep(old(subs), rest, e, guarded, condemned, id, doomed);
        if doomed {
          condemned := condemned + [id];
        }
        subs := subs[id := t];
        rest := rest - {id};
      }
      dispatched := dispatched + [e];
      TriedAll(old(subs), subs, e, guarded);
    }

    /** Whether the broadcast channel of the bus takes an event, and whether it drops its oldest for it. */
    method Publish(accepts: bool, overflows: bool)
      modifies this`published, this`dropped
      ensures published == old(published) + (if accepts then 1 else 0)
      ensures dropped == old(dropped) + if overflows then 1 else 0
    {
      if accepts {
        published := published + 1;
      }
      if overflows {
        dropped := dropped + 1;
      }
    }

    /**
     * Evicts a subscriber: no-op if it is gone; else it is removed, counted and recorded as a drop once, and
     * everyone else is offered the notice without further evictions.
     */
    method Evict(id: nat, accepts: bool)
      modifies this
      ensures subs == Without(old(subs), id, old(evicted)) && nextId == old(nextId)
      ensures evicted == old(evicted) + (if id in old(subs) then 1 else 0)
      ensures dropped == old(dropped) + (if id in old(subs) then 1 else 0)
      ensures dispatched == old(dispatched) + if id in old(subs) then [Degraded(id, evicted)] else []
      decreases 1, 0
    {
      if id !in subs {
        return;
      }
      subs := subs - {id};
      evicted := evicted + 1;
      dropped := dropped + 1;
      var notice := Degraded(id, evicted);
      Publish(accepts, false);
      ghost var none := DispatchInternal(notice, true, accepts);
      assert dispatched == old(dispatched) + [notice] + [];
    }

    /** The dispatch an eviction makes; with the guard up it never evicts, so the two do not loop. */
    method DispatchInternal(e: Event, guard: bool, accepts: bool) returns (ghost order: seq<nat>)
      modifies this
      ensures Picked(old(subs), {}, e, guard, order) && nextId == old(nextId)
      ensures subs == EvictedAll(OfferAll(old(subs), e, guard), order, old(evicted))
      ensures
        var notices := Notices(OfferAll(old(subs), e, guard), order, old(evicted));
        && dispatched == old(dispatched) + [e] + notices
        && evicted == old(evicted) + |notices| && dropped == old(dropped) + |notices|
      ensures guard ==> order == []
      decreases if guard then 0 else 2, 0
    {
      var condemned := TryAll(e, guard);
      order := condemned;
      if !guard {
        EvictEach(condemned, accepts);
      } else {
        assert dispatched + [] == dispatched;
      }
    }

    /** Evicts those listed, one by one. */
    method EvictEach(order: seq<nat>, accepts: bool)
      modifies this
      ensures subs == EvictedAll(old(subs), order, old(evicted)) && nextId == old(nextId)
      ensures
        var notices := Notices(old(subs), order, old(evicted));
        && dispatched == old(dispatched) + notices
        && evicted == old(evicted) + |notices| && dropped == old(dropped) + |notices|
      decreases 1, 1
    {
      ghost var n := 0;
      assert order[0..] == order;
      for k := 0 to |order|
        invariant nextId == old(nextId)
        invariant evicted == old(evicted) + n && dropped == old(dropped) + n
        invariant EvictedAll(subs, order[k..], evicted) == EvictedAll(old(subs), order, old(evicted))
        invariant dispatched + Notices(subs, order[k..], evicted) ==
                  old(dispatched) + Notices(old(subs), order, old(evicted))
        invariant n + |Notices(subs, order[k..], evicted)| == |Notices(old(subs), order, old(evicted))|
      {
        ghost var before, sent, rest := subs, dispatched, Notices(subs, order[k..], evicted);
        assert order[k..][1..] == order[k + 1..];
        Evict(order[k], accepts);
        if order[k] in before {
          n := n + 1;
          assert sent + rest == dispatched + rest[1..];
        }
      }
      assert order[|order|..] == [];
    }

    /**
     * Dispatches an event: everyone matching is tried, then the condemned are evicted one by one: the closed ones
     * and those whose last fifty attempts found the queue full.  Whoever remains is current with all that was
     * dispatched, and has the event in its queue if there was room.
     */
    method Dispatch(e: Event, accepts: bool) returns (ghost order: seq<nat>)
      requires Valid()
      modifies this
      ensures Valid() && nextId == old(nextId) && Dispatched(old(subs), e, subs)
      ensures Distinct(order) && forall id :: id in order <==> id in old(subs) && Condemned(old(subs)[id], e)
      ensures subs == EvictedAll(OfferAll(old(subs), e, false), order, old(evicted))
      ensures subs.Keys == old(subs).Keys - (set id | id in order) && evicted == old(evicted) + |order|
      ensures dropped == old(dropped) + |order|
    {
      var toEvict := TryAll(e, false);
      order := toEvict;
      DispatchedIs(old(subs), e, order, evicted);
      TriedPending(old(subs), old(dispatched), e, order);
      EvictedKeys(subs, order, evicted);
      EvictionsSettle(subs, dispatched, order, evicted);
      EvictEach(toEvict, accepts);
    }
  }
}
