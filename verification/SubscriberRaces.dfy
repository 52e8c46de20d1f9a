/**
 * The subscriber registry of livebus/src/subscriber.rs under concurrency.  Any number of threads register,
 * replace patterns, unregister, dispatch and evict; each critical section and each atomic operation is one
 * step, and steps of different threads interleave freely.  What a queue answers to a send is left open.
 */
module SubscriberRaces {
  import opened SetFacts

  /** Where a thread stands. */
  datatype Task =
    | Idle
      /** An id has been drawn but not yet entered. */
    | Registering(id: nat)
      /** A dispatch trying the subscribers of its snapshot; `condemned` are those it will evict. */
    | Trying(left: set<nat>, condemned: seq<nat>)
      /** Evictions still to make. */
    | Evicting(rest: seq<nat>)
      /** An eviction that has removed `id` and must still count it, record the drop, and send its notice. */
    | Removed(id: nat, rest: seq<nat>)
    | Counted(id: nat, rest: seq<nat>)
    | Dropped(id: nat, rest: seq<nat>)
    | Notified(id: nat, rest: seq<nat>)
      /** The guarded dispatch of a notice. */
    | Guarded(left: set<nat>, rest: seq<nat>)

  /**
   * The shared state.  `gone` and `victims` are history: every id ever removed, and those removed by an
   * eviction; `counted`, `recorded` and `notices` say for which of them each duty has been done.
   */
  datatype State = State(
    registry: set<nat>,
    nextId: nat,
    evicted: nat,
    drops: nat,
    gone: set<nat>,
    victims: set<nat>,
    counted: set<nat>,
    recorded: set<nat>,
    notices: seq<nat>,
    tasks: map<nat, Task>)

  datatype Step =
    | Draw | Insert | Replace(id: nat) | Unregister(id: nat)
    | Snapshot | Try(id: nat, doomed: bool) | StartEvictions | Evict(id: nat)
    | Remove | Count | RecordDrop | Notify | GuardSnapshot | GuardTry(id: nat) | EndGuard | EndEvictions

  ghost predicate Enabled(s: State, t: nat, a: Step) {
    t in s.tasks &&
    var task := s.tasks[t];
    match a
    case Draw => task.Idle?
    case Insert => task.Registering?
    case Replace(id) => task.Idle? && id in s.registry
    case Unregister(id) => task.Idle?
    case Snapshot => task.Idle?
    case Try(id, _) => task.Trying? && id in task.left
    case StartEvictions => task.Trying? && task.left == {}
    case Evict(id) => task.Idle?
    case Remove => task.Evicting? && task.rest != []
    case Count => task.Removed?
    case RecordDrop => task.Counted?
    case Notify => task.Dropped?
    case GuardSnapshot => task.Notified?
    case GuardTry(id) => task.Guarded? && id in task.left
    case EndGuard => task.Guarded? && task.left == {}
    case EndEvictions => task.Evicting? && task.rest == []
  }

  /** The thread's next position.  A guarded dispatch adds nothing to what is left to evict. */
  ghost function NextTask(s: State, t: nat, a: Step): Task
    requires Enabled(s, t, a)
  {
    var task := s.tasks[t];
    match a
    case Draw => Registering(s.nextId)
    case Insert => Idle
    case Replace(_) => Idle
    case Unregister(_) => Idle
    case Snapshot => Trying(s.registry, [])
    case Try(id, doomed) => Trying(task.left - {id}, if doomed then task.condemned + [id] else task.condemned)
    case StartEvictions => Evicting(task.condemned)
    case Evict(id) => Evicting([id])
    case Remove => if task.rest[0] in s.registry then Removed(task.rest[0], task.rest[1..])
        else Evicting(task.rest[1..])
    case Count => Counted(task.id, task.rest)
    case RecordDrop => Dropped(task.id, task.rest)
    case Notify => Notified(task.id, task.rest)
    case GuardSnapshot => Guarded(s.registry, task.rest)
    case GuardTry(id) => Guarded(task.left - {id}, task.rest)
    case EndGuard => Evicting(task.rest)
    case EndEvictions => Idle
  }

  ghost function Apply(s: State, t: nat, a: Step): State
    requires Enabled(s, t, a)
  {
    var task := s.tasks[t];
    var r := s.(tasks := s.tasks[t := NextTask(s, t, a)]);
    match a
    case Draw => r.(nextId := s.nextId + 1)
    case Insert => r.(registry := s.registry + {task.id})
    case Replace(id) => r.(registry := s.registry + {id})
    case Unregister(id) => r.(registry := s.registry - {id}, gone := s.gone + (s.registry * {id}))
    case Remove =>
      var id := task.rest[0];
      if id in s.registry then
        r.(registry := s.registry - {id}, gone := s.gone + {id}, victims := s.victims + {id})
      else r
    case Count => r.(evicted := s.evicted + 1, counted := s.counted + {task.id})
    case RecordDrop => r.(drops := s.drops + 1, recorded := s.recorded + {task.id})
    case Notify => r.(notices := s.notices + [task.id])
    case _ => r
  }

  /** The victim an eviction in flight still has duties for. */
  ghost predicate InFlight(task: Task) {
    task.Removed? || task.Counted? || task.Dropped?
  }

  ghost predicate Ids(s: State) {
    && (forall id :: id in s.registry || id in s.gone ==> id < s.nextId)
    && s.registry !! s.gone && s.victims <= s.gone
    && (forall t :: t in s.tasks && s.tasks[t].Registering? ==>
          s.tasks[t].id < s.nextId && s.tasks[t].id !in s.registry && s.tasks[t].id !in s.gone)
    && (forall t, u :: t in s.tasks && u in s.tasks && t != u && s.tasks[t].Registering? && s.tasks[u].Registering? ==>
          s.tasks[t].id != s.tasks[u].id)
  }

  /** Each duty is done at most once per victim, and is owed exactly while its eviction is in flight. */
  ghost predicate Duties(s: State) {
    && s.evicted == |s.counted| && s.drops == |s.recorded|
    && s.counted <= s.victims && s.recorded <= s.victims
    && Distinct(s.notices)
    && (forall id :: id in s.notices ==> id in s.victims)
  }

  /** What an eviction in flight has done so far. */
  ghost predicate Underway(s: State, task: Task) {
    InFlight(task) ==>
      && task.id in s.victims && task.id !in s.notices
      && (task.Removed? <==> task.id !in s.counted)
      && (task.Dropped? <==> task.id in s.recorded)
  }

  ghost predicate Flights(s: State) {
    && (forall t :: t in s.tasks ==> Underway(s, s.tasks[t]))
    && (forall t, u :: t in s.tasks && u in s.tasks && t != u && InFlight(s.tasks[t]) && InFlight(s.tasks[u]) ==>
          s.tasks[t].id != s.tasks[u].id)
  }

  /** A victim whose duties are not all done is in flight on some thread. */
  ghost predicate NoneForgotten(s: State) {
    forall id :: id in s.victims && !(id in s.counted && id in s.recorded && id in s.notices) ==>
      exists t :: t in s.tasks && InFlight(s.tasks[t]) && s.tasks[t].id == id
  }

  ghost predicate Invariant(s: State) {
    Ids(s) && Duties(s) && Flights(s) && NoneForgotten(s)
  }

  ghost predicate Initial(s: State) {
    && s.registry == {} && s.nextId == 1 && s.evicted == 0 && s.drops == 0
    && s.gone == {} && s.victims == {} && s.counted == {} && s.recorded == {} && s.notices == []
    && forall t :: t in s.tasks ==> s.tasks[t].Idle?
  }

  lemma StepIds(s: State, t: nat, a: Step)
    requires Ids(s) && Enabled(s, t, a)
    ensures Ids(Apply(s, t, a))
  {
  }

  lemma StepDuties(s: State, t: nat, a: Step)
    requires Ids(s) && Duties(s) && Flights(s) && Enabled(s, t, a)
    ensures Duties(Apply(s, t, a))
  {
    if a.Count? {
      CountDuties(s, t);
    } else if a.RecordDrop? {
      RecordDuties(s, t);
    } else if a.Notify? {
      NotifyDuties(s, t);
    }
  }

  lemma CountDuties(s: State, t: nat)
    requires Ids(s) && Duties(s) && Flights(s) && Enabled(s, t, Count)
    ensures Duties(Apply(s, t, Count))
  {
    assert Underway(s, s.tasks[t]);
  }

  lemma RecordDuties(s: State, t: nat)
    requires Ids(s) && Duties(s) && Flights(s) && Enabled(s, t, RecordDrop)
    ensures Duties(Apply(s, t, RecordDrop))
  {
    assert Underway(s, s.tasks[t]);
  }

  lemma NotifyDuties(s: State, t: nat)
    requires Ids(s) && Duties(s) && Flights(s) && Enabled(s, t, Notify)
    ensures Duties(Apply(s, t, Notify))
  {
    assert Underway(s, s.tasks[t]);
  }

  lemma OwnUnderway(s: State, t: nat, a: Step)
    requires Ids(s) && Duties(s) && Enabled(s, t, a) && Underway(s, s.tasks[t])
    ensures Underway(Apply(s, t, a), NextTask(s, t, a))
  {
  }

  lemma OtherUnderway(s: State, t: nat, a: Step, task: Task)
    requires Ids(s) && Enabled(s, t, a) && Underway(s, task)
    requires InFlight(task) && InFlight(s.tasks[t]) ==> task.id != s.tasks[t].id
    ensures Underway(Apply(s, t, a), task)
  {
  }

  lemma StepUnderway(s: State, t: nat, a: Step, u: nat)
    requires Ids(s) && Duties(s) && Flights(s) && Enabled(s, t, a) && u in Apply(s, t, a).tasks
    ensures Underway(Apply(s, t, a), Apply(s, t, a).tasks[u])
  {
    if u == t {
      OwnUnderway(s, t, a);
    } else {
      OtherUnderway(s, t, a, s.tasks[u]);
    }
  }

  lemma StepFlights(s: State, t: nat, a: Step)
    requires Ids(s) && Duties(s) && Flights(s) && Enabled(s, t, a)
    ensures Flights(Apply(s, t, a))
  {
    var r := Apply(s, t, a);
    forall u | u in r.tasks
      ensures Underway(r, r.tasks[u])
    {
      StepUnderway(s, t, a, u);
    }
    forall u | u in r.tasks && u != t && InFlight(r.tasks[t]) && InFlight(r.tasks[u])
      ensures r.tasks[t].id != r.tasks[u].id
    {
      assert Underway(s, s.tasks[u]);
    }
  }

  lemma StepNoneForgotten(s: State, t: nat, a: Step)
    requires Ids(s) && Flights(s) && NoneForgotten(s) && Enabled(s, t, a)
    ensures NoneForgotten(Apply(s, t, a))
  {
    var r := Apply(s, t, a);
    forall id | id in r.victims && !(id in r.counted && id in r.recorded && id in r.notices)
      ensures exists u :: u in r.tasks && InFlight(r.tasks[u]) && r.tasks[u].id == id
    {
      if id in s.victims {
        var u :| u in s.tasks && InFlight(s.tasks[u]) && s.tasks[u].id == id;
        assert u in r.tasks && InFlight(r.tasks[u]) && r.tasks[u].id == id;
      } else {
        assert t in r.tasks && InFlight(r.tasks[t]) && r.tasks[t].id == id;
      }
    }
  }

  lemma StepKeepsInvariant(s: State, t: nat, a: Step)
    requires Invariant(s) && Enabled(s, t, a)
    ensures Invariant(Apply(s, t, a))
    ensures s.gone <= Apply(s, t, a).gone && s.nextId <= Apply(s, t, a).nextId
  {
    StepIds(s, t, a);
    StepDuties(s, t, a);
    StepFlights(s, t, a);
    StepNoneForgotten(s, t, a);
  }

  // ----- runs -----

  /** Each step of the schedule is enabled when its turn comes. */
  ghost predicate Run(s: State, schedule: seq<(nat, Step)>, final: State)
    decreases |schedule|
  {
    if schedule == [] then final == s
    else
      var (t, a) := schedule[0];
      Enabled(s, t, a) && Run(Apply(s, t, a), schedule[1..], final)
  }

  lemma {:induction false} RunKeepsInvariant(s: State, schedule: seq<(nat, Step)>, final: State)
    requires Invariant(s) && Run(s, schedule, final)
    ensures Invariant(final) && s.gone <= final.gone
    decreases |schedule|
  {
    if schedule != [] {
      var (t, a) := schedule[0];
      StepKeepsInvariant(s, t, a);
      RunKeepsInvariant(Apply(s, t, a), schedule[1..], final);
    }
  }

  lemma InitialInvariant(s: State)
    requires Initial(s)
    ensures Invariant(s)
  {
  }

  /** At most one of each duty per victim, and exactly one once nothing is in flight. */
  lemma DutiesCount(s: State)
    requires Duties(s) && NoneForgotten(s)
    ensures s.evicted <= |s.victims| && s.drops <= |s.victims| && |s.notices| <= |s.victims|
    ensures (forall t :: t in s.tasks ==> !InFlight(s.tasks[t])) ==>
      s.evicted == s.drops == |s.notices| == |s.victims|
  {
    SubsetCount(s.counted, s.victims);
    SubsetCount(s.recorded, s.victims);
    var noticed := set id | id in s.notices;
    DistinctCount(s.notices);
    SubsetCount(noticed, s.victims);
    if forall t :: t in s.tasks ==> !InFlight(s.tasks[t]) {
      assert s.counted == s.victims && s.recorded == s.victims && noticed == s.victims;
    }
  }

  /**
   * In every run, under every schedule: an id once removed is never in the registry again; evictions
   * counted, drops recorded and notices sent are each at most one per evicted id, and of evicted ids only; and
   * when no eviction is in flight they are exactly one per evicted id.
   */
  lemma EveryRunIsSafe(s: State, early: seq<(nat, Step)>, mid: State, late: seq<(nat, Step)>, final: State)
    requires Initial(s) && Run(s, early, mid) && Run(mid, late, final)
    ensures mid.gone !! final.registry
    ensures Distinct(final.notices) && forall id :: id in final.notices ==> id in final.victims
    ensures final.evicted == |final.counted| && final.drops == |final.recorded|
    ensures final.counted <= final.victims && final.recorded <= final.victims <= final.gone
    ensures final.evicted <= |final.victims| && final.drops <= |final.victims| && |final.notices| <= |final.victims|
    ensures (forall t :: t in final.tasks ==> !InFlight(final.tasks[t])) ==>
      && final.evicted == final.drops == |final.notices| == |final.victims|
      && final.counted == final.recorded == final.victims
      && forall id :: id in final.victims ==> id in final.notices
  {
    InitialInvariant(s);
    RunKeepsInvariant(s, early, mid);
    RunKeepsInvariant(mid, late, final);
    DutiesCount(final);
  }

  // ----- the recursion ends -----

  /** Evictions a thread has still to make, the stage of the one under way, and subscribers left to try. */
  ghost function Pending(task: Task): nat {
    match task
    case Trying(left, condemned) => |left| + |condemned| + 1
    case Evicting(rest) => |rest|
    case Removed(_, rest) => |rest|
    case Counted(_, rest) => |rest|
    case Dropped(_, rest) => |rest|
    case Notified(_, rest) => |rest|
    case Guarded(_, rest) => |rest|
    case _ => 0
  }

  ghost function Stage(task: Task): nat {
    match task
    case Removed(_, _) => 5
    case Counted(_, _) => 4
    case Dropped(_, _) => 3
    case Notified(_, _) => 2
    case Guarded(_, _) => 1
    case Trying(_, _) => 1
    case _ => 0
  }

  ghost function Left(task: Task): nat {
    if task.Guarded? || task.Trying? then |task.left| else if task.Idle? then 0 else 1
  }

  /** Lexicographic order of the three counts. */
  ghost predicate Shrinks(a: Task, b: Task) {
    || Pending(b) < Pending(a)
    || (Pending(b) == Pending(a) && (Stage(b) < Stage(a) || (Stage(b) == Stage(a) && Left(b) < Left(a))))
  }

  /**
   * Once a dispatch has its snapshot, every step its thread takes brings it closer to being idle, whatever
   * the other threads do: an eviction's own dispatch never adds an eviction.
   */
  lemma EvictionsEnd(s: State, t: nat, a: Step)
    requires Enabled(s, t, a) && !s.tasks[t].Idle?
    ensures Shrinks(s.tasks[t], NextTask(s, t, a))
  {
    var task := s.tasks[t];
    if a.Try? || a.GuardTry? {
      assert |task.left - {a.id}| == |task.left| - 1;
    }
  }
}
