/** All the threads that use one semaphore. */
module SemaphoreRuns {
  import opened Sequences
  import opened Semaphores

  /** `woken` are the threads that V has made ready and that have not tested the value again;
      `ps` and `vs` count the completed operations. */
  datatype State = State(initial: nat, sem: Semaphore, woken: set<Tid>, ps: nat, vs: nat)

  datatype Event =
    | CallP(t: Tid)
    | Retest(t: Tid) // the scheduler runs a woken thread again
    | CallV

  function Init(initial: nat): (s: State) {
    State(initial, Semaphore(initial, []), {}, 0, 0)
  }

  function Test(s: State, t: Tid): (s': State) {
    var (sem, passed) := TryP(s.sem, t);
    s.(sem := sem, woken := s.woken - {t}, ps := s.ps + if passed then 1 else 0)
  }

  /** One step; an event that cannot happen in this state changes nothing. */
  function Step(s: State, e: Event): (s': State) {
    match e
    case CallP(t) => if t in s.sem.queue || t in s.woken then s else Test(s, t)
    case Retest(t) => if t in s.woken then Test(s, t) else s
    case CallV =>
      var (sem, front) := V(s.sem);
      s.(sem := sem, vs := s.vs + 1, woken := if front.Some? then s.woken + {front.value} else s.woken)
  }

  function Run(initial: nat, events: seq<Event>): (s: State) {
    if events == [] then Init(initial)
    else Step(Run(initial, events[..|events| - 1]), events[|events| - 1])
  }

  /** Value accounting, and no lost wakeup: whenever somebody sleeps, there are at least as many woken threads
      on their way to the value as there are units of it. */
  ghost predicate Inv(s: State) {
    && s.sem.value == s.initial + s.vs - s.ps
    && Distinct(s.sem.queue)
    && (forall t :: t in s.sem.queue ==> t !in s.woken)
    && (s.sem.queue != [] ==> s.sem.value <= |s.woken|)
  }

  lemma StepKeepsInv(s: State, e: Event)
    requires Inv(s)
    ensures Inv(Step(s, e))
  {
    match e
    case CallP(t) =>
      assert t !in s.woken ==> s.woken - {t} == s.woken;
    case Retest(t) =>
    case CallV =>
      if s.sem.queue != [] {
        var front := s.sem.queue[0];
        assert front in s.sem.queue;
        DistinctTail(s.sem.queue);
        assert |s.woken + {front}| == |s.woken| + 1;
      }
  }

  /** In every run, value is initial plus completed V minus completed P; a queued thread is never stranded. */
  lemma {:induction false} RunsKeepInv(initial: nat, events: seq<Event>)
    ensures Inv(Run(initial, events)) && Run(initial, events).initial == initial
  {
    if events != [] {
      RunsKeepInv(initial, events[..|events| - 1]);
      StepKeepsInv(Run(initial, events[..|events| - 1]), events[|events| - 1]);
    }
  }

  /** When nobody is on the way, a sleeper means that the value is used up. */
  lemma NoLostWakeup(initial: nat, events: seq<Event>)
    ensures var s := Run(initial, events);
      s.woken == {} && s.sem.queue != [] ==> s.sem.value == 0 && s.ps == initial + s.vs
  {
    RunsKeepInv(initial, events);
  }
}
