/** What every schedule of producers and consumers of a SynchList keeps. */
module SynchListRuns {
  import opened Sequences
  import opened Semaphores
  import opened SynchLists

  // ---------------------------------------------------------------- the list

  /** First in, first out; and nobody is about to take from an empty list. */
  ghost predicate ListInv<T(!new)>(s: State<T>) {
    && s.appended == s.removed + s.list
    && (forall t :: s.At(t).Taking? ==> s.list != [])
  }

  lemma StepList<T(!new)>(s: State<T>, t: Tid, c: Choice<T>)
    requires LockInv(s) && ListInv(s)
    ensures ListInv(Step(s, t, c))
  {
    LockExcludes(s);
    hide LockInv, Exclusive, ListInv, Step;
    match s.At(t)
    case Taking(_) => TakeKeepsList(s, t);
    case Appending(x) => PutKeepsList(s, t, x);
    case _ => OtherKeepsList(s, t, c);
  }

  lemma TakeKeepsList<T(!new)>(s: State<T>, t: Tid)
    requires Exclusive(s) && ListInv(s) && s.At(t).Taking?
    ensures ListInv(TakeItem(s, t)) && TakeItem(s, t) == Step(s, t, Continue)
    ensures forall c :: Step(s, t, c) == TakeItem(s, t)
  {
    hide Holding;
    var s' := TakeItem(s, t);
    assert s.removed + s.list == s'.removed + s'.list;
    forall u | u != t
      ensures !s'.At(u).Taking?
    {
      assert Critical(s.At(t)) && (Critical(s.At(u)) ==> s.owner == Some(u));
    }
  }

  lemma PutKeepsList<T(!new)>(s: State<T>, t: Tid, x: T)
    requires ListInv(s) && s.At(t) == Appending(x)
    ensures ListInv(PutItem(s, t, x)) && forall c :: Step(s, t, c) == PutItem(s, t, x)
  {
    var s' := PutItem(s, t, x);
    assert s.removed + (s.list + [x]) == s'.appended;
  }

  lemma SameItems<T(!new)>(s: State<T>, t: Tid, c: Choice<T>)
    requires !s.At(t).Taking? && !s.At(t).Appending?
    ensures var s' := Step(s, t, c); s'.list == s.list && s'.removed == s.removed && s'.appended == s.appended
  {
  }

  lemma OnlyCheckLeadsToTaking<T(!new)>(s: State<T>, t: Tid, c: Choice<T>, u: Tid)
    requires !s.At(t).Taking?
    ensures Step(s, t, c).At(u).Taking? ==> s.At(u).Taking? || s.list != []
  {
    if u != t {
      hide Step;
      OthersStay(s, t, c, u);
    }
  }

  lemma OtherKeepsList<T(!new)>(s: State<T>, t: Tid, c: Choice<T>)
    requires ListInv(s) && !s.At(t).Taking? && !s.At(t).Appending?
    ensures ListInv(Step(s, t, c))
  {
    hide Step;
    SameItems(s, t, c);
    forall u | Step(s, t, c).At(u).Taking?
      ensures s.list != []
    {
      OnlyCheckLeadsToTaking(s, t, c, u);
    }
  }

  // ---------------------------------------------------------------- the consumers

  /** A consumer that has been signalled and has yet to look at the list again. */
  predicate Signalled<T>(s: State<T>, t: Tid) {
    match s.At(t)
    case Waiting(m) => m in s.sems && s.sems[m].value > 0
    case Acquire(Reacquire(_)) | Queued(Reacquire(_)) | Entered(Reacquire(_)) | Checking(true) | Taking(true) => true
    case _ => false
  }

  function Coming<T>(s: State<T>): (r: set<Tid>)
    ensures forall t :: t in r <==> Signalled(s, t)
  {
    set t | t in s.pcs && Signalled(s, t)
  }

  /** The owner of the lock is between putting an item on the list and the end of Signal. */
  predicate InAppend<T>(s: State<T>) {
    s.owner.Some? && (s.At(s.owner.value).Signalling? || s.At(s.owner.value).Posting?)
  }

  /** Every item that a queued consumer might wait for is accounted for by a consumer on its way. */
  ghost predicate StrandInv<T(!new)>(s: State<T>) {
    s.waitQueue != [] ==> |s.list| <= |Coming(s)| + if InAppend(s) then 1 else 0
  }

  lemma MoreComing<T(!new)>(s: State<T>, s': State<T>)
    requires forall t :: Signalled(s, t) ==> Signalled(s', t)
    ensures |Coming(s)| <= |Coming(s')|
  {
    SubsetSize(Coming(s), Coming(s'));
  }

  lemma SubsetSize<T>(a: set<T>, b: set<T>)
    requires a <= b
    ensures |a| <= |b|
  {
    assert b == a + (b - a);
  }

  lemma PostKeepsStrand<T(!new)>(s: State<T>, t: Tid)
    requires s.owner == Some(t) && SemInv(s) && StrandInv(s) && s.At(t).Posting?
    ensures StrandInv(Post(s, t, s.At(t).sem))
  {
    hide Distinct;
    var m := s.At(t).sem;
    var s' := Post(s, t, m);
    assert Pending(s) == Some(m) && StageOk(s, m);
    hide SemInv, StageOk, IsBack;
    var w := s.sems[m].thread;
    forall u | Signalled(s, u) || u == w
      ensures Signalled(s', u)
    {
    }
    assert !Signalled(s, w);
    SubsetSize(Coming(s) + {w}, Coming(s'));
  }

  lemma TakeKeepsStrand<T(!new)>(s: State<T>, t: Tid)
    requires s.owner == Some(t) && StrandInv(s) && s.At(t).Taking?
    ensures StrandInv(TakeItem(s, t))
  {
    var s' := TakeItem(s, t);
    forall u | Signalled(s, u) && u != t
      ensures Signalled(s', u)
    {
    }
    SubsetSize(Coming(s) - {t}, Coming(s'));
  }

  lemma CheckKeepsStrand<T(!new)>(s: State<T>, t: Tid)
    requires s.owner == Some(t) && StrandInv(s) && s.At(t).Checking?
    ensures StrandInv(Check(s, t, s.At(t).again))
  {
    var s' := Check(s, t, s.At(t).again);
    if s.list != [] {
      forall u | Signalled(s, u)
        ensures Signalled(s', u)
      {
      }
      MoreComing(s, s');
    }
  }

  lemma EnterKeepsSignalled<T(!new)>(s: State<T>, t: Tid, u: Tid)
    requires SemInv(s) && s.At(t).Entered? && Signalled(s, u)
    ensures Signalled(Enter(s, t, s.At(t).why), u)
  {
    hide Distinct, StageOk, IsBack, Pending;
    assert UseOk(s, t) && UseOk(s, u);
  }

  /** The lock moves nobody away from the list. */
  lemma ReleaseKeepsSignalled<T(!new)>(s: State<T>, t: Tid, u: Tid)
    requires s.At(t).Releasing? && Signalled(s, u)
    ensures Signalled(ReleaseLock(s, t, s.At(t).next), u)
  {
  }

  lemma AwaitKeepsSignalled<T(!new)>(s: State<T>, t: Tid, u: Tid)
    requires SemInv(s) && s.At(t).Waiting? && Signalled(s, u)
    ensures Signalled(Await(s, t, s.At(t).sem), u)
  {
    hide Distinct, StageOk, IsBack, Pending;
    assert UseOk(s, t) && UseOk(s, u);
  }

  lemma OtherKeepsSignalled<T(!new)>(s: State<T>, t: Tid, c: Choice<T>, u: Tid)
    requires Signalled(s, u)
    requires match s.At(t)
      case Entered(_) | Releasing(_) | Waiting(_) | Posting(_) | Taking(_) | Checking(_) => false
      case _ => true
    ensures Signalled(Step(s, t, c), u)
  {
    var s' := Step(s, t, c);
    assert s'.sems == s.sems;
  }

  lemma StepKeepsSignalled<T(!new)>(s: State<T>, t: Tid, c: Choice<T>)
    requires SemInv(s) && !s.At(t).Posting? && !s.At(t).Taking? && !s.At(t).Checking?
    ensures forall u :: Signalled(s, u) ==> Signalled(Step(s, t, c), u)
  {
    hide SemInv, Signalled, Enter, ReleaseLock, Await;
    forall u | Signalled(s, u)
      ensures Signalled(Step(s, t, c), u)
    {
      match s.At(t)
      case Entered(_) => EnterKeepsSignalled(s, t, u);
      case Releasing(_) => ReleaseKeepsSignalled(s, t, u);
      case Waiting(_) => AwaitKeepsSignalled(s, t, u);
      case _ => OtherKeepsSignalled(s, t, c, u);
    }
  }

  /** Only PutItem adds an item, and it is followed by Signal; only Signal and Post leave the second half of Append. */
  lemma AppendAccounts<T(!new)>(s: State<T>, t: Tid, c: Choice<T>)
    requires Exclusive(s) && !s.At(t).Posting? && !s.At(t).Taking? && !s.At(t).Checking?
    ensures var s' := Step(s, t, c);
      s'.waitQueue != [] ==>
        s.waitQueue != [] && |s'.list| + (if InAppend(s) then 1 else 0) <= |s.list| + if InAppend(s') then 1 else 0
  {
    hide Holding;
    var s' := Step(s, t, c);
    CriticalIsOwner(s, t);
    if s.owner.Some? && s.owner != Some(t) {
      assert Critical(s.At(s.owner.value));
      assert s'.owner == s.owner && s'.At(s.owner.value) == s.At(s.owner.value);
    }
  }

  lemma StepStrand<T(!new)>(s: State<T>, t: Tid, c: Choice<T>)
    requires LockInv(s) && SemInv(s) && StrandInv(s)
    ensures StrandInv(Step(s, t, c))
  {
    LockExcludes(s);
    CriticalIsOwner(s, t);
    hide LockInv, Exclusive, SemInv, Post, TakeItem, Check;
    match s.At(t)
    case Posting(_) => PostKeepsStrand(s, t);
    case Taking(_) => TakeKeepsStrand(s, t);
    case Checking(_) => CheckKeepsStrand(s, t);
    case _ =>
      hide Step, InAppend, Signalled;
      StepKeepsSignalled(s, t, c);
      MoreComing(s, Step(s, t, c));
      AppendAccounts(s, t, c);
  }

  // ---------------------------------------------------------------- the signaller

  /** While a thread is still inside V, the semaphore it posted is there, and was posted once. */
  predicate PostedOk<T>(s: State<T>, t: Tid) {
    s.At(t).Posted? ==> var m := s.At(t).sem; m in s.sems && 0 <= m < |s.posts| && s.posts[m] == 1
  }

  ghost predicate PostedInv<T(!new)>(s: State<T>) {
    forall t :: PostedOk(s, t)
  }

  lemma EnterKeepsPosted<T(!new)>(s: State<T>, t: Tid, u: Tid)
    requires Exclusive(s) && s.At(t).Entered?
    ensures PostedOk(Enter(s, t, s.At(t).why), u)
  {
    CriticalIsOwner(s, t);
    CriticalIsOwner(s, u);
  }

  lemma PostKeepsPosted<T(!new)>(s: State<T>, t: Tid, u: Tid)
    requires Exclusive(s) && SemInv(s) && s.At(t).Posting?
    ensures PostedOk(Post(s, t, s.At(t).sem), u)
  {
    hide Distinct, UseOk, IsBack;
    CriticalIsOwner(s, t);
    CriticalIsOwner(s, u);
    var m := s.At(t).sem;
    assert Pending(s) == Some(m) && StageOk(s, m);
  }

  lemma ReleaseKeepsPosted<T(!new)>(s: State<T>, t: Tid, next: Next, u: Tid)
    requires PostedOk(s, u)
    ensures PostedOk(ReleaseLock(s, t, next), u)
  {
  }

  lemma CheckKeepsPosted<T(!new)>(s: State<T>, t: Tid, again: bool, u: Tid)
    requires PostedOk(s, u)
    ensures PostedOk(Check(s, t, again), u)
  {
  }

  lemma AwaitKeepsPosted<T(!new)>(s: State<T>, t: Tid, m: SemId, u: Tid)
    requires PostedOk(s, u)
    ensures PostedOk(Await(s, t, m), u)
  {
  }

  lemma OtherKeepsPosted<T(!new)>(s: State<T>, t: Tid, c: Choice<T>, u: Tid)
    requires PostedOk(s, u) && !s.At(t).Entered? && !s.At(t).Posting?
    ensures PostedOk(Step(s, t, c), u)
  {
    hide ReleaseLock, Check, Await, Enter, Post;
    match s.At(t)
    case Entered(_) =>
    case Posting(_) =>
    case Releasing(next) => ReleaseKeepsPosted(s, t, next, u);
    case Checking(again) => CheckKeepsPosted(s, t, again, u);
    case Waiting(m) => AwaitKeepsPosted(s, t, m, u);
    case _ =>
      var s' := Step(s, t, c);
      assert s'.sems == s.sems && s'.posts == s.posts;
      assert u != t ==> s'.At(u) == s.At(u);
  }

  lemma StepPosted<T(!new)>(s: State<T>, t: Tid, c: Choice<T>)
    requires LockInv(s) && SemInv(s) && PostedInv(s)
    ensures PostedInv(Step(s, t, c))
  {
    LockExcludes(s);
    hide LockInv, Exclusive, SemInv, PostedOk, Enter, Post;
    forall u
      ensures PostedOk(Step(s, t, c), u)
    {
      match s.At(t)
      case Entered(_) => EnterKeepsPosted(s, t, u);
      case Posting(_) => PostKeepsPosted(s, t, u);
      case _ => OtherKeepsPosted(s, t, c, u);
    }
  }

  // ---------------------------------------------------------------- every schedule

  ghost predicate Inv<T(!new)>(s: State<T>) {
    LockInv(s) && SemInv(s) && ListInv(s) && StrandInv(s) && PostedInv(s)
  }

  lemma StepKeepsInv<T(!new)>(s: State<T>, t: Tid, c: Choice<T>)
    requires Inv(s)
    ensures Inv(Step(s, t, c))
  {
    hide LockInv, SemInv, ListInv, StrandInv, PostedInv, Step;
    StepLock(s, t, c);
    StepSems(s, t, c);
    StepList(s, t, c);
    StepStrand(s, t, c);
    StepPosted(s, t, c);
  }

  lemma {:induction false} RunsKeepInv<T(!new)>(schedule: seq<(Tid, Choice<T>)>)
    ensures Inv(Run(schedule))
  {
    hide Inv, Step;
    if schedule == [] {
      InitInv<T>();
    } else {
      var before := schedule[..|schedule| - 1];
      var (t, c) := schedule[|schedule| - 1];
      RunsKeepInv(before);
      StepKeepsInv(Run(before), t, c);
    }
  }

  lemma InitInv<T(!new)>()
    ensures Inv(Init<T>())
  {
  }

  /** Every step is a step of an atomic queue: it puts one item at the end, or takes the one in front, or neither. */
  lemma StepIsQueueStep<T(!new)>(s: State<T>, t: Tid, c: Choice<T>)
    requires Inv(s)
    ensures var s' := Step(s, t, c);
      match s.At(t)
      case Appending(x) => s'.list == s.list + [x] && s'.appended == s.appended + [x] && s'.removed == s.removed
      case Taking(_) => s.list != [] && s.list == [s'.removed[|s.removed|]] + s'.list && s.removed <= s'.removed
        && |s'.removed| == |s.removed| + 1 && s'.appended == s.appended
      case _ => s'.list == s.list && s'.removed == s.removed && s'.appended == s.appended
  {
    hide LockInv, SemInv, StrandInv, PostedInv;
    match s.At(t)
    case Appending(_) =>
    case Taking(_) =>
    case _ => SameItems(s, t, c);
  }

  /** Items come out in the order in which they went in, each of them once. */
  lemma RemovedIsPrefix<T(!new)>(schedule: seq<(Tid, Choice<T>)>)
    ensures var s := Run(schedule); s.removed <= s.appended && s.list == s.appended[|s.removed|..]
  {
    RunsKeepInv(schedule);
    assert ListInv(Run(schedule));
  }

  /** RemoveFront of the plain list is never called on an empty list. */
  lemma NeverTakesFromEmpty<T(!new)>(schedule: seq<(Tid, Choice<T>)>, t: Tid)
    ensures Run(schedule).At(t).Taking? ==> Run(schedule).list != []
  {
    RunsKeepInv(schedule);
    assert ListInv(Run(schedule));
  }

  /** Two threads are never both inside the monitor, and the lock's ASSERTs hold wherever they are evaluated. */
  lemma MutualExclusion<T(!new)>(schedule: seq<(Tid, Choice<T>)>, t: Tid, u: Tid)
    ensures var s := Run(schedule);
      && (Critical(s.At(t)) && Critical(s.At(u)) ==> t == u)
      && (Holding(s.At(t)) ==> s.holder == Some(t))
  {
    RunsKeepInv(schedule);
    var s := Run(schedule);
    hide LockInv, Run;
    LockExcludes(s);
    assert (Critical(s.At(t)) <==> s.owner == Some(t)) && (Critical(s.At(u)) <==> s.owner == Some(u));
    assert Holding(s.At(t)) <==> s.holder == Some(t);
  }

  /** A private semaphore is posted at most once, is there when it is posted and until the signaller's V has returned,
      is deleted only after that, and never touched again. */
  lemma OnePostEach<T(!new)>(schedule: seq<(Tid, Choice<T>)>, m: SemId)
    requires 0 <= m < |Run(schedule).posts|
    ensures var s := Run(schedule);
      && s.posts[m] <= 1
      && (m !in s.sems ==> s.posts[m] == 1)
      && (forall t :: s.At(t) == Posting(m) ==> m in s.sems && s.posts[m] == 0)
      && (forall t :: s.At(t) == Posted(m) ==> m in s.sems && s.posts[m] == 1)
      && (forall t :: s.At(t) == Waiting(m) || s.At(t) == Sleeping(m) ==> m in s.sems && s.sems[m].thread == t)
  {
    RunsKeepInv(schedule);
    var s := Run(schedule);
    LockExcludes(s);
    assert SemInv(s) && PostedInv(s);
    hide Distinct, LockInv;
    forall t | s.At(t) == Posted(m)
      ensures m in s.sems && s.posts[m] == 1
    {
      assert PostedOk(s, t);
    }
    if m in s.sems {
      assert StageOk(s, m);
    }
    forall t | s.At(t) == Posting(m)
      ensures m in s.sems && s.posts[m] == 0
    {
      CriticalIsOwner(s, t);
      assert Pending(s) == Some(m);
      assert StageOk(s, m);
    }
    forall t | s.At(t) == Waiting(m) || s.At(t) == Sleeping(m)
      ensures m in s.sems && s.sems[m].thread == t
    {
      assert UseOk(s, t);
    }
  }

  /** Outside Append, while consumers are queued the list holds no more items than there are signalled consumers
      yet to look at it; so if nobody is coming, consumers wait only for an empty list. */
  lemma NobodyStranded<T(!new)>(schedule: seq<(Tid, Choice<T>)>)
    ensures var s := Run(schedule);
      s.waitQueue != [] && !InAppend(s) ==>
        && |s.list| <= |set t | t in s.pcs && Signalled(s, t)|
        && ((forall t :: !Signalled(s, t)) ==> s.list == [])
  {
    RunsKeepInv(schedule);
    var s := Run(schedule);
    assert StrandInv(s);
    if forall t :: !Signalled(s, t) {
      assert Coming(s) == {};
    }
  }
}
