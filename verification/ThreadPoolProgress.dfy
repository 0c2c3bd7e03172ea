// From wherever a run of the thread pool has come, each job can still be finished by the threads
// that are there: a schedule is given, and a rank that falls with each of its steps.

module ThreadPoolProgress {
  import opened ThreadPool
  import opened ThreadPoolSteps
  import opened ThreadPoolRuns
  import opened Options

  // A step of the program itself, not of its callers, and not a spurious wakeup.
  predicate Progress(s: State, t: Step) {
    Enabled(s, t) && !t.Submit? && !t.Spurious?
  }

  // The steps lead from s to end.
  ghost predicate Follows(s: State, steps: seq<Step>, end: State)
    decreases |steps|
  {
    if steps == [] then s == end else Progress(s, steps[0]) && Follows(Next(s, steps[0]), steps[1..], end)
  }

  // ----- the rank of a job

  // 1 as long as the slot on top is locked.
  function TopHeld(s: State): nat {
    if s.stack != [] && Top(s) in s.workers && s.workers[Top(s)].cond != None then 1 else 0
  }

  // How many steps the lock of the stack is still held for.
  function HolderRank(s: State): nat {
    match s.header
    case None => 0
    case Some(Work(v)) => if WorkAt(s, v, Check) then 2 else 1
    case Some(Sub(j)) =>
      if j !in s.submitters then 0
      else
        match s.submitters[j].pc
        case Test => 11
        case Want => 8 + TopHeld(s)
        case SetFn => 7
        case SetParam => 6
        case UnlockCond => 5
        case Signal => 4
        case Pop => 3
        case _ => 2
  }

  ghost predicate NewWorker(s: State) {
    exists v :: WorkAt(s, v, Loop)
  }

  // A job that is with its submitter: the submitter waits for the lock of the stack, needs a worker
  // to be parked, or puts the job into the slot on top.
  ghost function PendingRank(s: State, i: nat): nat
    requires i in s.submitters
  {
    match s.submitters[i].pc
    case Start =>
      if s.header.Some? then (if s.header.value.Work? then 17 else 30) + HolderRank(s)
      else if s.stack != [] then 17
      else if NewWorker(s) then 20
      else 23
    case Creating => if s.header.Some? then 30 + HolderRank(s) else 21
    case Test => if s.stack == [] then 22 else 16
    case Want => 14 + TopHeld(s)
    case SetFn => 13
    case _ => 12
  }

  // What a submitter has still to do for the worker on top.
  function TopRank(s: State, w: nat): nat {
    if s.header.Some? && s.header.value.Sub? && s.header.value.id in s.submitters && s.stack != [] && Top(s) == w then
      match s.submitters[s.header.value.id].pc
      case UnlockCond => 2
      case Signal => 1
      case _ => 0
    else 0
  }

  function WorkRank(pc: WorkPc): nat {
    match pc
    case Asleep => 6
    case WantCond => 5
    case Waking => 5
    case Testing => 4
    case Leaving => 3
    case _ => 2
  }

  ghost function Rank(s: State, i: nat): nat
    requires i in s.submitters && i in s.place
  {
    match s.place[i]
    case Pending => PendingRank(s, i)
    case InSlot(w) => if w in s.workers then WorkRank(s.workers[w].pc) + TopRank(s, w) else 0
    case OnWorker(_) => 1
    case Finished => 0
  }

  // t brings job i nearer to its end.
  ghost predicate Nearer(s: State, t: Step, i: nat) {
    && i in s.submitters && i in s.place && Progress(s, t)
    && var s' := Next(s, t);
       i in s'.submitters && i in s'.place && s'.submitters[i].job == s.submitters[i].job && s'.size == s.size
       && Rank(s', i) < Rank(s, i)
  }

  // ----- a job in a slot or with a worker

  lemma RunningEnds(s: State, i: nat)
    requires Inv(s) && i in s.submitters && i in s.place && s.place[i].OnWorker?
    ensures Nearer(s, WorkReturn(s.place[i].w), i)
  {
    hide Inv, SubOk, PhaseOf;
    KnownSub(s, i);
  }

  // A submitter has put its job into slot w, and is to give its lock back or to signal.
  predicate UnderHands(s: State, w: nat) {
    && s.header.Some? && s.header.value.Sub? && s.header.value.id in s.submitters && s.stack != [] && Top(s) == w
    && (SubAt(s, s.header.value.id, UnlockCond) || SubAt(s, s.header.value.id, Signal))
  }

  lemma SlotEnds(s: State, i: nat) returns (t: Step)
    requires Inv(s) && i in s.submitters && i in s.place && s.place[i].InSlot?
    ensures Nearer(s, t, i)
  {
    hide Inv, PhaseOf, SubOk, Nearer, WorkOk, HeaderOk;
    SlotHolds(s, i);
    var w := s.place[i].w;
    if UnderHands(s, w) {
      t := TopEnds(s, i, w);
    } else {
      SlotIsFree(s, i, w);
      t := WorkerEnds(s, i, w);
    }
  }

  lemma TopEnds(s: State, i: nat, w: nat) returns (t: Step)
    requires Inv(s) && i in s.submitters && i in s.place && s.place[i] == InSlot(w) && w in s.workers
    requires Loaded(s, w, s.workers[w]) && UnderHands(s, w)
    ensures Nearer(s, t, i)
  {
    hide Inv, PhaseOf, WorkOk, HeaderOk;
    var j := s.header.value.id;
    t := if SubAt(s, j, UnlockCond) then SubUnlockCond(j) else SubSignal(j);
  }

  // Nobody else has the lock of the slot, and its worker is not asleep.
  lemma SlotIsFree(s: State, i: nat, w: nat)
    requires Inv(s) && i in s.submitters && i in s.place && s.place[i] == InSlot(w) && w in s.workers
    requires Loaded(s, w, s.workers[w])
    requires !UnderHands(s, w)
    ensures var k := s.workers[w];
      && k.owner == Some(i) && (Goes(k.pc) || k.pc == WantCond || k.pc == Waking || k.pc == Testing)
      && (k.pc == WantCond || k.pc == Waking ==> k.cond == None)
  {
    hide Inv, PhaseOf;
    KnownSub(s, i);
    Known(s, w);
    PhaseMeans(s, w);
    if s.workers[w].cond.Some? && s.workers[w].cond.value.Sub? {
      LockedByTop(s, w);
    }
  }

  // A submitter that has the lock of a slot has it under its hands.
  lemma LockedByTop(s: State, w: nat)
    requires Inv(s) && w in s.workers && s.workers[w].cond.Some? && s.workers[w].cond.value.Sub?
    ensures var j := s.workers[w].cond.value.id;
      j in s.submitters && HoldsCond(s.submitters[j].pc) && s.header == Some(Sub(j)) && s.stack != [] && Top(s) == w
      && PhaseOf(s, w) == TopPhase(s.submitters[j].pc, j)
  {
    hide Inv, PhaseOf, WorkOk;
    CondHeld(s, w);
    KnownTop(s, s.workers[w].cond.value.id);
  }

  lemma WorkerEnds(s: State, i: nat, w: nat) returns (t: Step)
    requires i in s.submitters && i in s.place && s.place[i] == InSlot(w) && w in s.workers
    requires Loaded(s, w, s.workers[w]) && s.workers[w].owner == Some(i)
    requires var k := s.workers[w];
      && (Goes(k.pc) || k.pc == WantCond || k.pc == Waking || k.pc == Testing)
      && (k.pc == WantCond || k.pc == Waking ==> k.cond == None)
    ensures Nearer(s, t, i)
  {
    t := match s.workers[w].pc
      case Calling => WorkCall(w)
      case Leaving => WorkUnlockCond(w)
      case Testing => WorkTest(w)
      case _ => WorkLockCond(w);
  }

  // ----- whoever has the lock of the stack

  // Somebody else's step: i stays where it is with its submitter.
  ghost predicate Aside(s: State, s': State, i: nat) {
    && i in s.submitters && i in s.place && i in s'.submitters && i in s'.place && s'.size == s.size
    && s'.submitters[i] == s.submitters[i] && s'.place[i] == s.place[i]
  }

  // The lock comes nearer to being free. A worker leaves somebody on the stack.
  ghost predicate Frees(s: State, s': State) {
    && HolderRank(s) > 0 && (s'.header == None || (s'.header == s.header && HolderRank(s') < HolderRank(s)))
    && (s'.header == None && s.header.Some? && s.header.value.Work? ==> s'.stack != [])
  }

  lemma WorkerFrees(s: State, i: nat, v: nat) returns (t: Step)
    requires Inv(s) && s.header == Some(Work(v)) && s.size > 0 && i in s.submitters && i in s.place
    ensures Progress(s, t) && Frees(s, Next(s, t)) && Aside(s, Next(s, t), i)
  {
    hide Inv, PhaseOf, SubPlaced;
    KnownHeader(s);
    Known(s, v);
    PhaseParked(s, v);
    t := if s.workers[v].pc == Check then WorkCheck(v) else WorkUnlock(v);
  }

  lemma SubmitterFrees(s: State, i: nat, j: nat) returns (t: Step)
    requires Inv(s) && s.header == Some(Sub(j)) && i in s.submitters && i in s.place && i != j
    ensures Progress(s, t) && Frees(s, Next(s, t)) && Aside(s, Next(s, t), i)
  {
    hide Inv, Progress, Next, Frees, Aside, HeaderOk;
    KnownHeader(s);
    HeldBySub(s, j);
    match s.submitters[j].pc
    case Test => t := EndFrees(s, i, j);
    case Want => t := WantFrees(s, i, j);
    case SetFn => t := SlotFrees(s, i, j);
    case SetParam => t := SlotFrees(s, i, j);
    case UnlockCond => t := SlotFrees(s, i, j);
    case Signal => t := SlotFrees(s, i, j);
    case Pop => t := EndFrees(s, i, j);
    case Unlock => t := EndFrees(s, i, j);
  }

  lemma HeldBySub(s: State, j: nat)
    requires HeaderOk(s) && s.header == Some(Sub(j))
    ensures j in s.submitters && HoldsHeader(s.submitters[j].pc)
  {}

  lemma WantFrees(s: State, i: nat, j: nat) returns (t: Step)
    requires Inv(s) && s.header == Some(Sub(j)) && i in s.submitters && i in s.place && i != j && SubAt(s, j, Want)
    ensures Progress(s, t) && Frees(s, Next(s, t)) && Aside(s, Next(s, t), i)
  {
    hide Inv, Progress, Next;
    t := WantGoes(s, i, j);
  }

  lemma SlotFrees(s: State, i: nat, j: nat) returns (t: Step)
    requires Inv(s) && s.header == Some(Sub(j)) && i in s.submitters && i in s.place && i != j && j in s.submitters
    requires var pc := s.submitters[j].pc; HoldsCond(pc) || pc == Signal
    ensures Progress(s, t) && Frees(s, Next(s, t)) && Aside(s, Next(s, t), i)
  {
    hide Inv, PhaseOf, WorkOk, SubPlaced, PlaceOk, HeaderOk;
    KnownTop(s, j);
    SubKnown(s, j);
    t := match s.submitters[j].pc
      case SetFn => SubSetFn(j)
      case SetParam => SubSetParam(j)
      case UnlockCond => SubUnlockCond(j)
      case _ => SubSignal(j);
  }

  lemma EndFrees(s: State, i: nat, j: nat) returns (t: Step)
    requires Inv(s) && s.header == Some(Sub(j)) && i in s.submitters && i in s.place && i != j && j in s.submitters
    requires var pc := s.submitters[j].pc; pc == Test || pc == Pop || pc == Unlock
    ensures Progress(s, t) && Frees(s, Next(s, t)) && Aside(s, Next(s, t), i)
  {
    hide Inv, PhaseOf, WorkOk, SubPlaced, PlaceOk, HeaderOk;
    SubKnown(s, j);
    t := match s.submitters[j].pc
      case Test => SubTest(j)
      case Pop => SubPop(j)
      case _ => SubUnlock(j);
  }

  lemma SubKnown(s: State, j: nat)
    requires Inv(s) && j in s.submitters
    ensures SubOk(s, j)
  {
    hide Inv;
    KnownSub(s, j);
  }

  // The lock of the slot on top is free, or the parked worker gives it back when it finds no job.
  lemma WantGoes(s: State, i: nat, j: nat) returns (t: Step)
    requires Inv(s) && SubAt(s, j, Want) && s.header == Some(Sub(j)) && i in s.submitters && i in s.place
    ensures Progress(s, t)
    ensures var s' := Next(s, t);
      && s'.header == s.header && s'.stack == s.stack && s'.size == s.size && s'.place == s.place
      && (forall x :: x in s.submitters && x != j ==> x in s'.submitters && s'.submitters[x] == s.submitters[x])
      && j in s'.submitters && s'.submitters[j].job == s.submitters[j].job
      && (SubAt(s', j, SetFn) || (SubAt(s', j, Want) && TopHeld(s') < TopHeld(s)))
  {
    hide Inv, PhaseOf, SubPlaced, PlaceOk;
    KnownTop(s, j);
    SubKnown(s, j);
    var w := Top(s);
    if s.workers[w].cond == None {
      t := SubLockCond(j);
    } else {
      if s.workers[w].cond.value.Sub? {
        LockedByTop(s, w);
      }
      t := WorkTest(w);
    }
  }

  // ----- a job that is with its submitter

  lemma HolderEnds(s: State, i: nat) returns (t: Step)
    requires Inv(s) && s.size > 0 && i in s.submitters && i in s.place && s.place[i] == Pending && s.header.Some?
    requires s.submitters[i].pc == Start || s.submitters[i].pc == Creating
    ensures Nearer(s, t, i)
  {
    hide Inv, PhaseOf, WorkOk, Enabled, Next, HolderRank;
    KnownHeader(s);
    match s.header.value
    case Work(v) =>
      t := WorkerFrees(s, i, v);
    case Sub(j) =>
      t := SubmitterFrees(s, i, j);
  }

  lemma PendingEnds(s: State, i: nat) returns (t: Step)
    requires Inv(s) && s.size > 0 && i in s.submitters && i in s.place && s.place[i] == Pending
    ensures Nearer(s, t, i)
  {
    hide Inv, PhaseOf, WorkOk, HeaderOk, Nearer, PlaceOk;
    KnownSub(s, i);
    match s.submitters[i].pc
    case Start => t := StartEnds(s, i);
    case Creating => t := CreatingEnds(s, i);
    case Test => t := FillingEnds(s, i);
    case Want => t := FillingEnds(s, i);
    case SetFn => t := FillingEnds(s, i);
    case SetParam => t := FillingEnds(s, i);
  }

  lemma StartEnds(s: State, i: nat) returns (t: Step)
    requires Inv(s) && s.size > 0 && i in s.place && s.place[i] == Pending && SubAt(s, i, Start)
    ensures Nearer(s, t, i)
  {
    hide Inv, PhaseOf, WorkOk, HeaderOk;
    if s.header.Some? {
      hide Nearer;
      t := HolderEnds(s, i);
    } else if s.stack == [] && NewWorker(s) {
      var v :| WorkAt(s, v, Loop);
      t := WorkLock(v);
    } else {
      t := SubLock(i);
    }
  }

  lemma CreatingEnds(s: State, i: nat) returns (t: Step)
    requires Inv(s) && s.size > 0 && i in s.place && s.place[i] == Pending && SubAt(s, i, Creating)
    ensures Nearer(s, t, i)
  {
    hide Inv, PhaseOf, WorkOk, HeaderOk;
    if s.header.Some? {
      hide Nearer;
      t := HolderEnds(s, i);
    } else {
      var w := FreshId(s.workers.Keys);
      t := SubCreate(i, w);
      assert WorkAt(Next(s, t), w, Loop);
    }
  }

  lemma FreshId(used: set<nat>) returns (n: nat)
    ensures forall m :: m in used ==> m < n
  {
    if used == {} {
      n := 0;
    } else {
      var m :| m in used;
      var k := FreshId(used - {m});
      n := if k <= m then m + 1 else k;
      assert forall x :: x in used ==> x == m || x in used - {m};
    }
  }

  lemma FillingEnds(s: State, i: nat) returns (t: Step)
    requires Inv(s) && i in s.submitters && i in s.place && s.place[i] == Pending
    requires var pc := s.submitters[i].pc; pc == Test || pc == Want || pc == SetFn || pc == SetParam
    ensures Nearer(s, t, i)
  {
    hide Inv, Nearer, WorkOk, HeaderOk;
    match s.submitters[i].pc
    case Test => t := SubTest(i); TestEnds(s, i);
    case Want => t := WantEnds(s, i);
    case SetFn => t := SubSetFn(i); SlotIsFilled(s, i, t);
    case SetParam => t := SubSetParam(i); SlotIsFilled(s, i, t);
  }

  lemma TestEnds(s: State, i: nat)
    requires SubAt(s, i, Test) && i in s.place && s.place[i] == Pending
    ensures Nearer(s, SubTest(i), i)
  {}

  lemma WantEnds(s: State, i: nat) returns (t: Step)
    requires Inv(s) && SubAt(s, i, Want) && i in s.place && s.place[i] == Pending
    ensures Nearer(s, t, i)
  {
    hide Inv, Enabled, Next, HeaderOk;
    KnownHeader(s);
    HeldByWant(s, i);
    t := WantGoes(s, i, i);
  }

  lemma HeldByWant(s: State, i: nat)
    requires HeaderOk(s) && SubAt(s, i, Want)
    ensures s.header == Some(Sub(i))
  {}

  lemma SlotIsFilled(s: State, i: nat, t: Step)
    requires Inv(s) && i in s.place && s.place[i] == Pending && t in {SubSetFn(i), SubSetParam(i)}
    requires SubAt(s, i, if t.SubSetFn? then SetFn else SetParam)
    ensures Nearer(s, t, i)
  {
    hide Inv, PhaseOf, WorkOk, PlaceOk, SubPlaced, HeaderOk;
    KnownTop(s, i);
    SubKnown(s, i);
  }

  // ----- a whole schedule

  lemma OneStep(s: State, i: nat) returns (t: Step)
    requires Inv(s) && s.size > 0 && i in s.submitters && i in s.place && s.place[i] != Finished
    ensures Nearer(s, t, i)
  {
    hide Inv, Nearer;
    match s.place[i]
    case Pending => t := PendingEnds(s, i);
    case InSlot(_) => t := SlotEnds(s, i);
    case OnWorker(_) => RunningEnds(s, i); t := WorkReturn(s.place[i].w);
  }

  lemma {:induction false} CanFinish(s: State, i: nat) returns (steps: seq<Step>, end: State)
    requires Inv(s) && s.size > 0 && i in s.submitters && i in s.place
    ensures Follows(s, steps, end) && i in end.place && end.place[i] == Finished
    decreases Rank(s, i)
  {
    hide Inv, Rank, Enabled, Next;
    if s.place[i] == Finished {
      steps, end := [], s;
    } else {
      var t := OneStep(s, i);
      StepInv(s, t);
      var more;
      more, end := CanFinish(Next(s, t), i);
      steps := [t] + more;
    }
  }

  // ----- a pool without places

  // With no place on the stack no submitter ever passes its test.
  ghost predicate NoPlace(s: State) {
    && s.size == 0 && s.stack == []
    && forall i :: i in s.submitters ==>
      i in s.place && s.place[i] == Pending
      && var pc := s.submitters[i].pc; pc == Start || pc == Test || pc == Creating
  }

  lemma NoPlaceStays(s: State, t: Step)
    requires Inv(s) && NoPlace(s) && Enabled(s, t)
    ensures NoPlace(Next(s, t))
  {
    hide Inv, NoPlace, SubEnabled, WorkEnabled, SubStep, WorkStep;
    if SubEnabled(s, t) {
      SubNoPlace(s, t);
    } else {
      WorkNoPlace(s, t);
    }
  }

  lemma SubNoPlace(s: State, t: Step)
    requires NoPlace(s) && SubEnabled(s, t)
    ensures NoPlace(SubStep(s, t))
  {
    var s' := SubStep(s, t);
    assert t.Submit? || t.SubLock? || t.SubTest? || t.SubCreate?;
    assert s'.submitters == s.submitters[t.i := s'.submitters[t.i]];
  }

  lemma WorkNoPlace(s: State, t: Step)
    requires Inv(s) && NoPlace(s) && WorkEnabled(s, t)
    ensures NoPlace(WorkStep(s, t))
  {
    hide Inv;
    NoOwner(s, t.w);
  }

  lemma NoOwner(s: State, w: nat)
    requires Inv(s) && NoPlace(s) && w in s.workers
    ensures s.workers[w].owner == None
  {
    hide Inv;
    Known(s, w);
  }

  lemma {:induction false} NoPlaceFollows(s: State, steps: seq<Step>, end: State)
    requires Inv(s) && NoPlace(s) && Follows(s, steps, end)
    ensures NoPlace(end) && Inv(end)
    decreases |steps|
  {
    hide Inv, NoPlace, Enabled, Next;
    if steps != [] {
      NoPlaceStays(s, steps[0]);
      StepInv(s, steps[0]);
      NoPlaceFollows(Next(s, steps[0]), steps[1..], end);
    }
  }

  lemma {:induction false} RunHasNoPlace(states: seq<State>, steps: seq<Step>, n: nat)
    requires Run(states, steps) && n < |states| && states[n].size == 0
    ensures NoPlace(states[n])
  {
    hide Inv, Enabled, Next;
    if n > 0 {
      RunInv(states, steps, n - 1);
      SizeStays(states[n - 1], steps[n - 1]);
      RunHasNoPlace(states, steps, n - 1);
      NoPlaceStays(states[n - 1], steps[n - 1]);
      assert states[n - 1 + 1] == Next(states[n - 1], steps[n - 1]);
    }
  }

  lemma PlacedIsPending(s: State, i: nat)
    requires Inv(s) && NoPlace(s) && i in s.place
    ensures s.place[i] == Pending
  {}

  lemma SizeStays(s: State, t: Step)
    requires Enabled(s, t)
    ensures Next(s, t).size == s.size
  {}

  // From every state of every run a job can be finished by a finite number of steps of the program
  // itself, exactly if the pool has a place.
  lemma NeverStuck(states: seq<State>, steps: seq<Step>, n: nat, i: nat)
    requires Run(states, steps) && n < |states| && i in states[n].submitters
    ensures (exists more, end :: Follows(states[n], more, end) && i in end.place && end.place[i] == Finished)
      <==> states[n].size > 0
  {
    hide Inv, Follows, NoPlace;
    RunInv(states, steps, n);
    KnownSub(states[n], i);
    if states[n].size > 0 {
      var more, end := CanFinish(states[n], i);
    } else {
      RunHasNoPlace(states, steps, n);
      forall more, end | Follows(states[n], more, end) && i in end.place ensures end.place[i] != Finished {
        NoPlaceFollows(states[n], more, end);
        PlacedIsPending(end, i);
      }
    }
  }

  // From the start of a pool with a place a job that is submitted can be finished, and is called then.
  lemma FirstJob(size: nat, job: Job) returns (start: State, more: seq<Step>, end: State)
    requires size > 0
    ensures Init(start) && start.size == size && Enabled(start, Submit(0, job))
    ensures Follows(Next(start, Submit(0, job)), more, end)
    ensures 0 in end.place && end.place[0] == Finished
  {
    hide Inv, Follows;
    start := StartExists(size);
    InitInv(start);
    var s := Next(start, Submit(0, job));
    StepInv(start, Submit(0, job));
    KnownSub(s, 0);
    more, end := CanFinish(s, 0);
  }
}
