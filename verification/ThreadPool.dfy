// The hand-off protocol of threadpool.c: parked workers on a stack, one lock for the stack, and a
// lock and a condition variable for each worker. One step is what a thread does between two
// points where another can get in.

module ThreadPool {
  import opened Options

  // What task_new is given.
  datatype Job = Job(fn: nat, param: nat)

  datatype Thread = Sub(id: nat) | Work(id: nat)

  // task_new: Start is in front of lines 82 and 87, Test of line 84, Creating of line 86, Want of
  // line 90, and so on to Unlock, which is in front of line 99.
  datatype SubPc = Start | Test | Creating | Want | SetFn | SetParam | UnlockCond | Signal | Pop | Unlock | Returned

  // meta_fn: Loop is in front of line 128, Check of line 130, Pushed of line 132, WantCond of line
  // 134, Waking is in pthread_cond_wait without the lock, Testing is in front of line 135, Leaving
  // of line 139, Calling of line 141, Clearing of line 143, and Exiting of line 150.
  datatype WorkPc =
    Loop | Check | Pushed | WantCond | Testing | Asleep | Waking | Leaving | Calling | Running | Clearing | Exiting

  // A worker's slot. owner is the submitter whose job is in it, which the program does not keep.
  datatype Worker = Worker(pc: WorkPc, fn: Option<nat>, param: nat, cond: Option<Thread>, owner: Option<nat>)

  datatype Submitter = Submitter(pc: SubPc, job: Job)

  // Where a job is: still with its submitter, in a slot, being run, or finished.
  datatype Place = Pending | InSlot(w: nat) | OnWorker(w: nat) | Finished

  // stack is pool_stack up to stack_header; header is who holds stack_header_lock. A slot that is
  // freed is no longer in workers. place and calls are kept for the proof: calls has every call of
  // line 141, with the submitter and what was called.
  datatype State = State(
    size: nat,
    header: Option<Thread>,
    stack: seq<nat>,
    workers: map<nat, Worker>,
    submitters: map<nat, Submitter>,
    place: map<nat, Place>,
    calls: multiset<(nat, Job)>)

  function Top(s: State): nat
    requires s.stack != []
  {
    s.stack[|s.stack| - 1]
  }

  // ----- the steps of a submitter

  function SetSub(s: State, i: nat, pc: SubPc): State
    requires i in s.submitters
  {
    s.(submitters := s.submitters[i := s.submitters[i].(pc := pc)])
  }

  function SetWork(s: State, w: nat, k: Worker): State {
    s.(workers := s.workers[w := k])
  }

  // pc of submitter i is pc.
  predicate SubAt(s: State, i: nat, pc: SubPc) {
    i in s.submitters && s.submitters[i].pc == pc
  }

  predicate WorkAt(s: State, w: nat, pc: WorkPc) {
    w in s.workers && s.workers[w].pc == pc
  }

  datatype Step =
    | Submit(i: nat, job: Job)
    | SubLock(i: nat)
    | SubTest(i: nat)
    | SubCreate(i: nat, w: nat)
    | SubLockCond(i: nat)
    | SubSetFn(i: nat)
    | SubSetParam(i: nat)
    | SubUnlockCond(i: nat)
    | SubSignal(i: nat)
    | SubPop(i: nat)
    | SubUnlock(i: nat)
    | WorkLock(w: nat)
    | WorkCheck(w: nat)
    | WorkUnlock(w: nat)
    | WorkLockCond(w: nat)
    | WorkTest(w: nat)
    | WorkUnlockCond(w: nat)
    | WorkCall(w: nat)
    | WorkReturn(w: nat)
    | WorkClear(w: nat)
    | WorkFree(w: nat)
    | Spurious(w: nat)

  // The submitter has line 84 to 98 before it, and there is a slot on the stack that is not freed.
  predicate SubOnTop(s: State, i: nat, pc: SubPc) {
    SubAt(s, i, pc) && s.stack != [] && Top(s) in s.workers
  }

  predicate SubEnabled(s: State, t: Step) {
    match t
    case Submit(i, _) => i !in s.submitters
    case SubLock(i) => SubAt(s, i, Start) && s.header == None
    case SubTest(i) => SubAt(s, i, Test)
    case SubCreate(i, w) => SubAt(s, i, Creating) && w !in s.workers
    case SubLockCond(i) => SubOnTop(s, i, Want) && s.workers[Top(s)].cond == None
    case SubSetFn(i) => SubOnTop(s, i, SetFn)
    case SubSetParam(i) => SubOnTop(s, i, SetParam)
    case SubUnlockCond(i) => SubOnTop(s, i, UnlockCond)
    case SubSignal(i) => SubOnTop(s, i, Signal)
    case SubPop(i) => SubAt(s, i, Pop) && s.stack != []
    case SubUnlock(i) => SubAt(s, i, Unlock)
    case _ => false
  }

  predicate WorkEnabled(s: State, t: Step) {
    match t
    case WorkLock(w) => WorkAt(s, w, Loop) && s.header == None
    case WorkCheck(w) => WorkAt(s, w, Check)
    case WorkUnlock(w) => WorkAt(s, w, Pushed)
    case WorkLockCond(w) => (WorkAt(s, w, WantCond) || WorkAt(s, w, Waking)) && s.workers[w].cond == None
    case WorkTest(w) => WorkAt(s, w, Testing)
    case WorkUnlockCond(w) => WorkAt(s, w, Leaving)
    case WorkCall(w) => WorkAt(s, w, Calling) && s.workers[w].fn.Some? && s.workers[w].owner.Some?
    case WorkReturn(w) => WorkAt(s, w, Running) && s.workers[w].owner.Some?
    case WorkClear(w) => WorkAt(s, w, Clearing)
    case WorkFree(w) => WorkAt(s, w, Exiting)
    case Spurious(w) => WorkAt(s, w, Asleep)
    case _ => false
  }

  function SubStep(s: State, t: Step): State
    requires SubEnabled(s, t)
  {
    match t
    case Submit(i, job) =>
      s.(submitters := s.submitters[i := Submitter(Start, job)], place := s.place[i := Pending])
    case SubLock(i) => SetSub(s, i, Test).(header := Some(Sub(i)))
    case SubTest(i) => if s.stack == [] then SetSub(s, i, Creating).(header := None) else SetSub(s, i, Want)
    case SubCreate(i, w) => SetWork(SetSub(s, i, Start), w, Worker(Loop, None, 0, None, None))
    case SubLockCond(i) =>
      SetWork(SetSub(s, i, SetFn), Top(s), s.workers[Top(s)].(cond := Some(Sub(i))))
    case SubSetFn(i) =>
      SetWork(SetSub(s, i, SetParam), Top(s), s.workers[Top(s)].(fn := Some(s.submitters[i].job.fn)))
    case SubSetParam(i) =>
      var k := s.workers[Top(s)].(param := s.submitters[i].job.param, owner := Some(i));
      SetWork(SetSub(s, i, UnlockCond), Top(s), k).(place := s.place[i := InSlot(Top(s))])
    case SubUnlockCond(i) => SetWork(SetSub(s, i, Signal), Top(s), s.workers[Top(s)].(cond := None))
    case SubSignal(i) =>
      var k := s.workers[Top(s)];
      SetWork(SetSub(s, i, Pop), Top(s), if k.pc == Asleep then k.(pc := Waking) else k)
    case SubPop(i) => SetSub(s, i, Unlock).(stack := s.stack[..|s.stack| - 1])
    case SubUnlock(i) => SetSub(s, i, Returned).(header := None)
  }

  function WorkStep(s: State, t: Step): State
    requires WorkEnabled(s, t)
  {
    var k := s.workers[t.w];
    match t
    case WorkLock(w) => SetWork(s, w, k.(pc := Check)).(header := Some(Work(w)))
    case WorkCheck(w) =>
      if |s.stack| < s.size then SetWork(s, w, k.(pc := Pushed)).(stack := s.stack + [w])
      else SetWork(s, w, k.(pc := Exiting)).(header := None)
    case WorkUnlock(w) => SetWork(s, w, k.(pc := WantCond)).(header := None)
    case WorkLockCond(w) => SetWork(s, w, k.(pc := Testing, cond := Some(Work(w))))
    case WorkTest(w) =>
      SetWork(s, w, if k.fn == None then k.(pc := Asleep, cond := None) else k.(pc := Leaving))
    case WorkUnlockCond(w) => SetWork(s, w, k.(pc := Calling, cond := None))
    case WorkCall(w) =>
      SetWork(s, w, k.(pc := Running)).(place := s.place[k.owner.value := OnWorker(w)],
                                        calls := s.calls + multiset{(k.owner.value, Job(k.fn.value, k.param))})
    case WorkReturn(w) =>
      SetWork(s, w, k.(pc := Clearing, owner := None)).(place := s.place[k.owner.value := Finished])
    case WorkClear(w) => SetWork(s, w, k.(pc := Loop, fn := None))
    case WorkFree(w) => s.(workers := map v | v in s.workers && v != w :: s.workers[v])
    case Spurious(w) => SetWork(s, w, k.(pc := Waking))
  }

  predicate Enabled(s: State, t: Step) {
    SubEnabled(s, t) || WorkEnabled(s, t)
  }

  function Next(s: State, t: Step): State
    requires Enabled(s, t)
  {
    if SubEnabled(s, t) then SubStep(s, t) else WorkStep(s, t)
  }

  // After pool_init: nobody on the stack, and size workers that have just been created.
  ghost predicate Init(s: State) {
    && s.header == None && s.stack == [] && s.submitters == map[] && s.place == map[] && s.calls == multiset{}
    && (forall w: nat :: w in s.workers <==> w < s.size)
    && forall w :: w in s.workers ==> s.workers[w] == Worker(Loop, None, 0, None, None)
  }

  // ----- the invariant

  // The submitters that hold the lock of the stack.
  predicate HoldsHeader(pc: SubPc) {
    pc != Start && pc != Creating && pc != Returned
  }

  // The submitters that hold the lock of the slot on top.
  predicate HoldsCond(pc: SubPc) {
    pc == SetFn || pc == SetParam || pc == UnlockCond
  }

  // What is going on with a slot. Off: it is not on the stack. Parked: it waits for a job. Filling:
  // a submitter, with the lock of the slot, has begun to put its job in. Filled: the job is in, and
  // the submitter is to signal and to take the slot off the stack.
  datatype Phase = Off | Parked | Filling(i: nat) | Filled(i: nat)

  function PhaseOf(s: State, w: nat): Phase {
    if w !in s.stack then Off
    else if w != Top(s) || !s.header.Some? || !s.header.value.Sub? || s.header.value.id !in s.submitters then Parked
    else
      var i := s.header.value.id;
      match s.submitters[i].pc
      case SetParam => Filling(i)
      case UnlockCond => Filling(i)
      case Signal => Filled(i)
      case Pop => Filled(i)
      case _ => Parked
  }

  predicate StackOk(s: State) {
    && |s.stack| <= s.size
    && (forall a, b :: 0 <= a < b < |s.stack| ==> s.stack[a] != s.stack[b])
    && forall a :: 0 <= a < |s.stack| ==> s.stack[a] in s.workers
  }

  // Who holds the lock of the stack.
  predicate HeaderOk(s: State) {
    && (forall i :: i in s.submitters ==> (HoldsHeader(s.submitters[i].pc) <==> s.header == Some(Sub(i))))
    && (forall w :: w in s.workers ==>
          (s.workers[w].pc == Check || s.workers[w].pc == Pushed <==> s.header == Some(Work(w))))
    && (s.header.Some? ==>
          if s.header.value.Sub? then s.header.value.id in s.submitters else s.header.value.id in s.workers)
  }

  // A submitter behind its test has a slot under its hands.
  predicate SubOk(s: State, i: nat)
    requires i in s.submitters
  {
    var pc := s.submitters[i].pc;
    && (pc == Want || HoldsCond(pc) || pc == Signal || pc == Pop ==> s.stack != [])
    && (HoldsCond(pc) ==> s.stack != [] && Top(s) in s.workers && s.workers[Top(s)].cond == Some(Sub(i)))
    && i in s.place
    && (s.place[i] == Pending <==>
          pc == Start || pc == Test || pc == Creating || pc == Want || pc == SetFn || pc == SetParam)
  }

  // Who holds the lock of a slot.
  predicate CondOk(s: State, w: nat, k: Worker) {
    && (k.cond == Some(Work(w)) <==> k.pc == Testing || k.pc == Leaving)
    && (k.cond.Some? && k.cond.value.Work? ==> k.cond.value.id == w)
    && (k.cond.Some? && k.cond.value.Sub? ==>
          var i := k.cond.value.id;
          i in s.submitters && HoldsCond(s.submitters[i].pc) && s.stack != [] && Top(s) == w)
  }

  predicate Waits(pc: WorkPc) {
    pc == WantCond || pc == Testing || pc == Asleep || pc == Waking
  }

  // Behind its loop at line 135, up to the call.
  predicate Goes(pc: WorkPc) {
    pc == Leaving || pc == Calling
  }

  // The slot holds the job of its owner, which is not called yet.
  predicate Loaded(s: State, w: nat, k: Worker) {
    && k.owner.Some? && k.owner.value in s.submitters && k.owner.value in s.place
    && s.place[k.owner.value] == InSlot(w)
    && k.fn == Some(s.submitters[k.owner.value].job.fn) && k.param == s.submitters[k.owner.value].job.param
  }

  predicate InCall(s: State, w: nat, k: Worker) {
    k.pc == Running && k.fn.Some? && k.owner.Some? && k.owner.value in s.place && s.place[k.owner.value] == OnWorker(w)
  }

  predicate Empty(k: Worker) {
    k.fn == None && k.owner == None
  }

  predicate WorkOk(s: State, w: nat, k: Worker) {
    && CondOk(s, w, k)
    && match PhaseOf(s, w)
       case Off =>
         || (Loaded(s, w, k) && k.pc != Asleep && (Waits(k.pc) || Goes(k.pc)))
         || InCall(s, w, k)
         || (k.pc == Clearing && k.owner == None)
         || (Empty(k) && (k.pc == Loop || k.pc == Check || k.pc == Exiting))
       case Parked => Empty(k) && (k.pc == Pushed || Waits(k.pc))
       case Filling(i) =>
         && k.cond == Some(Sub(i)) && Waits(k.pc) && k.pc != Testing && k.fn == Some(s.submitters[i].job.fn)
         && if s.submitters[i].pc == SetParam then k.owner == None else Loaded(s, w, k)
       case Filled(i) =>
         || (Loaded(s, w, k) && (Waits(k.pc) || Goes(k.pc)) && (k.pc == Asleep ==> s.submitters[i].pc == Signal))
         || InCall(s, w, k)
         || (k.pc == Clearing && k.owner == None)
         || (Empty(k) && k.pc == Loop)
  }

  // Every job is where its place says, and has been called as often as that means.
  predicate PlaceOk(s: State, i: nat)
    requires i in s.submitters && i in s.place
  {
    var p, job := s.place[i], s.submitters[i].job;
    && (p.InSlot? ==> p.w in s.workers && s.workers[p.w].owner == Some(i) && s.workers[p.w].pc != Running)
    && (p.OnWorker? ==> p.w in s.workers && s.workers[p.w].owner == Some(i) && s.workers[p.w].pc == Running)
    && s.calls[(i, job)] == (if p.OnWorker? || p.Finished? then 1 else 0)
  }

  predicate SubPlaced(s: State, i: nat)
    requires i in s.submitters
  {
    SubOk(s, i) && PlaceOk(s, i)
  }

  ghost predicate CallsOk(s: State) {
    forall c :: c in s.calls ==> c.0 in s.submitters && c.1 == s.submitters[c.0].job
  }

  ghost predicate Inv(s: State) {
    && StackOk(s) && HeaderOk(s) && CallsOk(s)
    && (forall i :: i in s.submitters ==> SubPlaced(s, i))
    && (forall i :: i in s.place ==> i in s.submitters)
    && forall w :: w in s.workers ==> WorkOk(s, w, s.workers[w])
  }
}
