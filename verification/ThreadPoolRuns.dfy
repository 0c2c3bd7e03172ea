// What the invariant of the hand-off protocol means over whole runs.

module ThreadPoolRuns {
  import opened ThreadPool
  import opened ThreadPoolSteps
  import opened Options

  // ----- whole runs

  lemma StepInv(s: State, t: Step)
    requires Inv(s) && Enabled(s, t)
    ensures Inv(Next(s, t))
  {
    hide Inv, SubEnabled, WorkEnabled, SubStep, WorkStep;
    if SubEnabled(s, t) {
      SubStepInv(s, t);
    } else {
      WorkStepInv(s, t);
    }
  }

  lemma SubStepInv(s: State, t: Step)
    requires Inv(s) && SubEnabled(s, t)
    ensures Inv(SubStep(s, t))
  {
    hide Inv, SubStep;
    match t
    case Submit(i, job) => SubmitInv(s, i, job);
    case SubLock(i) => SubLockInv(s, i);
    case SubTest(i) => SubTestInv(s, i);
    case SubCreate(i, w) => SubCreateInv(s, i, w);
    case SubLockCond(i) => SubLockCondInv(s, i);
    case SubSetFn(i) => SubSetFnInv(s, i);
    case SubSetParam(i) => SubSetParamInv(s, i);
    case SubUnlockCond(i) => SubUnlockCondInv(s, i);
    case SubSignal(i) => SubSignalInv(s, i);
    case SubPop(i) => SubPopInv(s, i);
    case SubUnlock(i) => SubUnlockInv(s, i);
  }

  lemma WorkStepInv(s: State, t: Step)
    requires Inv(s) && WorkEnabled(s, t)
    ensures Inv(WorkStep(s, t))
  {
    hide Inv, WorkStep;
    match t
    case WorkLock(w) => WorkLockInv(s, w);
    case WorkCheck(w) => WorkCheckInv(s, w);
    case WorkUnlock(w) => WorkUnlockInv(s, w);
    case WorkLockCond(w) => WorkLockCondInv(s, w);
    case WorkTest(w) => WorkTestInv(s, w);
    case WorkUnlockCond(w) => WorkUnlockCondInv(s, w);
    case WorkCall(w) => WorkCallInv(s, w);
    case WorkReturn(w) => WorkReturnInv(s, w);
    case WorkClear(w) => WorkClearInv(s, w);
    case WorkFree(w) => WorkFreeInv(s, w);
    case Spurious(w) => SpuriousInv(s, w);
  }

  // A run of the program: any threads, in any order, with any number of spurious wakeups.
  ghost predicate Run(states: seq<State>, steps: seq<Step>) {
    && |states| == |steps| + 1 && Init(states[0])
    && forall n :: 0 <= n < |steps| ==> Enabled(states[n], steps[n]) && states[n + 1] == Next(states[n], steps[n])
  }

  // There is a start for each size of the pool.
  lemma StartExists(size: nat) returns (s: State)
    ensures Init(s) && s.size == size && Run([s], [])
  {
    var slots: seq<nat> := seq(size, w => w);
    var workers := map w | w in slots :: Worker(Loop, None, 0, None, None);
    forall w: nat ensures w in workers <==> w < size {
      if w < size {
        assert slots[w] == w;
      }
    }
    s := State(size, None, [], workers, map[], map[], multiset{});
  }

  lemma {:induction false} RunInv(states: seq<State>, steps: seq<Step>, n: nat)
    requires Run(states, steps) && n < |states|
    ensures Inv(states[n])
  {
    hide Inv, Init, Enabled, Next;
    if n == 0 {
      InitInv(states[0]);
    } else {
      RunInv(states, steps, n - 1);
      StepInv(states[n - 1], steps[n - 1]);
      assert states[n - 1 + 1] == Next(states[n - 1], steps[n - 1]);
    }
  }

  // Every job is called at most once, with its own parameter, and nothing else is called. It has
  // been called when it is running or finished, and not before.
  lemma ExactlyOnce(states: seq<State>, steps: seq<Step>, n: nat)
    requires Run(states, steps) && n < |states|
    ensures var s := states[n];
            && (forall c :: c in s.calls ==> c.0 in s.submitters && c.1 == s.submitters[c.0].job && s.calls[c] == 1)
            && (forall i :: i in s.submitters ==> i in s.place)
            && (forall i :: i in s.submitters ==>
                  ((i, s.submitters[i].job) in s.calls <==> s.place[i].OnWorker? || s.place[i].Finished?))
  {
    var s := states[n];
    RunInv(states, steps, n);
    hide Run, WorkOk, HeaderOk, StackOk;
    forall i | i in s.submitters
      ensures i in s.place
      ensures ((i, s.submitters[i].job) in s.calls <==> s.place[i].OnWorker? || s.place[i].Finished?)
      ensures s.calls[(i, s.submitters[i].job)] <= 1
    {
      KnownSub(s, i);
    }
    forall c | c in s.calls ensures s.calls[c] == 1 {
      assert c == (c.0, s.submitters[c.0].job);
    }
  }

  // A submitted job is with its submitter, in one slot, with one worker, or finished, and no two
  // jobs share a slot or a worker.
  lemma JobsAreKept(states: seq<State>, steps: seq<Step>, n: nat, i: nat)
    requires Run(states, steps) && n < |states| && i in states[n].submitters
    ensures var s := states[n];
            && i in s.place
            && (s.place[i].InSlot? || s.place[i].OnWorker? ==> s.place[i].w in s.workers)
            && (s.place[i].InSlot? || s.place[i].OnWorker? ==>
                  forall j ::
                    j in s.submitters && j in s.place && j != i && (s.place[j].InSlot? || s.place[j].OnWorker?) ==>
                    s.place[j].w != s.place[i].w)
            && (s.place[i].InSlot? ==>
                  s.workers[s.place[i].w].fn == Some(s.submitters[i].job.fn)
                  && s.workers[s.place[i].w].param == s.submitters[i].job.param)
  {
    var s := states[n];
    RunInv(states, steps, n);
    hide Run, Inv, WorkOk, HeaderOk, StackOk, SubOk, PhaseOf;
    KnownSub(s, i);
    forall j | j in s.submitters && j != i && (s.place[i].InSlot? || s.place[i].OnWorker?)
               && (s.place[j].InSlot? || s.place[j].OnWorker?)
      ensures s.place[j].w != s.place[i].w
    {
      KnownSub(s, j);
    }
    if s.place[i].InSlot? {
      SlotHolds(s, i);
    }
  }

  lemma SlotHolds(s: State, i: nat)
    requires Inv(s) && i in s.submitters && i in s.place && s.place[i].InSlot?
    ensures var w := s.place[i].w; w in s.workers && Loaded(s, w, s.workers[w])
  {
    hide Inv, PhaseOf;
    KnownSub(s, i);
    Known(s, s.place[i].w);
    PhaseSub(s, s.place[i].w);
  }

  // A submitter that is about to write its job finds the slot on top empty: no job is overwritten.
  lemma NoJobIsOverwritten(states: seq<State>, steps: seq<Step>, n: nat, i: nat)
    requires Run(states, steps) && n < |states| && SubAt(states[n], i, SetFn)
    ensures var s := states[n];
            && s.stack != [] && Top(s) in s.workers
            && s.workers[Top(s)].fn == None && s.workers[Top(s)].owner == None
            && s.workers[Top(s)].cond == Some(Sub(i))
  {
    RunInv(states, steps, n);
    hide Run, Inv, PhaseOf;
    KnownTop(states[n], i);
  }

  // From line 90 to line 98.
  predicate OnTop(pc: SubPc) {
    HoldsHeader(pc) && pc != Test && pc != Unlock
  }

  // stack_header is at least -1 and below the size of the pool; no slot is on the stack twice; no
  // freed slot is on it; and a submitter behind its test works on a slot that is on the stack.
  lemma StackIsSafe(states: seq<State>, steps: seq<Step>, n: nat)
    requires Run(states, steps) && n < |states|
    ensures var s := states[n];
            && -1 <= |s.stack| - 1 <= s.size - 1
            && (forall a, b :: 0 <= a < b < |s.stack| ==> s.stack[a] != s.stack[b])
            && (forall w :: w in s.stack ==> w in s.workers && s.workers[w].pc != Exiting)
            && (forall i :: i in s.submitters && OnTop(s.submitters[i].pc) ==> s.stack != [] && Top(s) in s.workers)
  {
    var s := states[n];
    RunInv(states, steps, n);
    forall w | w in s.stack ensures w in s.workers && s.workers[w].pc != Exiting {
      if WorkAt(s, w, Exiting) {
        ExitingIsOff(s, w);
      }
    }
    hide Run, Inv, PhaseOf, WorkOk;
    forall i | i in s.submitters && OnTop(s.submitters[i].pc)
      ensures s.stack != [] && Top(s) in s.workers
    {
      KnownTop(s, i);
    }
  }

  // A worker that is asleep with a job in its slot is still to be signalled.
  lemma NoLostWakeup(states: seq<State>, steps: seq<Step>, n: nat, w: nat)
    requires Run(states, steps) && n < |states| && WorkAt(states[n], w, Asleep) && states[n].workers[w].fn != None
    ensures var s := states[n];
            && s.header.Some? && s.header.value.Sub? && s.header.value.id in s.submitters
            && s.stack != [] && Top(s) == w
            && var pc := s.submitters[s.header.value.id].pc; pc == SetParam || pc == UnlockCond || pc == Signal
  {
    var s := states[n];
    RunInv(states, steps, n);
    hide Run, Inv, PhaseOf;
    Known(s, w);
    PhaseMeans(s, w);
  }

  lemma PhaseMeans(s: State, w: nat)
    ensures var p := PhaseOf(s, w);
            p.Filling? || p.Filled? ==>
              && p.i in s.submitters && s.header == Some(Sub(p.i)) && s.stack != [] && Top(s) == w
              && TopPhase(s.submitters[p.i].pc, p.i) == p
  {}
}
