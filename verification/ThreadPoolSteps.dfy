// Every step of the hand-off protocol keeps its invariant.

module ThreadPoolSteps {
  import opened ThreadPool
  import opened Options

  lemma InitInv(s: State)
    requires Init(s)
    ensures Inv(s)
  {}

  // ----- what a step leaves alone

  // The jobs of the submitters do not change.
  predicate SameJobs(s: State, s': State) {
    forall i :: i in s.submitters ==> i in s'.submitters && s'.submitters[i].job == s.submitters[i].job
  }

  // All that matters for slot v is as before.
  predicate Kept(s: State, s': State, v: nat)
    requires v in s.workers
  {
    var k, phase := s.workers[v], PhaseOf(s, v);
    && v in s'.workers && s'.workers[v] == k && PhaseOf(s', v) == phase
    && (k.cond.Some? && k.cond.value.Sub? ==>
          var i := k.cond.value.id;
          i in s'.submitters && HoldsCond(s'.submitters[i].pc) && s'.stack != [] && Top(s') == v)
    && (phase.Filling? || phase.Filled? ==>
          phase.i in s.submitters && phase.i in s'.submitters && s'.submitters[phase.i].pc == s.submitters[phase.i].pc)
    && (k.owner.Some? && k.owner.value in s.place ==>
          k.owner.value in s'.place && s'.place[k.owner.value] == s.place[k.owner.value])
  }

  lemma WorkSame(s: State, s': State, v: nat)
    requires v in s.workers && WorkOk(s, v, s.workers[v]) && SameJobs(s, s') && Kept(s, s', v)
    ensures WorkOk(s', v, s'.workers[v])
  {
    hide PhaseOf, Top;
  }

  // A step that changes one slot, w.
  ghost predicate OnlySlot(s: State, s': State, w: nat) {
    && w in s'.workers
    && forall v :: v != w ==> (v in s.workers <==> v in s'.workers) && (v in s.workers ==> Kept(s, s', v))
  }

  lemma SlotsOk(s: State, s': State, w: nat)
    requires Inv(s) && SameJobs(s, s') && OnlySlot(s, s', w) && WorkOk(s', w, s'.workers[w])
    ensures forall v :: v in s'.workers ==> WorkOk(s', v, s'.workers[v])
  {
    hide WorkOk, Kept;
    forall v | v in s'.workers ensures WorkOk(s', v, s'.workers[v]) {
      if v != w {
        WorkSame(s, s', v);
      }
    }
  }

  // Two slots do not have the same owner.
  lemma OwnersDiffer(s: State, v: nat, w: nat)
    requires Inv(s) && v in s.workers && w in s.workers && v != w && s.workers[w].owner.Some?
    ensures s.workers[v].owner != s.workers[w].owner
  {
    hide Inv;
    OwnerPlace(s, w);
    if s.workers[v].owner.Some? {
      OwnerPlace(s, v);
    }
  }

  // A slot with an owner is where the owner's job is.
  lemma OwnerPlace(s: State, w: nat)
    requires Inv(s) && w in s.workers && s.workers[w].owner.Some?
    ensures var i := s.workers[w].owner.value;
            i in s.submitters && i in s.place && (s.place[i] == InSlot(w) || s.place[i] == OnWorker(w))
  {
    hide PhaseOf, StackOk, HeaderOk, CallsOk, SubOk, PlaceOk, CondOk;
    assert WorkOk(s, w, s.workers[w]);
    PhaseSub(s, w);
  }

  lemma PhaseSub(s: State, w: nat)
    ensures var p := PhaseOf(s, w); p.Filling? || p.Filled? ==> p.i in s.submitters
  {}

  // ----- steps of a worker that do not touch the stack or its lock

  // A place that is not the owner's is as before, and so are the other submitters' calls.
  ghost predicate OthersPlaced(s: State, s': State, owner: Option<nat>) {
    && s'.place.Keys == s.place.Keys
    && (forall i :: i in s.place && owner != Some(i) ==> s'.place[i] == s.place[i])
    && (forall c: (nat, Job) :: owner != Some(c.0) ==> s'.calls[c] == s.calls[c])
  }

  ghost predicate SlotStep(s: State, s': State, w: nat) {
    && w in s.workers && w in s'.workers
    && s' == s.(workers := s.workers[w := s'.workers[w]], place := s'.place, calls := s'.calls)
    && OthersPlaced(s, s', s.workers[w].owner)
    && var k, k' := s.workers[w], s'.workers[w];
       && k.pc != Check && k.pc != Pushed && k'.pc != Check && k'.pc != Pushed
       && ((k.cond.Some? && k.cond.value.Sub?) || (k'.cond.Some? && k'.cond.value.Sub?) ==> k'.cond == k.cond)
       && (k'.owner == k.owner || k'.owner == None)
       && WorkOk(s', w, k')
       && (k.owner.Some? ==>
             var i := k.owner.value;
             i in s.submitters && i in s.place && s.place[i] != Pending && s'.place[i] != Pending && PlaceOk(s', i)
             && (forall c: (nat, Job) :: c in s'.calls && c.0 == i ==> c.1 == s.submitters[i].job))
  }

  lemma SlotStepInv(s: State, s': State, w: nat)
    requires Inv(s) && SlotStep(s, s', w)
    ensures Inv(s')
  {
    SlotStepSlots(s, s', w);
    SlotStepRest(s, s', w);
    SlotStepSubs(s, s', w);
  }

  lemma SlotStepSlots(s: State, s': State, w: nat)
    requires Inv(s) && SlotStep(s, s', w)
    ensures forall v :: v in s'.workers ==> WorkOk(s', v, s'.workers[v])
  {
    hide Inv, WorkOk, PlaceOk;
    forall v | v in s.workers && v != w ensures Kept(s, s', v) {
      SlotStepKeeps(s, s', w, v);
    }
    SlotsOk(s, s', w);
  }

  lemma SlotStepKeeps(s: State, s': State, w: nat, v: nat)
    requires Inv(s) && SlotStep(s, s', w) && v in s.workers && v != w
    ensures Kept(s, s', v)
  {
    hide Inv, PlaceOk;
    PhaseSub(s, v);
    CondHeld(s, v);
    if s.workers[w].owner.Some? {
      OwnersDiffer(s, v, w);
    }
    assert PhaseOf(s', v) == PhaseOf(s, v);
  }

  lemma CondHeld(s: State, v: nat)
    requires Inv(s) && v in s.workers
    ensures CondOk(s, v, s.workers[v])
  {}

  lemma SlotStepRest(s: State, s': State, w: nat)
    requires Inv(s) && SlotStep(s, s', w)
    ensures StackOk(s') && HeaderOk(s') && CallsOk(s') && forall i :: i in s'.place ==> i in s'.submitters
  {
    hide WorkOk, SubOk, PlaceOk;
    forall c | c in s'.calls ensures c.0 in s'.submitters && c.1 == s'.submitters[c.0].job {
      if s.workers[w].owner != Some(c.0) {
        assert s.calls[c] == s'.calls[c];
      }
    }
  }

  lemma SlotStepSubs(s: State, s': State, w: nat)
    requires Inv(s) && SlotStep(s, s', w)
    ensures s'.submitters == s.submitters && forall i :: i in s'.submitters ==> SubPlaced(s', i)
  {
    hide Inv, OthersPlaced, WorkOk, PlaceOk, SubPlaced;
    forall i | i in s'.submitters ensures SubPlaced(s', i) {
      KnownSub(s, i);
      SlotStepSub(s, s', w, i);
    }
  }

  lemma SlotStepSub(s: State, s': State, w: nat, i: nat)
    requires SlotStep(s, s', w) && i in s.submitters && SubPlaced(s, i)
    ensures SubPlaced(s', i)
  {
    hide WorkOk;
    if s.workers[w].owner != Some(i) {
      assert s'.calls[(i, s.submitters[i].job)] == s.calls[(i, s.submitters[i].job)];
    }
  }

  // What the invariant says of one slot and of its owner.
  lemma Known(s: State, w: nat)
    requires Inv(s) && w in s.workers
    ensures var k := s.workers[w];
            && WorkOk(s, w, k)
            && (k.owner.Some? ==>
                  var i := k.owner.value;
                  && i in s.submitters && i in s.place && PlaceOk(s, i)
                  && (s.place[i] == InSlot(w) || s.place[i] == OnWorker(w))
                  && (forall c :: c in s.calls && c.0 == i ==> c.1 == s.submitters[i].job))
  {
    hide WorkOk, PlaceOk;
    if s.workers[w].owner.Some? {
      OwnerPlace(s, w);
    }
  }

  lemma PhaseSame(s: State, s': State, w: nat)
    requires s'.stack == s.stack && s'.header == s.header && s'.submitters == s.submitters
    ensures PhaseOf(s', w) == PhaseOf(s, w)
    ensures var p := PhaseOf(s, w); p.Filling? || p.Filled? ==> p.i in s.submitters
    ensures PhaseOf(s, w).Filled? ==>
      s.submitters[PhaseOf(s, w).i].pc == Signal || s.submitters[PhaseOf(s, w).i].pc == Pop
  {}

  lemma WorkLockCondInv(s: State, w: nat)
    requires Inv(s) && WorkEnabled(s, WorkLockCond(w))
    ensures Inv(WorkStep(s, WorkLockCond(w)))
  {
    hide Inv, PhaseOf;
    var s' := WorkStep(s, WorkLockCond(w));
    Known(s, w);
    PhaseSame(s, s', w);
    SlotStepInv(s, s', w);
  }

  lemma WorkTestInv(s: State, w: nat)
    requires Inv(s) && WorkEnabled(s, WorkTest(w))
    ensures Inv(WorkStep(s, WorkTest(w)))
  {
    hide Inv, PhaseOf;
    var s' := WorkStep(s, WorkTest(w));
    Known(s, w);
    PhaseSame(s, s', w);
    SlotStepInv(s, s', w);
  }

  lemma WorkUnlockCondInv(s: State, w: nat)
    requires Inv(s) && WorkEnabled(s, WorkUnlockCond(w))
    ensures Inv(WorkStep(s, WorkUnlockCond(w)))
  {
    hide Inv, PhaseOf;
    var s' := WorkStep(s, WorkUnlockCond(w));
    Known(s, w);
    PhaseSame(s, s', w);
    SlotStepInv(s, s', w);
  }

  lemma WorkCallInv(s: State, w: nat)
    requires Inv(s) && WorkEnabled(s, WorkCall(w))
    ensures Inv(WorkStep(s, WorkCall(w)))
  {
    hide Inv, PhaseOf;
    var s' := WorkStep(s, WorkCall(w));
    Known(s, w);
    PhaseSame(s, s', w);
    SlotStepInv(s, s', w);
  }

  lemma WorkReturnInv(s: State, w: nat)
    requires Inv(s) && WorkEnabled(s, WorkReturn(w))
    ensures Inv(WorkStep(s, WorkReturn(w)))
  {
    hide Inv, PhaseOf;
    var s' := WorkStep(s, WorkReturn(w));
    Known(s, w);
    PhaseSame(s, s', w);
    SlotStepInv(s, s', w);
  }

  lemma WorkClearInv(s: State, w: nat)
    requires Inv(s) && WorkEnabled(s, WorkClear(w))
    ensures Inv(WorkStep(s, WorkClear(w)))
  {
    hide Inv, PhaseOf;
    var s' := WorkStep(s, WorkClear(w));
    Known(s, w);
    PhaseSame(s, s', w);
    SlotStepInv(s, s', w);
  }

  lemma SpuriousInv(s: State, w: nat)
    requires Inv(s) && WorkEnabled(s, Spurious(w))
    ensures Inv(WorkStep(s, Spurious(w)))
  {
    hide Inv, PhaseOf;
    var s' := WorkStep(s, Spurious(w));
    Known(s, w);
    PhaseSame(s, s', w);
    SlotStepInv(s, s', w);
  }

  // ----- steps of a worker that take or give up the lock of the stack

  ghost predicate NoSub(header: Option<Thread>) {
    header.Some? ==> header.value.Work?
  }

  lemma PhaseParked(s: State, w: nat)
    requires NoSub(s.header)
    ensures PhaseOf(s, w) == if w in s.stack then Parked else Off
  {}

  ghost predicate HeaderStep(s: State, s': State, w: nat) {
    && w in s.workers && w in s'.workers
    && s' == s.(workers := s.workers[w := s.workers[w].(pc := s'.workers[w].pc)], header := s'.header)
    && NoSub(s.header) && NoSub(s'.header) && HeaderOk(s') && WorkOk(s', w, s'.workers[w])
    && s.workers[w].pc != Running && s'.workers[w].pc != Running
  }

  lemma HeaderStepInv(s: State, s': State, w: nat)
    requires Inv(s) && HeaderStep(s, s', w)
    ensures Inv(s')
  {
    hide WorkOk, HeaderOk, CallsOk, SubOk, PlaceOk;
    HeaderStepSlots(s, s', w);
    HeaderStepSubs(s, s', w);
    SameCalls(s, s');
  }

  lemma HeaderStepSubs(s: State, s': State, w: nat)
    requires Inv(s) && HeaderStep(s, s', w)
    ensures forall i :: i in s'.submitters ==> SubPlaced(s', i)
  {
    hide Inv, WorkOk, HeaderOk, SubPlaced;
    forall i | i in s'.submitters ensures SubPlaced(s', i) {
      KnownSub(s, i);
      SubSame(s, s', i);
    }
  }

  lemma SameCalls(s: State, s': State)
    requires Inv(s) && s'.calls == s.calls && SameJobs(s, s')
    ensures CallsOk(s')
  {}

  lemma KnownSub(s: State, i: nat)
    requires Inv(s) && i in s.submitters
    ensures SubPlaced(s, i) && i in s.place
  {}

  // A submitter in whose sight nothing has changed.
  predicate Unseen(s: State, s': State, i: nat)
    requires i in s.submitters && i in s.place
  {
    var pc, p := s.submitters[i].pc, s.place[i];
    && i in s'.submitters && s'.submitters[i] == s.submitters[i] && i in s'.place && s'.place[i] == p
    && s'.calls == s.calls
    && (HoldsHeader(pc) && pc != Test && pc != Unlock ==> s'.stack == s.stack)
    && (HoldsCond(pc) && s.stack != [] && Top(s) in s.workers ==>
          Top(s) in s'.workers && s'.workers[Top(s)].cond == s.workers[Top(s)].cond)
    && ((p.InSlot? || p.OnWorker?) && p.w in s.workers ==>
          p.w in s'.workers && s'.workers[p.w].owner == s.workers[p.w].owner
          && (s'.workers[p.w].pc == Running <==> s.workers[p.w].pc == Running))
  }

  lemma SubSame(s: State, s': State, i: nat)
    requires i in s.submitters && SubPlaced(s, i) && Unseen(s, s', i)
    ensures SubPlaced(s', i)
  {}

  lemma HeaderStepSlots(s: State, s': State, w: nat)
    requires Inv(s) && HeaderStep(s, s', w)
    ensures forall v :: v in s'.workers ==> WorkOk(s', v, s'.workers[v])
  {
    hide Inv, WorkOk, HeaderOk, PhaseOf;
    forall v | v in s.workers && v != w ensures Kept(s, s', v) {
      PhaseParked(s, v);
      PhaseParked(s', v);
      CondHeld(s, v);
    }
    SlotsOk(s, s', w);
  }

  lemma KnownHeader(s: State)
    requires Inv(s)
    ensures HeaderOk(s)
  {}

  lemma WorkLockInv(s: State, w: nat)
    requires Inv(s) && WorkEnabled(s, WorkLock(w))
    ensures Inv(WorkStep(s, WorkLock(w)))
  {
    hide Inv, PhaseOf;
    var s' := WorkStep(s, WorkLock(w));
    Known(s, w);
    KnownHeader(s);
    PhaseParked(s, w);
    PhaseParked(s', w);
    HeaderStepInv(s, s', w);
  }

  lemma WorkUnlockInv(s: State, w: nat)
    requires Inv(s) && WorkEnabled(s, WorkUnlock(w))
    ensures Inv(WorkStep(s, WorkUnlock(w)))
  {
    hide Inv, PhaseOf;
    var s' := WorkStep(s, WorkUnlock(w));
    Known(s, w);
    KnownHeader(s);
    PhaseParked(s, w);
    PhaseParked(s', w);
    HeaderStepInv(s, s', w);
  }

  lemma WorkCheckInv(s: State, w: nat)
    requires Inv(s) && WorkEnabled(s, WorkCheck(w))
    ensures Inv(WorkStep(s, WorkCheck(w)))
  {
    hide Inv, PhaseOf;
    var s' := WorkStep(s, WorkCheck(w));
    Known(s, w);
    KnownHeader(s);
    PhaseParked(s, w);
    PhaseParked(s', w);
    if |s.stack| < s.size {
      PushInv(s, w);
    } else {
      HeaderStepInv(s, s', w);
    }
  }

  lemma PushInv(s: State, w: nat)
    requires Inv(s) && WorkEnabled(s, WorkCheck(w)) && |s.stack| < s.size && w !in s.stack
    ensures Inv(WorkStep(s, WorkCheck(w)))
  {
    hide WorkOk, PhaseOf, CallsOk, SubOk, PlaceOk;
    var s' := WorkStep(s, WorkCheck(w));
    PushSlots(s, w);
    PushSubs(s, w);
    SameCalls(s, s');
  }

  lemma PushSubs(s: State, w: nat)
    requires Inv(s) && WorkEnabled(s, WorkCheck(w)) && |s.stack| < s.size && w !in s.stack
    ensures var s' := WorkStep(s, WorkCheck(w)); forall i :: i in s'.submitters ==> SubPlaced(s', i)
  {
    hide Inv, WorkOk, SubPlaced;
    var s' := WorkStep(s, WorkCheck(w));
    KnownHeader(s);
    forall i | i in s'.submitters ensures SubPlaced(s', i) {
      KnownSub(s, i);
      SubSame(s, s', i);
    }
  }

  lemma PushSlots(s: State, w: nat)
    requires Inv(s) && WorkEnabled(s, WorkCheck(w)) && |s.stack| < s.size && w !in s.stack
    ensures var s' := WorkStep(s, WorkCheck(w)); forall v :: v in s'.workers ==> WorkOk(s', v, s'.workers[v])
  {
    hide Inv, WorkOk, PhaseOf;
    var s' := WorkStep(s, WorkCheck(w));
    KnownHeader(s);
    forall v | v in s.workers && v != w ensures Kept(s, s', v) {
      PhaseParked(s, v);
      PhaseParked(s', v);
      CondHeld(s, v);
      HeldByOther(s, v);
    }
    PushedOk(s, w);
    SlotsOk(s, s', w);
  }

  // While a worker has the lock of the stack no submitter has the lock of a slot.
  lemma HeldByOther(s: State, v: nat)
    requires Inv(s) && v in s.workers && NoSub(s.header)
    ensures s.workers[v].cond.Some? ==> s.workers[v].cond.value.Work?
  {
    CondHeld(s, v);
  }

  lemma PushedOk(s: State, w: nat)
    requires Inv(s) && WorkEnabled(s, WorkCheck(w)) && |s.stack| < s.size && w !in s.stack
    ensures var s' := WorkStep(s, WorkCheck(w)); WorkOk(s', w, s'.workers[w])
  {
    hide Inv, PhaseOf;
    var s' := WorkStep(s, WorkCheck(w));
    Known(s, w);
    KnownHeader(s);
    PhaseParked(s, w);
    PhaseParked(s', w);
    HeldByOther(s, w);
  }

  lemma WorkFreeInv(s: State, w: nat)
    requires Inv(s) && WorkEnabled(s, WorkFree(w))
    ensures Inv(WorkStep(s, WorkFree(w)))
  {
    hide WorkOk, PhaseOf, CallsOk, SubOk, PlaceOk;
    var s' := WorkStep(s, WorkFree(w));
    ExitingIsOff(s, w);
    FreeSlots(s, w);
    FreeSubs(s, w);
    SameCalls(s, s');
  }

  lemma FreeSubs(s: State, w: nat)
    requires Inv(s) && WorkEnabled(s, WorkFree(w)) && w !in s.stack && s.workers[w].owner == None
    ensures var s' := WorkStep(s, WorkFree(w)); forall i :: i in s'.submitters ==> SubPlaced(s', i)
  {
    hide Inv, WorkOk, SubOk;
    var s' := WorkStep(s, WorkFree(w));
    forall i | i in s'.submitters ensures SubPlaced(s', i) {
      KnownSub(s, i);
      SubSame(s, s', i);
    }
  }

  lemma ExitingIsOff(s: State, w: nat)
    requires Inv(s) && WorkAt(s, w, Exiting)
    ensures w !in s.stack && s.workers[w].owner == None && s.workers[w].cond != Some(Work(w))
  {
    hide Inv, PhaseOf;
    Known(s, w);
    OffIsOff(s, w);
  }

  lemma OffIsOff(s: State, w: nat)
    ensures PhaseOf(s, w) == Off <==> w !in s.stack
  {}

  lemma FreeSlots(s: State, w: nat)
    requires Inv(s) && WorkEnabled(s, WorkFree(w)) && w !in s.stack
    ensures var s' := WorkStep(s, WorkFree(w)); forall v :: v in s'.workers ==> WorkOk(s', v, s'.workers[v])
  {
    hide Inv, WorkOk, PhaseOf;
    var s' := WorkStep(s, WorkFree(w));
    forall v | v in s'.workers ensures WorkOk(s', v, s'.workers[v]) {
      Known(s, v);
      PhaseSame(s, s', v);
      CondHeld(s, v);
      WorkSame(s, s', v);
    }
  }

  // ----- steps of a submitter

  // The phase of a slot by what the submitter that has the lock of the stack is doing.
  function TopPhase(pc: SubPc, i: nat): Phase {
    match pc
    case SetParam => Filling(i)
    case UnlockCond => Filling(i)
    case Signal => Filled(i)
    case Pop => Filled(i)
    case _ => Parked
  }

  lemma PhaseUnder(s: State, i: nat, w: nat)
    requires i in s.submitters && s.header == Some(Sub(i))
    ensures PhaseOf(s, w) ==
      if w !in s.stack then Off else if w == Top(s) then TopPhase(s.submitters[i].pc, i) else Parked
  {}

  // A submitter step: submitter i moves on, and only the slot on top changes.
  ghost predicate SubMove(s: State, s': State, i: nat) {
    && i in s.submitters && i in s'.submitters && s'.submitters == s.submitters[i := s'.submitters[i]]
    && s'.submitters[i].job == s.submitters[i].job
    && s'.size == s.size && s'.calls == s.calls && HeaderOk(s')
    && (forall j :: j != i ==> (j in s.place <==> j in s'.place) && (j in s.place ==> s'.place[j] == s.place[j]))
  }

  // Steps with the lock of the stack before and after, which work on the slot on top.
  ghost predicate TopMove(s: State, s': State, i: nat) {
    && SubMove(s, s', i) && s.header == Some(Sub(i)) && s'.header == s.header && s'.stack == s.stack && s.stack != []
    && Top(s) in s.workers && Top(s) in s'.workers && s'.workers == s.workers[Top(s) := s'.workers[Top(s)]]
    && (s'.workers[Top(s)].owner == s.workers[Top(s)].owner || s.workers[Top(s)].owner == None)
    && (s'.workers[Top(s)].pc == Running <==> s.workers[Top(s)].pc == Running)
    && (s'.workers[Top(s)].owner != s.workers[Top(s)].owner ==> s.workers[Top(s)].pc != Running)
    && i in s.place && (s'.place == s.place || s.place[i] == Pending)
    && SubPlaced(s', i) && i in s'.place && WorkOk(s', Top(s), s'.workers[Top(s)])
  }

  lemma TopMoveInv(s: State, s': State, i: nat)
    requires Inv(s) && TopMove(s, s', i)
    ensures Inv(s')
  {
    hide WorkOk, PhaseOf, CallsOk, SubPlaced, HeaderOk;
    TopMoveSlots(s, s', i);
    TopMoveSubs(s, s', i);
    SameCalls(s, s');
  }

  // The other submitters do not have the lock of the stack.
  lemma OthersWait(s: State, i: nat, j: nat)
    requires Inv(s) && i in s.submitters && j in s.submitters && i != j && s.header == Some(Sub(i))
    ensures !HoldsHeader(s.submitters[j].pc)
  {}

  lemma CondIsTop(s: State, i: nat, v: nat)
    requires Inv(s) && v in s.workers && s.header == Some(Sub(i))
    requires s.workers[v].cond.Some? && s.workers[v].cond.value.Sub?
    ensures s.stack != [] && Top(s) == v && s.workers[v].cond.value.id == i
  {
    CondHeld(s, v);
  }

  lemma TopMoveSlots(s: State, s': State, i: nat)
    requires Inv(s) && TopMove(s, s', i)
    ensures forall v :: v in s'.workers ==> WorkOk(s', v, s'.workers[v])
  {
    hide Inv, WorkOk, PhaseOf, SubPlaced, HeaderOk;
    var w := Top(s);
    forall v | v in s.workers && v != w ensures Kept(s, s', v) {
      PhaseUnder(s, i, v);
      PhaseUnder(s', i, v);
      if s.workers[v].cond.Some? && s.workers[v].cond.value.Sub? {
        CondIsTop(s, i, v);
      }
      if s.workers[v].owner.Some? {
        OwnerPlace(s, v);
      }
    }
    SlotsOk(s, s', w);
  }

  lemma TopMoveSubs(s: State, s': State, i: nat)
    requires Inv(s) && TopMove(s, s', i)
    ensures forall j :: j in s'.submitters ==> SubPlaced(s', j)
    ensures forall j :: j in s'.place ==> j in s'.submitters
  {
    hide Inv, WorkOk, PhaseOf, SubOk, HeaderOk;
    PlacesAreSubmitters(s);
    forall j | j in s'.submitters ensures SubPlaced(s', j) {
      if j != i {
        KnownSub(s, j);
        OthersWait(s, i, j);
        SubSame(s, s', j);
      }
    }
  }

  lemma PlacesAreSubmitters(s: State)
    requires Inv(s)
    ensures forall j :: j in s.place ==> j in s.submitters
  {}

  // What is known of the submitter that has the lock of the stack, and of the slot on top.
  lemma KnownTop(s: State, i: nat)
    requires Inv(s) && i in s.submitters && HoldsHeader(s.submitters[i].pc)
    ensures s.header == Some(Sub(i)) && SubPlaced(s, i) && i in s.place && HeaderOk(s)
    ensures s.stack != [] ==>
      var w := Top(s); w in s.workers && WorkOk(s, w, s.workers[w]) && PhaseOf(s, w) == TopPhase(s.submitters[i].pc, i)
  {
    hide WorkOk, SubPlaced, PhaseOf;
    KnownSub(s, i);
    if s.stack != [] {
      PhaseUnder(s, i, Top(s));
    }
  }

  // The lock of the stack stays with its submitter.
  lemma HeaderStays(s: State, s': State, i: nat, w: nat)
    requires HeaderOk(s) && s'.header == s.header == Some(Sub(i)) && i in s.submitters && i in s'.submitters
    requires s'.submitters == s.submitters[i := s'.submitters[i]] && HoldsHeader(s'.submitters[i].pc)
    requires w in s.workers && w in s'.workers && s'.workers == s.workers[w := s'.workers[w]]
    requires s'.workers[w].pc == s.workers[w].pc || (s.workers[w].pc == Asleep && s'.workers[w].pc == Waking)
    ensures HeaderOk(s')
  {}

  lemma SubLockCondInv(s: State, i: nat)
    requires Inv(s) && SubEnabled(s, SubLockCond(i))
    ensures Inv(SubStep(s, SubLockCond(i)))
  {
    hide Inv, PhaseOf, HeaderOk;
    var s' := SubStep(s, SubLockCond(i));
    KnownTop(s, i);
    PhaseUnder(s', i, Top(s));
    HeaderStays(s, s', i, Top(s));
    TopMoveInv(s, s', i);
  }

  lemma SubSetFnInv(s: State, i: nat)
    requires Inv(s) && SubEnabled(s, SubSetFn(i))
    ensures Inv(SubStep(s, SubSetFn(i)))
  {
    hide Inv, PhaseOf, HeaderOk;
    var s' := SubStep(s, SubSetFn(i));
    KnownTop(s, i);
    PhaseUnder(s', i, Top(s));
    HeaderStays(s, s', i, Top(s));
    TopMoveInv(s, s', i);
  }

  lemma SubSetParamInv(s: State, i: nat)
    requires Inv(s) && SubEnabled(s, SubSetParam(i))
    ensures Inv(SubStep(s, SubSetParam(i)))
  {
    hide Inv, PhaseOf, HeaderOk;
    var s' := SubStep(s, SubSetParam(i));
    KnownTop(s, i);
    PhaseUnder(s', i, Top(s));
    HeaderStays(s, s', i, Top(s));
    TopMoveInv(s, s', i);
  }

  lemma SubUnlockCondInv(s: State, i: nat)
    requires Inv(s) && SubEnabled(s, SubUnlockCond(i))
    ensures Inv(SubStep(s, SubUnlockCond(i)))
  {
    hide Inv, PhaseOf, HeaderOk;
    var s' := SubStep(s, SubUnlockCond(i));
    KnownTop(s, i);
    PhaseUnder(s', i, Top(s));
    HeaderStays(s, s', i, Top(s));
    TopMoveInv(s, s', i);
  }

  lemma SubSignalInv(s: State, i: nat)
    requires Inv(s) && SubEnabled(s, SubSignal(i))
    ensures Inv(SubStep(s, SubSignal(i)))
  {
    hide Inv, PhaseOf, HeaderOk;
    var s' := SubStep(s, SubSignal(i));
    KnownTop(s, i);
    PhaseUnder(s', i, Top(s));
    HeaderStays(s, s', i, Top(s));
    TopMoveInv(s, s', i);
  }

  // Steps that change no slot and leave every slot in its phase.
  ghost predicate QuietMove(s: State, s': State, i: nat) {
    && SubMove(s, s', i) && s'.stack == s.stack && s'.workers == s.workers && s'.place == s.place
    && SubPlaced(s', i) && !HoldsCond(s.submitters[i].pc)
    && forall v :: v in s.workers ==> PhaseOf(s', v) == PhaseOf(s, v)
  }

  lemma QuietMoveInv(s: State, s': State, i: nat)
    requires Inv(s) && QuietMove(s, s', i)
    requires forall v :: v in s.workers && (PhaseOf(s, v).Filling? || PhaseOf(s, v).Filled?) ==> PhaseOf(s, v).i != i
    ensures Inv(s')
  {
    hide WorkOk, PhaseOf, CallsOk, SubPlaced, HeaderOk;
    QuietMoveSlots(s, s', i);
    QuietMoveSubs(s, s', i);
    SameCalls(s, s');
  }

  lemma QuietMoveSlots(s: State, s': State, i: nat)
    requires Inv(s) && QuietMove(s, s', i)
    requires forall v :: v in s.workers && (PhaseOf(s, v).Filling? || PhaseOf(s, v).Filled?) ==> PhaseOf(s, v).i != i
    ensures forall v :: v in s'.workers ==> WorkOk(s', v, s'.workers[v])
  {
    hide Inv, WorkOk, PhaseOf, SubPlaced, HeaderOk;
    forall v | v in s.workers ensures WorkOk(s', v, s'.workers[v]) {
      CondHeld(s, v);
      Known(s, v);
      PhaseSub(s, v);
      WorkSame(s, s', v);
    }
  }

  lemma QuietMoveSubs(s: State, s': State, i: nat)
    requires Inv(s) && QuietMove(s, s', i)
    ensures forall j :: j in s'.submitters ==> SubPlaced(s', j)
    ensures forall j :: j in s'.place ==> j in s'.submitters
  {
    hide Inv, WorkOk, PhaseOf, SubPlaced, HeaderOk;
    PlacesAreSubmitters(s);
    forall j | j in s'.submitters ensures SubPlaced(s', j) {
      if j != i {
        KnownSub(s, j);
        SubSame(s, s', j);
      }
    }
  }

  lemma SubLockInv(s: State, i: nat)
    requires Inv(s) && SubEnabled(s, SubLock(i))
    ensures Inv(SubStep(s, SubLock(i)))
  {
    hide Inv, PhaseOf, WorkOk;
    var s' := SubStep(s, SubLock(i));
    KnownSub(s, i);
    KnownHeader(s);
    forall v | v in s.workers
      ensures PhaseOf(s', v) == PhaseOf(s, v) && !PhaseOf(s, v).Filling? && !PhaseOf(s, v).Filled?
    {
      PhaseParked(s, v);
      PhaseUnder(s', i, v);
    }
    QuietMoveInv(s, s', i);
  }

  lemma SubTestInv(s: State, i: nat)
    requires Inv(s) && SubEnabled(s, SubTest(i))
    ensures Inv(SubStep(s, SubTest(i)))
  {
    hide Inv, PhaseOf, WorkOk;
    var s' := SubStep(s, SubTest(i));
    KnownTop(s, i);
    forall v | v in s.workers
      ensures PhaseOf(s', v) == PhaseOf(s, v) && !PhaseOf(s, v).Filling? && !PhaseOf(s, v).Filled?
    {
      PhaseUnder(s, i, v);
      if s.stack == [] {
        PhaseParked(s', v);
      } else {
        PhaseUnder(s', i, v);
      }
    }
    QuietMoveInv(s, s', i);
  }

  lemma SubUnlockInv(s: State, i: nat)
    requires Inv(s) && SubEnabled(s, SubUnlock(i))
    ensures Inv(SubStep(s, SubUnlock(i)))
  {
    hide Inv, PhaseOf, WorkOk;
    var s' := SubStep(s, SubUnlock(i));
    KnownTop(s, i);
    forall v | v in s.workers
      ensures PhaseOf(s', v) == PhaseOf(s, v) && !PhaseOf(s, v).Filling? && !PhaseOf(s, v).Filled?
    {
      PhaseUnder(s, i, v);
      PhaseParked(s', v);
    }
    QuietMoveInv(s, s', i);
  }

  lemma SubmitInv(s: State, i: nat, job: Job)
    requires Inv(s) && SubEnabled(s, Submit(i, job))
    ensures Inv(SubStep(s, Submit(i, job)))
  {
    hide WorkOk, PhaseOf, SubPlaced;
    var s' := SubStep(s, Submit(i, job));
    SubmitSlots(s, i, job);
    SubmitSubs(s, i, job);
  }

  lemma SubmitSlots(s: State, i: nat, job: Job)
    requires Inv(s) && SubEnabled(s, Submit(i, job))
    ensures var s' := SubStep(s, Submit(i, job)); forall v :: v in s'.workers ==> WorkOk(s', v, s'.workers[v])
  {
    hide Inv, WorkOk, SubPlaced, HeaderOk;
    var s' := SubStep(s, Submit(i, job));
    KnownHeader(s);
    HeaderIsNot(s, i);
    PlacesAreSubmitters(s);
    forall v | v in s.workers ensures WorkOk(s', v, s'.workers[v]) {
      CondHeld(s, v);
      Known(s, v);
      PhaseSub(s, v);
      assert PhaseOf(s', v) == PhaseOf(s, v);
      WorkSame(s, s', v);
    }
  }

  lemma HeaderIsNot(s: State, i: nat)
    requires HeaderOk(s) && i !in s.submitters
    ensures s.header != Some(Sub(i))
  {}

  lemma SubmitSubs(s: State, i: nat, job: Job)
    requires Inv(s) && SubEnabled(s, Submit(i, job))
    ensures var s' := SubStep(s, Submit(i, job)); forall j :: j in s'.submitters ==> SubPlaced(s', j)
  {
    hide Inv, SubPlaced;
    var s' := SubStep(s, Submit(i, job));
    forall j | j in s'.submitters ensures SubPlaced(s', j) {
      if j != i {
        KnownSub(s, j);
        SubSame(s, s', j);
      } else {
        NewSubPlaced(s, i, job);
      }
    }
  }

  lemma NewSubPlaced(s: State, i: nat, job: Job)
    requires Inv(s) && SubEnabled(s, Submit(i, job))
    ensures SubPlaced(SubStep(s, Submit(i, job)), i)
  {
    hide WorkOk, HeaderOk, StackOk;
    assert (i, job) !in s.calls;
  }

  lemma SubCreateInv(s: State, i: nat, w: nat)
    requires Inv(s) && SubEnabled(s, SubCreate(i, w))
    ensures Inv(SubStep(s, SubCreate(i, w)))
  {
    hide WorkOk, PhaseOf, CallsOk, SubPlaced;
    var s' := SubStep(s, SubCreate(i, w));
    CreateSlots(s, i, w);
    CreateSubs(s, i, w);
    SameCalls(s, s');
  }

  lemma CreateSlots(s: State, i: nat, w: nat)
    requires Inv(s) && SubEnabled(s, SubCreate(i, w))
    ensures var s' := SubStep(s, SubCreate(i, w)); forall v :: v in s'.workers ==> WorkOk(s', v, s'.workers[v])
  {
    hide Inv, WorkOk, SubPlaced;
    var s' := SubStep(s, SubCreate(i, w));
    KnownHeader(s);
    forall v | v in s'.workers && v != w ensures WorkOk(s', v, s'.workers[v]) {
      CondHeld(s, v);
      Known(s, v);
      PhaseSub(s, v);
      assert PhaseOf(s', v) == PhaseOf(s, v);
      WorkSame(s, s', v);
    }
    FreshSlot(s, w);
    OffIsOff(s', w);
    assert WorkOk(s', w, s'.workers[w]) by {
      FreshOk(s', w);
    }
  }

  lemma FreshSlot(s: State, w: nat)
    requires Inv(s) && w !in s.workers
    ensures w !in s.stack
  {}

  lemma FreshOk(s: State, w: nat)
    requires w in s.workers && s.workers[w] == Worker(Loop, None, 0, None, None) && PhaseOf(s, w) == Off
    ensures WorkOk(s, w, s.workers[w])
  {}

  lemma CreateSubs(s: State, i: nat, w: nat)
    requires Inv(s) && SubEnabled(s, SubCreate(i, w))
    ensures var s' := SubStep(s, SubCreate(i, w)); forall j :: j in s'.submitters ==> SubPlaced(s', j)
  {
    hide Inv, WorkOk, HeaderOk;
    var s' := SubStep(s, SubCreate(i, w));
    forall j | j in s'.submitters ensures SubPlaced(s', j) {
      KnownSub(s, j);
      if j != i {
        SubSame(s, s', j);
      }
    }
  }

  lemma SubPopInv(s: State, i: nat)
    requires Inv(s) && SubEnabled(s, SubPop(i))
    ensures Inv(SubStep(s, SubPop(i)))
  {
    hide WorkOk, PhaseOf, CallsOk, SubPlaced;
    var s' := SubStep(s, SubPop(i));
    PopSlots(s, i);
    PopSubs(s, i);
    SameCalls(s, s');
  }

  lemma PopSlots(s: State, i: nat)
    requires Inv(s) && SubEnabled(s, SubPop(i))
    ensures var s' := SubStep(s, SubPop(i)); forall v :: v in s'.workers ==> WorkOk(s', v, s'.workers[v])
  {
    hide Inv, WorkOk, SubPlaced, PhaseOf, HeaderOk;
    var s' := SubStep(s, SubPop(i));
    KnownTop(s, i);
    var w := Top(s);
    forall v | v in s.workers && v != w ensures Kept(s, s', v) {
      PhaseUnder(s, i, v);
      PhaseUnder(s', i, v);
      PoppedIn(s, v);
      if s.workers[v].cond.Some? && s.workers[v].cond.value.Sub? {
        CondIsTop(s, i, v);
      }
    }
    PhaseUnder(s', i, w);
    PoppedIn(s, w);
    CondIsNotSub(s, i, w);
    PopTop(s, s', i, w);
    SlotsOk(s, s', w);
  }

  lemma PoppedIn(s: State, v: nat)
    requires Inv(s) && s.stack != []
    ensures v in s.stack[..|s.stack| - 1] <==> v in s.stack && v != Top(s)
  {}

  // The submitter that takes the slot off the stack has given up the lock of the slot.
  lemma CondIsNotSub(s: State, i: nat, w: nat)
    requires Inv(s) && SubAt(s, i, Pop) && w in s.workers
    ensures s.workers[w].cond.Some? ==> s.workers[w].cond.value.Work?
  {
    CondHeld(s, w);
  }

  lemma PopTop(s: State, s': State, i: nat, w: nat)
    requires w in s.workers && w in s'.workers && s'.workers[w] == s.workers[w] && i in s.submitters
    requires s.workers[w].cond.Some? ==> s.workers[w].cond.value.Work?
    requires WorkOk(s, w, s.workers[w]) && PhaseOf(s, w) == Filled(i) && s.submitters[i].pc == Pop
    requires PhaseOf(s', w) == Off && SameJobs(s, s') && s'.place == s.place
    ensures WorkOk(s', w, s'.workers[w])
  {
    hide PhaseOf, Top;
  }

  lemma PopSubs(s: State, i: nat)
    requires Inv(s) && SubEnabled(s, SubPop(i))
    ensures var s' := SubStep(s, SubPop(i)); forall j :: j in s'.submitters ==> SubPlaced(s', j)
  {
    hide Inv, WorkOk, PhaseOf, HeaderOk;
    var s' := SubStep(s, SubPop(i));
    KnownTop(s, i);
    forall j | j in s'.submitters ensures SubPlaced(s', j) {
      KnownSub(s, j);
      if j != i {
        OthersWait(s, i, j);
        SubSame(s, s', j);
      }
    }
  }
}
