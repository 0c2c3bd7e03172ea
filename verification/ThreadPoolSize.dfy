// How the pool grows and shrinks: over whole runs, when a worker parks, when one leaves, and when one is made.

module ThreadPoolSize {
  import opened ThreadPool
  import opened ThreadPoolSteps
  import opened ThreadPoolRuns
  import opened Options

  // Behind the test of line 130, on its way out.
  predicate HasLeft(s: State, w: nat) {
    w !in s.workers || s.workers[w].pc == Exiting
  }

  lemma {:induction false} SameSize(states: seq<State>, steps: seq<Step>, n: nat)
    requires Run(states, steps) && n < |states|
    ensures states[n].size == states[0].size
  {
    hide Init, Enabled, Next;
    if n > 0 {
      SameSize(states, steps, n - 1);
      StepSize(states[n - 1], steps[n - 1]);
      assert states[n - 1 + 1] == Next(states[n - 1], steps[n - 1]);
    }
  }

  lemma StepSize(s: State, t: Step)
    requires Enabled(s, t)
    ensures Next(s, t).size == s.size
  {}

  // What a step can do to a worker: it leaves behind its test, or it is made.
  ghost predicate Moves(s: State, t: Step, s': State, w: nat) {
    && (HasLeft(s', w) && !HasLeft(s, w) ==> t == WorkCheck(w))
    && (w in s'.workers && w !in s.workers ==> t.SubCreate? && t.w == w && SubAt(s, t.i, Creating))
  }

  // And to a submitter: it needs a worker behind its test.
  ghost predicate Asks(s: State, t: Step, s': State, i: nat) {
    SubAt(s', i, Creating) && !SubAt(s, i, Creating) ==> t == SubTest(i)
  }

  lemma StepMoves(s: State, t: Step, w: nat)
    requires Enabled(s, t)
    ensures Moves(s, t, Next(s, t), w)
  {
    hide Moves, SubEnabled, WorkEnabled, SubStep, WorkStep;
    if SubEnabled(s, t) {
      SubMoves(s, t, w);
    } else {
      WorkMoves(s, t, w);
    }
  }

  lemma SubMoves(s: State, t: Step, w: nat)
    requires SubEnabled(s, t)
    ensures Moves(s, t, SubStep(s, t), w)
  {}

  lemma WorkMoves(s: State, t: Step, w: nat)
    requires WorkEnabled(s, t)
    ensures Moves(s, t, WorkStep(s, t), w)
  {}

  lemma StepAsks(s: State, t: Step, i: nat)
    requires Enabled(s, t)
    ensures Asks(s, t, Next(s, t), i)
  {
    hide SubEnabled, WorkEnabled, SubStep, WorkStep;
    if SubEnabled(s, t) {
      SubAsks(s, t, i);
    } else {
      WorkAsks(s, t);
    }
  }

  lemma SubAsks(s: State, t: Step, i: nat)
    requires SubEnabled(s, t)
    ensures Asks(s, t, SubStep(s, t), i)
  {}

  lemma WorkAsks(s: State, t: Step)
    requires WorkEnabled(s, t)
    ensures WorkStep(s, t).submitters == s.submitters
  {}

  // A worker that comes to its test parks on top of the stack, unless there are as many on it as the pool is to
  // keep, and then it leaves.
  lemma ParksOrLeaves(states: seq<State>, steps: seq<Step>, n: nat, w: nat)
    requires Run(states, steps) && n < |steps| && steps[n] == WorkCheck(w)
    ensures var s, s' := states[n], states[n + 1];
      && !HasLeft(s, w)
      && (HasLeft(s', w) <==> |s.stack| == states[0].size)
      && s'.stack == if HasLeft(s', w) then s.stack else s.stack + [w]
  {
    RunInv(states, steps, n);
    SameSize(states, steps, n);
    hide Init, HeaderOk, CallsOk, WorkOk, SubPlaced;
    assert Enabled(states[n], steps[n]);
  }

  // Whenever a worker has left, so many others were parked.
  lemma {:induction false} LeftWhenFull(states: seq<State>, steps: seq<Step>, m: nat, n: nat, w: nat) returns (k: nat)
    requires Run(states, steps) && m <= n < |states| && !HasLeft(states[m], w) && HasLeft(states[n], w)
    ensures m <= k < n <= |steps| && steps[k] == WorkCheck(w) && |states[k].stack| == states[0].size
  {
    hide Run, Enabled, Next, HasLeft;
    RunLength(states, steps);
    if HasLeft(states[n - 1], w) {
      k := LeftWhenFull(states, steps, m, n - 1, w);
    } else {
      k := n - 1;
      RunStep(states, steps, k);
      StepMoves(states[k], steps[k], w);
      ParksOrLeaves(states, steps, k, w);
    }
  }

  lemma RunLength(states: seq<State>, steps: seq<Step>)
    requires Run(states, steps)
    ensures |states| == |steps| + 1
  {}

  lemma RunStep(states: seq<State>, steps: seq<Step>, k: nat)
    requires Run(states, steps) && k < |steps|
    ensures |states| == |steps| + 1 && Enabled(states[k], steps[k]) && states[k + 1] == Next(states[k], steps[k])
  {}

  // A submitter makes a worker if and only if it finds nobody parked.
  lemma TestFinds(states: seq<State>, steps: seq<Step>, n: nat, i: nat)
    requires Run(states, steps) && n < |steps| && steps[n] == SubTest(i)
    ensures SubAt(states[n + 1], i, Creating) <==> states[n].stack == []
    ensures SubAt(states[n + 1], i, Want) <==> states[n].stack != []
  {
    RunStep(states, steps, n);
  }

  // Whenever a worker has been made after the start, nobody was parked when its submitter looked.
  lemma MadeWhenEmpty(states: seq<State>, steps: seq<Step>, n: nat, w: nat) returns (k: nat)
    requires Run(states, steps) && n < |steps| && w !in states[n].workers && w in states[n + 1].workers
    ensures k < n && steps[k].SubTest? && states[k].stack == []
    ensures steps[n].SubCreate? && steps[k].i == steps[n].i
  {
    hide Run, Next;
    RunStep(states, steps, n);
    StepMoves(states[n], steps[n], w);
    k := WasEmpty(states, steps, n, steps[n].i);
  }

  lemma {:induction false} WasEmpty(states: seq<State>, steps: seq<Step>, n: nat, i: nat) returns (k: nat)
    requires Run(states, steps) && n < |states| && SubAt(states[n], i, Creating)
    ensures k < n && k < |steps| && steps[k] == SubTest(i) && states[k].stack == []
  {
    hide Enabled, Next;
    assert n > 0;
    RunStep(states, steps, n - 1);
    if SubAt(states[n - 1], i, Creating) {
      k := WasEmpty(states, steps, n - 1, i);
    } else {
      k := n - 1;
      StepAsks(states[k], steps[k], i);
      TestFinds(states, steps, k, i);
    }
  }

  // ----- as long as nothing is submitted

  // Has not come to the test of line 130, or not behind it.
  predicate BeforeTest(pc: WorkPc) {
    pc == Loop || pc == Check
  }

  ghost predicate Quiet(s: State) {
    && s.submitters == map[] && (forall w: nat :: w in s.workers <==> w < s.size)
    && forall w :: w in s.workers ==> BeforeTest(s.workers[w].pc) || s.workers[w].pc == Pushed || Waits(s.workers[w].pc)
  }

  // The workers that have not passed their test yet.
  function Before(s: State): set<nat> {
    set w | w in s.workers && BeforeTest(s.workers[w].pc)
  }

  lemma {:induction false} Numbers(ws: set<nat>, n: nat)
    requires forall w: nat :: w in ws <==> w < n
    ensures |ws| == n
  {
    if n == 0 {
      assert ws == {};
    } else {
      Numbers(ws - {n - 1}, n - 1);
    }
  }

  function OnStack(stack: seq<nat>): set<nat> {
    set w | w in stack
  }

  lemma {:induction false} Elements(stack: seq<nat>)
    requires forall a, b :: 0 <= a < b < |stack| ==> stack[a] != stack[b]
    ensures |OnStack(stack)| == |stack|
  {
    if stack == [] {
      assert OnStack(stack) == {};
    } else {
      var rest, last := stack[..|stack| - 1], stack[|stack| - 1];
      Elements(rest);
      assert stack == rest + [last];
      assert last !in rest;
      assert OnStack(stack) == OnStack(rest) + {last};
    }
  }

  // Who is not in front of the test is on the stack.
  lemma QuietWorker(s: State, w: nat)
    requires Inv(s) && Quiet(s) && w in s.workers
    ensures BeforeTest(s.workers[w].pc) <==> w !in s.stack
  {
    assert WorkOk(s, w, s.workers[w]);
    assert PhaseOf(s, w) == if w in s.stack then Parked else Off;
  }

  lemma QuietCount(s: State)
    requires Inv(s) && Quiet(s)
    ensures |s.stack| + |Before(s)| == s.size
  {
    forall w | w in s.workers ensures w in Before(s) <==> w !in OnStack(s.stack) {
      QuietWorker(s, w);
    }
    StackOfInv(s);
    Elements(s.stack);
    QuietNumbers(s);
    hide Inv, Quiet;
    assert s.workers.Keys == OnStack(s.stack) + Before(s) && OnStack(s.stack) !! Before(s);
  }

  lemma StackOfInv(s: State)
    requires Inv(s)
    ensures forall a, b :: 0 <= a < b < |s.stack| ==> s.stack[a] != s.stack[b]
    ensures forall w :: w in s.stack ==> w in s.workers
  {
    hide HeaderOk, CallsOk, SubPlaced, WorkOk;
  }

  lemma QuietNumbers(s: State)
    requires Quiet(s)
    ensures |s.workers.Keys| == s.size
  {
    Numbers(s.workers.Keys, s.size);
  }

  lemma QuietStep(s: State, t: Step)
    requires Inv(s) && Quiet(s) && Enabled(s, t) && !t.Submit?
    ensures Quiet(Next(s, t))
  {
    hide Inv, SubEnabled, SubStep, WorkStep, Quiet;
    NoSubStep(s, t);
    if t.WorkCheck? {
      QuietCheck(s, t.w);
    } else if t.WorkTest? {
      QuietIsEmpty(s, t.w);
    }
    QuietWorkStep(s, t);
  }

  lemma QuietWorkStep(s: State, t: Step)
    requires Quiet(s) && WorkEnabled(s, t)
    requires t.WorkCheck? ==> |s.stack| < s.size
    requires t.WorkTest? ==> s.workers[t.w].fn == None
    ensures Quiet(WorkStep(s, t))
  {
    var s' := WorkStep(s, t);
    assert s'.submitters == s.submitters && s'.workers.Keys == s.workers.Keys;
    forall w | w in s'.workers
      ensures BeforeTest(s'.workers[w].pc) || s'.workers[w].pc == Pushed || Waits(s'.workers[w].pc)
    {
      assert w != t.w ==> s'.workers[w] == s.workers[w];
    }
  }

  lemma NoSubStep(s: State, t: Step)
    requires Quiet(s) && !t.Submit?
    ensures !SubEnabled(s, t)
  {}

  lemma QuietCheck(s: State, w: nat)
    requires Inv(s) && Quiet(s) && WorkAt(s, w, Check)
    ensures |s.stack| < s.size
  {
    hide Inv, Quiet;
    QuietCount(s);
    assert w in Before(s);
  }

  lemma QuietIsEmpty(s: State, w: nat)
    requires Inv(s) && Quiet(s) && w in s.workers && s.workers[w].pc == Testing
    ensures s.workers[w].fn == None
  {
    QuietWorker(s, w);
    assert WorkOk(s, w, s.workers[w]);
    assert PhaseOf(s, w) == Parked;
  }

  // In a run in which nothing is submitted no worker leaves, and all that have passed their test are parked.
  lemma {:induction false} AllPark(states: seq<State>, steps: seq<Step>, n: nat)
    requires Run(states, steps) && n < |states| && forall k :: 0 <= k < n ==> !steps[k].Submit?
    ensures var s, size := states[n], states[0].size;
      && (forall w: nat :: w in s.workers <==> w < size) && (forall w: nat :: w < size ==> !HasLeft(s, w))
      && |s.stack| + |Before(s)| == size
  {
    hide Init, Enabled, Next, Inv, Before;
    AllQuiet(states, steps, n);
    RunInv(states, steps, n);
    SameSize(states, steps, n);
    QuietCount(states[n]);
  }

  lemma {:induction false} AllQuiet(states: seq<State>, steps: seq<Step>, n: nat)
    requires Run(states, steps) && n < |states| && forall k :: 0 <= k < n ==> !steps[k].Submit?
    ensures Quiet(states[n])
  {
    hide Enabled, Next, Inv, Quiet;
    if n == 0 {
      StartIsQuiet(states[0]);
    } else {
      AllQuiet(states, steps, n - 1);
      RunInv(states, steps, n - 1);
      RunStep(states, steps, n - 1);
      QuietStep(states[n - 1], steps[n - 1]);
    }
  }

  lemma StartIsQuiet(s: State)
    requires Init(s)
    ensures Quiet(s)
  {}
}
