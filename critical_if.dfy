/** A model of the guarded conditional `critical_if` of the fault-injection
    prevention library (src/lib.rs).

    The caller's condition closure is a stateful query: it is modelled by the
    answer it gives on each call, `cond(n)` being the answer of its n-th call.
    A "fault" is a run in which those answers disagree. The volatile accesses
    to the local decision flag, the two barrier blocks and the two actions are
    the observable effects of a call; they are recorded as `Event`s, in order.
    A `panic!` is the outcome `Halt`, tagged with the check that raised it. */
module FaultInjectionPrevention {

  /** The two caller-supplied actions, each run at most once. */
  datatype Action = SuccessAction | FailureAction

  /** The five checks that end in `panic!("Fault injection detected!")`. */
  datatype PanicSite =
    | SecondEvaluation  // the two back-to-back evaluations disagree
    | FailureRecheck    // failure path: the fresh re-check answers true
    | FailureFlag       // failure path: the recorded flag reads true
    | SuccessRecheck    // success path: the fresh re-check answers false
    | SuccessFlag       // success path: the recorded flag reads false

  datatype Outcome = Success | Failure | Halt(site: PanicSite)

  /** Observable effects of one call, in program order. */
  datatype Event =
    | Evaluated(answer: bool)   // one call of the condition, and its answer
    | FlagWrite(written: bool)  // volatile write of the decision flag
    | FlagRead(read: bool)      // volatile read of the decision flag
    | Barrier                   // compiler fence, `dsb`, compiler fence
    | ActionRun(action: Action) // the success or the failure action ran

  datatype Execution = Execution(outcome: Outcome, events: seq<Event>)

  /** The answers of calls k, k+1, ..., k+n-1. */
  function Window(cond: nat -> bool, k: nat, n: nat): (w: seq<bool>)
    ensures |w| == n
    ensures forall i :: 0 <= i < n ==> w[i] == cond(k + i)
    decreases n
  {
    if n == 0 then [] else [cond(k)] + Window(cond, k + 1, n - 1)
  }

  predicate Constant(s: seq<bool>) {
    forall i :: 0 <= i < |s| ==> s[i] == s[0]
  }

  /** The answers the condition gave during a run, in call order. */
  function Observed(events: seq<Event>): (answers: seq<bool>)
    ensures |answers| <= |events|
  {
    if events == [] then []
    else (if events[0].Evaluated? then [events[0].answer] else []) + Observed(events[1..])
  }

  /** The actions a run performed, in order. */
  function ActionsRun(events: seq<Event>): (actions: seq<Action>)
    ensures |actions| <= |events|
  {
    if events == [] then []
    else (if events[0].ActionRun? then [events[0].action] else []) + ActionsRun(events[1..])
  }

  /** The actions a run with the given outcome performs. */
  function OutcomeActions(outcome: Outcome): seq<Action> {
    match outcome
    case Success => [SuccessAction]
    case Failure => [FailureAction]
    case Halt(_) => []
  }

  /** The events of the decision block (lines 44-66) for the first answer
      and, when that is true, the second: the flag's initial volatile write,
      then the evaluations, then the write that records the decision. */
  function DecisionEvents(first: bool, second: bool): seq<Event> {
    if !first then [FlagWrite(false), Evaluated(false), FlagWrite(false)]
    else if !second then [FlagWrite(false), Evaluated(true), Evaluated(false)]
    else [FlagWrite(false), Evaluated(true), Evaluated(true), FlagWrite(true)]
  }

  /** The events of the second half after its barrier and its two
      evaluations: nothing when they disagree, the flag read when the flag
      disagrees with them, else the flag read, the action and the barrier. */
  function CrossCheckTail(choice: bool, recheck: bool, flag: bool): seq<Event> {
    if choice != recheck then []
    else if flag != choice then [FlagRead(flag)]
    else [FlagRead(flag), ActionRun(if flag then SuccessAction else FailureAction), Barrier]
  }

  /** The second half of `critical_if` (lines 68-106): `choice` is the fresh
      answer that picks the path, `recheck` the answer that confirms it, and
      `flag` the decision recorded by the first half. */
  function CrossCheck(choice: bool, recheck: bool, flag: bool): (half: Execution)
    ensures half.outcome == Success <==> choice && recheck && flag
    ensures half.outcome == Failure <==> !choice && !recheck && !flag
    // a re-check that disagrees with the choice is caught before the flag is read
    ensures choice != recheck ==>
              half.outcome == Halt(if choice then SuccessRecheck else FailureRecheck)
              && |half.events| == 3
    // two fresh answers that agree with each other but not with the flag are
    // caught by the flag read
    ensures choice == recheck != flag ==>
              half.outcome == Halt(if choice then SuccessFlag else FailureFlag)
    // both fresh answers are taken on every path, after the barrier
    ensures |half.events| >= 3 && half.events[..3] == [Barrier, Evaluated(choice), Evaluated(recheck)]
    ensures forall i :: 0 <= i < |half.events| ==> !half.events[i].FlagWrite?
    ensures forall i :: 0 <= i < |half.events| && half.events[i].FlagRead? ==>
              half.events[i].read == flag
  {
    var events := [Barrier, Evaluated(choice), Evaluated(recheck)] + CrossCheckTail(choice, recheck, flag);
    if choice != recheck then
      Execution(Halt(if choice then SuccessRecheck else FailureRecheck), events)
    else if flag != choice then
      Execution(Halt(if choice then SuccessFlag else FailureFlag), events)
    else
      Execution(if flag then Success else Failure, events)
  }

  /** One call of `critical_if` whose first call of the condition is call k. */
  function Run(cond: nat -> bool, k: nat): (run: Execution)
    // the outcome, as a function of the answers of calls k .. k+3
    ensures run.outcome == Success <==> cond(k) && cond(k + 1) && cond(k + 2) && cond(k + 3)
    ensures run.outcome == Failure <==> !cond(k) && !cond(k + 1) && !cond(k + 2)
    ensures run.outcome == Halt(SecondEvaluation) <==> cond(k) && !cond(k + 1)
    ensures run.outcome == Halt(FailureRecheck) <==>
              (!cond(k) && !cond(k + 1) && cond(k + 2)) || (cond(k) && cond(k + 1) && !cond(k + 2) && cond(k + 3))
    ensures run.outcome == Halt(SuccessRecheck) <==>
              (!cond(k) && cond(k + 1) && !cond(k + 2)) || (cond(k) && cond(k + 1) && cond(k + 2) && !cond(k + 3))
    // a late flip away from the first answer that lasts through the re-check
    // is caught only by the recorded flag
    ensures run.outcome == Halt(SuccessFlag) <==> !cond(k) && cond(k + 1) && cond(k + 2)
    ensures run.outcome == Halt(FailureFlag) <==> cond(k) && cond(k + 1) && !cond(k + 2) && !cond(k + 3)
  {
    var decided := DecisionEvents(cond(k), cond(k + 1));
    if cond(k) && !cond(k + 1) then
      Execution(Halt(SecondEvaluation), decided)
    else
      // the flag holds the first answer; the next call is the path choice
      var next := if cond(k) then k + 2 else k + 1;
      var half := CrossCheck(cond(next), cond(next + 1), cond(k));
      Execution(half.outcome, decided + half.events)
  }

  /** The number of times one call of `critical_if` starting at call k calls
      the condition. */
  function CallsMade(cond: nat -> bool, k: nat): nat {
    if !cond(k) then 3 else if !cond(k + 1) then 2 else 4
  }

  // ---- Projections of traces ----

  lemma {:induction false} ObservedConcat(a: seq<Event>, b: seq<Event>)
    ensures Observed(a + b) == Observed(a) + Observed(b)
  {
    if a == [] {
      assert a + b == b;
    } else {
      assert a + b == [a[0]] + (a[1..] + b);
      assert a == [a[0]] + a[1..];
      ObservedCons(a[0], a[1..] + b);
      ObservedCons(a[0], a[1..]);
      ObservedConcat(a[1..], b);
    }
  }

  lemma {:induction false} ActionsRunConcat(a: seq<Event>, b: seq<Event>)
    ensures ActionsRun(a + b) == ActionsRun(a) + ActionsRun(b)
  {
    if a == [] {
      assert a + b == b;
    } else {
      assert a + b == [a[0]] + (a[1..] + b);
      assert a == [a[0]] + a[1..];
      ActionsRunCons(a[0], a[1..] + b);
      ActionsRunCons(a[0], a[1..]);
      ActionsRunConcat(a[1..], b);
    }
  }

  lemma ObservedCons(e: Event, s: seq<Event>)
    ensures Observed([e] + s) == (if e.Evaluated? then [e.answer] else []) + Observed(s)
  {
    assert ([e] + s)[1..] == s;
  }

  lemma ActionsRunCons(e: Event, s: seq<Event>)
    ensures ActionsRun([e] + s) == (if e.ActionRun? then [e.action] else []) + ActionsRun(s)
  {
    assert ([e] + s)[1..] == s;
  }

  /** The decision block records the first answer and, after a true one,
      the second ... */
  lemma DecisionObserved(first: bool, second: bool)
    ensures Observed(DecisionEvents(first, second)) == if first then [true, second] else [false]
  {
    var e := DecisionEvents(first, second);
    assert e == [e[0]] + ([e[1]] + ([e[2]] + e[3..]));
    ObservedCons(e[0], [e[1]] + ([e[2]] + e[3..]));
    ObservedCons(e[1], [e[2]] + e[3..]);
    ObservedCons(e[2], e[3..]);
    if e[3..] != [] {
      assert e[3..] == [FlagWrite(true)] + [];
      ObservedCons(FlagWrite(true), []);
    }
  }

  /** ... and runs no action. */
  lemma DecisionActionsRun(first: bool, second: bool)
    ensures ActionsRun(DecisionEvents(first, second)) == []
  {
    var e := DecisionEvents(first, second);
    assert e == [e[0]] + ([e[1]] + ([e[2]] + e[3..]));
    ActionsRunCons(e[0], [e[1]] + ([e[2]] + e[3..]));
    ActionsRunCons(e[1], [e[2]] + e[3..]);
    ActionsRunCons(e[2], e[3..]);
    if e[3..] != [] {
      assert e[3..] == [FlagWrite(true)] + [];
      ActionsRunCons(FlagWrite(true), []);
    }
  }

  /** The opening barrier and the two fresh evaluations of the second half. */
  lemma PrefixObserved(choice: bool, recheck: bool, tail: seq<Event>)
    ensures Observed([Barrier, Evaluated(choice), Evaluated(recheck)] + tail) ==
              [choice, recheck] + Observed(tail)
  {
    assert [Barrier, Evaluated(choice), Evaluated(recheck)] + tail ==
           [Barrier] + ([Evaluated(choice)] + ([Evaluated(recheck)] + tail));
    ObservedCons(Barrier, [Evaluated(choice)] + ([Evaluated(recheck)] + tail));
    ObservedCons(Evaluated(choice), [Evaluated(recheck)] + tail);
    ObservedCons(Evaluated(recheck), tail);
  }

  lemma PrefixActionsRun(choice: bool, recheck: bool, tail: seq<Event>)
    ensures ActionsRun([Barrier, Evaluated(choice), Evaluated(recheck)] + tail) == ActionsRun(tail)
  {
    assert [Barrier, Evaluated(choice), Evaluated(recheck)] + tail ==
           [Barrier] + ([Evaluated(choice)] + ([Evaluated(recheck)] + tail));
    ActionsRunCons(Barrier, [Evaluated(choice)] + ([Evaluated(recheck)] + tail));
    ActionsRunCons(Evaluated(choice), [Evaluated(recheck)] + tail);
    ActionsRunCons(Evaluated(recheck), tail);
  }

  /** After its two evaluations the second half calls the condition no more ... */
  lemma TailObserved(choice: bool, recheck: bool, flag: bool)
    ensures Observed(CrossCheckTail(choice, recheck, flag)) == []
  {
    if choice == recheck {
      var a := if flag then SuccessAction else FailureAction;
      ObservedCons(Barrier, []);
      ObservedCons(ActionRun(a), [Barrier]);
      ObservedCons(FlagRead(flag), []);
      ObservedCons(FlagRead(flag), [ActionRun(a)] + [Barrier]);
      assert [FlagRead(flag)] + [] == [FlagRead(flag)];
      assert [Barrier] + [] == [Barrier];
      assert [FlagRead(flag)] + ([ActionRun(a)] + [Barrier]) == [FlagRead(flag), ActionRun(a), Barrier];
    }
  }

  /** ... and runs an action only when both fresh answers and the flag agree. */
  lemma TailActionsRun(choice: bool, recheck: bool, flag: bool)
    ensures ActionsRun(CrossCheckTail(choice, recheck, flag)) ==
              if choice == recheck == flag then [if flag then SuccessAction else FailureAction] else []
  {
    if choice == recheck {
      var a := if flag then SuccessAction else FailureAction;
      ActionsRunCons(Barrier, []);
      ActionsRunCons(ActionRun(a), [Barrier]);
      ActionsRunCons(FlagRead(flag), []);
      ActionsRunCons(FlagRead(flag), [ActionRun(a)] + [Barrier]);
      assert [FlagRead(flag)] + [] == [FlagRead(flag)];
      assert [Barrier] + [] == [Barrier];
      assert [FlagRead(flag)] + ([ActionRun(a)] + [Barrier]) == [FlagRead(flag), ActionRun(a), Barrier];
    }
  }

  /** Unfolding of CrossCheck's events. */
  lemma CrossCheckShape(choice: bool, recheck: bool, flag: bool)
    ensures CrossCheck(choice, recheck, flag).events ==
              [Barrier, Evaluated(choice), Evaluated(recheck)] + CrossCheckTail(choice, recheck, flag)
  {
  }

  /** The second half calls the condition exactly twice ... */
  lemma CrossCheckObserved(choice: bool, recheck: bool, flag: bool)
    ensures Observed(CrossCheck(choice, recheck, flag).events) == [choice, recheck]
  {
    CrossCheckShape(choice, recheck, flag);
    PrefixObserved(choice, recheck, CrossCheckTail(choice, recheck, flag));
    TailObserved(choice, recheck, flag);
  }

  /** ... and performs the action of its outcome and no other. */
  lemma CrossCheckActionsRun(choice: bool, recheck: bool, flag: bool)
    ensures var half := CrossCheck(choice, recheck, flag);
              ActionsRun(half.events) == OutcomeActions(half.outcome)
  {
    CrossCheckShape(choice, recheck, flag);
    PrefixActionsRun(choice, recheck, CrossCheckTail(choice, recheck, flag));
    TailActionsRun(choice, recheck, flag);
  }

  // ---- Properties of one call ----

  // RunEvents, RunHalts and RunJoins only unfold Run: they name the shape of
  // each path so that the lemmas below and CriticalIf can refer to it.

  lemma RunEvents(cond: nat -> bool, k: nat)
    ensures !cond(k) ==>
              Run(cond, k).events == DecisionEvents(false, true) + CrossCheck(cond(k + 1), cond(k + 2), false).events
    ensures cond(k) && !cond(k + 1) ==>
              Run(cond, k).events == DecisionEvents(true, false)
    ensures cond(k) && cond(k + 1) ==>
              Run(cond, k).events == DecisionEvents(true, true) + CrossCheck(cond(k + 2), cond(k + 3), true).events
  {
  }

  /** Unfolding of Run on a true-false start. */
  lemma RunHalts(cond: nat -> bool, k: nat)
    requires cond(k) && !cond(k + 1)
    ensures Run(cond, k) == Execution(Halt(SecondEvaluation), DecisionEvents(true, false))
  {
  }

  /** Unfolding of Run past the second evaluation, with a prefix `before`
      in the form CriticalIf needs. */
  lemma RunJoins(cond: nat -> bool, k: nat, before: seq<Event>)
    requires !(cond(k) && !cond(k + 1))
    ensures var next := if cond(k) then k + 2 else k + 1;
      var half := CrossCheck(cond(next), cond(next + 1), cond(k));
      && half.outcome == Run(cond, k).outcome
      && (before + DecisionEvents(cond(k), cond(k + 1))) + half.events == before + Run(cond, k).events
  {
    var next := if cond(k) then k + 2 else k + 1;
    var half := CrossCheck(cond(next), cond(next + 1), cond(k));
    var decided := DecisionEvents(cond(k), cond(k + 1));
    assert Run(cond, k).events == decided + half.events;
    assert (before + decided) + half.events == before + (decided + half.events);
  }

  /** On a path that reaches the second half, every write of the flag after
      the first and every read of it carry the first answer, and a barrier
      is passed. */
  lemma PathFlag(first: bool, second: bool, choice: bool, recheck: bool)
    requires !(first && !second)
    ensures var events := DecisionEvents(first, second) + CrossCheck(choice, recheck, first).events;
      && (forall i :: 1 <= i < |events| && events[i].FlagWrite? ==> events[i].written == first)
      && (forall i :: 0 <= i < |events| && events[i].FlagRead? ==> events[i].read == first)
      && Barrier in events
  {
    var decided := DecisionEvents(first, second);
    var half := CrossCheck(choice, recheck, first).events;
    var events := decided + half;
    assert forall i :: 1 <= i < |events| && events[i].FlagWrite? ==> i < |decided|;
    forall i | 0 <= i < |events| && events[i].FlagRead?
      ensures events[i].read == first
    {
      if i >= |decided| {
        assert events[i] == half[i - |decided|];
      }
    }
    assert events[|decided|] == half[0] == Barrier;
  }

  /** The flag starts out false; every later write and every read of it
      carries the first answer, and only a halt at the second evaluation
      ends a call before its first barrier. */
  lemma RunFlag(cond: nat -> bool, k: nat)
    ensures var events := Run(cond, k).events;
      && |events| >= 3 && events[0] == FlagWrite(false)
      && (forall i :: 1 <= i < |events| && events[i].FlagWrite? ==> events[i].written == cond(k))
      && (forall i :: 0 <= i < |events| && events[i].FlagRead? ==> events[i].read == cond(k))
      && (Run(cond, k).outcome == Halt(SecondEvaluation) <==> Barrier !in events)
  {
    RunEvents(cond, k);
    if !cond(k) {
      PathFlag(false, true, cond(k + 1), cond(k + 2));
    } else if !cond(k + 1) {
      RunHalts(cond, k);
    } else {
      PathFlag(true, true, cond(k + 2), cond(k + 3));
    }
  }

  /** The answers a path records: the decision block's, then the two fresh
      ones of the second half. */
  lemma PathObserved(first: bool, second: bool, choice: bool, recheck: bool, flag: bool)
    ensures Observed(DecisionEvents(first, second) + CrossCheck(choice, recheck, flag).events) ==
              (if first then [true, second] else [false]) + [choice, recheck]
  {
    ObservedConcat(DecisionEvents(first, second), CrossCheck(choice, recheck, flag).events);
    DecisionObserved(first, second);
    CrossCheckObserved(choice, recheck, flag);
  }

  lemma WindowUpToFour(cond: nat -> bool, k: nat)
    ensures Window(cond, k, 2) == [cond(k), cond(k + 1)]
    ensures Window(cond, k, 3) == [cond(k), cond(k + 1), cond(k + 2)]
    ensures Window(cond, k, 4) == [cond(k), cond(k + 1), cond(k + 2), cond(k + 3)]
  {
  }

  /** The condition is called exactly CallsMade times, and the trace records
      the answers of calls k, k+1, ... in order. */
  lemma RunObserved(cond: nat -> bool, k: nat)
    ensures Observed(Run(cond, k).events) == Window(cond, k, CallsMade(cond, k))
  {
    RunEvents(cond, k);
    WindowUpToFour(cond, k);
    if !cond(k) {
      PathObserved(false, true, cond(k + 1), cond(k + 2), false);
    } else if !cond(k + 1) {
      DecisionObserved(true, false);
    } else {
      PathObserved(true, true, cond(k + 2), cond(k + 3), true);
    }
  }

  /** At most one action runs: the success action exactly once on Success,
      the failure action exactly once on Failure, none on a halt. */
  lemma RunActions(cond: nat -> bool, k: nat)
    ensures ActionsRun(Run(cond, k).events) == OutcomeActions(Run(cond, k).outcome)
  {
    RunEvents(cond, k);
    if cond(k) && !cond(k + 1) {
      DecisionActionsRun(true, false);
    } else {
      var next := if cond(k) then k + 2 else k + 1;
      var decided := DecisionEvents(cond(k), cond(k + 1));
      var half := CrossCheck(cond(next), cond(next + 1), cond(k)).events;
      ActionsRunConcat(decided, half);
      DecisionActionsRun(cond(k), cond(k + 1));
      CrossCheckActionsRun(cond(next), cond(next + 1), cond(k));
    }
  }

  /** With every evaluation answering true, the success action runs exactly
      once, the failure action never, and the condition is called 4 times. */
  lemma ConsistentlyTrue(cond: nat -> bool, k: nat)
    requires forall i :: k <= i < k + 4 ==> cond(i)
    ensures Run(cond, k).outcome == Success
    ensures ActionsRun(Run(cond, k).events) == [SuccessAction]
    ensures Observed(Run(cond, k).events) == [true, true, true, true]
  {
    assert cond(k) && cond(k + 1) && cond(k + 2) && cond(k + 3);
    RunActions(cond, k);
    RunObserved(cond, k);
    WindowUpToFour(cond, k);
  }

  /** With every evaluation answering false, the failure action runs exactly
      once, the success action never, and the condition is called 3 times. */
  lemma ConsistentlyFalse(cond: nat -> bool, k: nat)
    requires forall i :: k <= i < k + 3 ==> !cond(i)
    ensures Run(cond, k).outcome == Failure
    ensures ActionsRun(Run(cond, k).events) == [FailureAction]
    ensures Observed(Run(cond, k).events) == [false, false, false]
  {
    assert !cond(k) && !cond(k + 1) && !cond(k + 2);
    RunActions(cond, k);
    RunObserved(cond, k);
    WindowUpToFour(cond, k);
  }

  /** A call halts exactly when the answers it actually received are not all
      the same: a referentially stable condition never halts, and any
      disagreement among the evaluations made is detected. */
  lemma HaltIffInconsistent(cond: nat -> bool, k: nat)
    ensures Run(cond, k).outcome.Halt? <==> !Constant(Observed(Run(cond, k).events))
  {
    RunObserved(cond, k);
    WindowUpToFour(cond, k);
    var seen := Observed(Run(cond, k).events);
    if !Run(cond, k).outcome.Halt? {
      assert forall i :: 0 <= i < |seen| ==> seen[i] == seen[0];
    } else {
      var i := if seen[1] != seen[0] then 1 else if seen[2] != seen[0] then 2 else 3;
      assert seen[i] != seen[0];
    }
  }

  /** The answer stream with the answer of call j inverted: one glitch on one
      evaluation. */
  function Glitched(cond: nat -> bool, j: nat): (g: nat -> bool)
    ensures g(j) == !cond(j)
    ensures forall n :: n != j ==> g(n) == cond(n)
  {
    (n: nat) => if n == j then !cond(n) else cond(n)
  }

  /** One glitched evaluation of a stable condition never runs the wrong
      action: it halts when it hits one of the calls the run makes, and is
      harmless otherwise. */
  lemma SingleGlitch(cond: nat -> bool, k: nat, v: bool, j: nat)
    requires forall i :: k <= i < k + 4 ==> cond(i) == v
    ensures var outcome := Run(Glitched(cond, j), k).outcome;
      && outcome != (if v then Failure else Success)
      && (outcome.Halt? <==> k <= j < k + CallsMade(cond, k))
      && (!outcome.Halt? ==> outcome == (if v then Success else Failure))
  {
    var g := Glitched(cond, j);
    assert cond(k) == v && cond(k + 1) == v && cond(k + 2) == v && cond(k + 3) == v;
    assert g(k) == (cond(k) != (j == k));
    assert g(k + 1) == (cond(k + 1) != (j == k + 1));
    assert g(k + 2) == (cond(k + 2) != (j == k + 2));
    assert g(k + 3) == (cond(k + 3) != (j == k + 3));
  }

  // ---- The imperative model ----

  /** The state a call of `critical_if` works on: the caller's condition
      closure, how often it has been called, and the observable effects so far. */
  class Environment {
    /** `condition(n)` is the answer of the closure's n-th call. */
    const condition: nat -> bool
    var calls: nat
    var trace: seq<Event>

    constructor (condition: nat -> bool)
      ensures this.condition == condition && calls == 0 && trace == []
    {
      this.condition := condition;
      calls := 0;
      trace := [];
    }

    /** One call of the condition closure. */
    method Evaluate() returns (answer: bool)
      modifies this
      ensures answer == condition(old(calls))
      ensures calls == old(calls) + 1
      ensures trace == old(trace) + [Evaluated(answer)]
    {
      answer := condition(calls);
      calls := calls + 1;
      trace := trace + [Evaluated(answer)];
    }

    /** A volatile access to the decision flag, a barrier block or an action. */
    method Record(e: Event)
      requires !e.Evaluated?
      modifies this
      ensures calls == old(calls)
      ensures trace == old(trace) + [e]
    {
      trace := trace + [e];
    }
  }

  /** Lines 44-66 of `critical_if`: the decision block. Returns the recorded
      flag, or `halted` when the second evaluation contradicts the first. */
  method Decide(env: Environment) returns (cond: bool, halted: bool)
    modifies env
    ensures halted <==> env.condition(old(env.calls)) && !env.condition(old(env.calls) + 1)
    ensures !halted ==> cond == env.condition(old(env.calls))
    ensures env.calls == old(env.calls) + (if env.condition(old(env.calls)) then 2 else 1)
    ensures env.trace == old(env.trace) +
              DecisionEvents(env.condition(old(env.calls)), env.condition(old(env.calls) + 1))
  {
    // the flag is declared false and then written false through a volatile store
    cond := false;
    env.Record(FlagWrite(cond));

    var answer := env.Evaluate();
    if !answer {
      cond := false;
      env.Record(FlagWrite(cond));
    } else {
      answer := env.Evaluate();
      if !answer {
        return cond, true;
      }
      cond := true;
      env.Record(FlagWrite(cond));
    }
    halted := false;
  }

  /** Lines 68-106 of `critical_if`: barrier, fresh re-evaluation and flag
      check, then the action and the closing barrier. */
  method CrossCheckAndAct(env: Environment, cond: bool) returns (outcome: Outcome)
    modifies env
    ensures var half := CrossCheck(env.condition(old(env.calls)), env.condition(old(env.calls) + 1), cond);
      && outcome == half.outcome
      && env.trace == old(env.trace) + half.events
    ensures env.calls == old(env.calls) + 2
  {
    env.Record(Barrier);

    var answer := env.Evaluate();
    if !answer {
      answer := env.Evaluate();
      if answer {
        return Halt(FailureRecheck);
      }
      env.Record(FlagRead(cond));
      if cond {
        return Halt(FailureFlag);
      }
      env.Record(ActionRun(FailureAction));
      outcome := Failure;
    } else {
      answer := env.Evaluate();
      if !answer {
        return Halt(SuccessRecheck);
      }
      env.Record(FlagRead(cond));
      if !cond {
        return Halt(SuccessFlag);
      }
      env.Record(ActionRun(SuccessAction));
      outcome := Success;
    }

    env.Record(Barrier);
  }

  /** `critical_if` step by step: the condition is called through `env`,
      `cond` stands for the volatile decision flag, a panic is a `Halt`. */
  method CriticalIf(env: Environment) returns (outcome: Outcome)
    modifies env
    ensures outcome == Run(env.condition, old(env.calls)).outcome
    ensures env.trace == old(env.trace) + Run(env.condition, old(env.calls)).events
    ensures env.calls == old(env.calls) + CallsMade(env.condition, old(env.calls))
  {
    ghost var c, k, before := env.condition, env.calls, env.trace;
    var cond, halted := Decide(env);
    if halted {
      RunHalts(c, k);
      return Halt(SecondEvaluation);
    }
    assert cond == c(k) && env.calls == if cond then k + 2 else k + 1;
    RunJoins(c, k, before);
    outcome := CrossCheckAndAct(env, cond);
  }
}
