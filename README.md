# critical_if: a verified model of a fault-injection-resistant conditional

The library guards a security-relevant `if` against glitch attacks.
`FaultInjectionPrevention::critical_if(condition, success, failure)` calls the
caller's `condition` closure several times. It records the first decision in
a volatile local flag `cond`. After a barrier (compiler fence, `dsb`,
compiler fence) it re-evaluates the condition and reads the flag back. Only
when the fresh answers and the recorded flag agree does it run exactly one of
`success` or `failure`. Any disagreement ends in
`panic!("Fault injection detected!")`.

`critical_if.dfy` (module `FaultInjectionPrevention`) models this in two
layers:

- **Specification functions.**
  - The condition closure is an answer stream `cond: nat -> bool`: `cond(n)`
    is what its n-th call returns. A fault is a stream whose answers
    disagree.
  - `Run(cond, k)` is one call that starts at closure call `k`. It is built
    from the decision block (`DecisionEvents`) and the second half
    (`CrossCheck`).
  - A call yields an `Execution`: an `Outcome` (`Success`, `Failure`, or
    `Halt(site)` for each of the five `panic!` sites) plus the ordered trace
    of its observable `Event`s. The events are closure calls with their
    answers, volatile writes and reads of the flag, barrier blocks, and the
    action that ran.
- **Imperative model.**
  - `Environment` is a class holding the closure, its call counter and the
    trace so far.
  - `Decide` (lines 44-66) and `CrossCheckAndAct` (lines 68-106) follow the
    source statement by statement. They use a local `cond` for the flag and
    early `return Halt(...)` for each `panic!`.
  - `CriticalIf` composes the two. It is proved to produce exactly
    `Run`'s outcome and events and to call the closure exactly `CallsMade`
    times.

Lemmas about `Run` state the library's promises:

- All-true answers run `success` once. All-false answers run `failure` once.
- A call halts exactly when the answers it received are not all equal.
- At most one action runs, and none on a halt.
- A halt at the second evaluation comes before any barrier.
- Every later write and every read of the flag carries the first answer.
- One glitched answer never makes the wrong action run.

## Model

| member | source | states |
|---|---|---|
| FaultInjectionPrevention.Run | src/lib.rs:38-107 | The outcome of one call as a function of the answers of calls k..k+3. Success iff four answers are true. Failure iff three answers are false. Each of the five panic sites is characterised by exactly which answer pattern reaches it. A late flip back to the first answer is caught by the re-check (T,T,F,T and F,T,F). A late flip away from the first answer that lasts through the re-check is caught only by the flag check (F,T,T and T,T,F,F). |
| FaultInjectionPrevention.CrossCheck | src/lib.rs:68-106 | The second half. The action path is the answer that picks it. A re-check that disagrees halts before the flag is read (lines 75-77, 88-90). A flag that disagrees with two agreeing fresh answers halts (lines 80-82, 93-95). The half never writes the flag, every read returns the recorded flag, and it opens with the barrier and both fresh evaluations. |
| FaultInjectionPrevention.RunHalts | src/lib.rs:52-60 | Unfolding of `Run` on that path: a true first answer followed by a false second one halts at once. The trace holds only the initial flag write and those two evaluations. |
| FaultInjectionPrevention.RunJoins | src/lib.rs:44-106 | Unfolding of `Run` on those paths: a call that passes the second evaluation is the decision block followed by the second half. That half starts at the next closure call and checks the recorded flag, which equals the first answer. |
| FaultInjectionPrevention.PathFlag | src/lib.rs:49-95 | On a path that reaches the second half, every flag write after the first and every flag read carry the first answer, and a barrier is passed. |
| FaultInjectionPrevention.RunFlag | src/lib.rs:44-95 | The flag is first written false. Every later write and every read of it carries the first answer. The call ends before any barrier exactly when it halts at the second evaluation. |
| FaultInjectionPrevention.CrossCheckObserved | src/lib.rs:74-88 | The second half calls the condition exactly twice, with the path choice first and the re-check second. |
| FaultInjectionPrevention.CrossCheckActionsRun | src/lib.rs:74-100 | The second half runs the action of its outcome and no other. |
| FaultInjectionPrevention.RunObserved | src/lib.rs:52-88 | The answers recorded in a call's trace are exactly those of calls k, k+1, ..., in order. Their number is `CallsMade`: 3 after a false first answer, 2 after a true-false start, 4 otherwise. |
| FaultInjectionPrevention.RunActions | src/lib.rs:74-100 | At most one action runs. `success` runs exactly once on Success, `failure` exactly once on Failure, and none runs on any halt. |
| FaultInjectionPrevention.ConsistentlyTrue | src/lib.rs:52-99 | Four true answers give Success, with `success` run once, `failure` never, and four closure calls. |
| FaultInjectionPrevention.ConsistentlyFalse | src/lib.rs:52-86 | Three false answers give Failure, with `failure` run once, `success` never, and three closure calls. |
| FaultInjectionPrevention.HaltIffInconsistent | src/lib.rs:52-100 | In both directions: a call halts iff the answers it actually received are not all equal. A referentially stable condition never halts, and any disagreement among the calls made is detected. |
| FaultInjectionPrevention.SingleGlitch | src/lib.rs:52-100 | Inverting one answer of a stable condition never yields the wrong action's outcome. It halts iff the inverted call is one the run makes, and otherwise gives the intended outcome. |
| FaultInjectionPrevention.Environment.constructor | src/lib.rs:40 | A fresh environment wraps the caller's closure with no calls made and an empty trace. |
| FaultInjectionPrevention.Environment.Evaluate | src/lib.rs:52 | One closure call: it returns the answer of the next call in the stream, advances the counter, and records the answer. |
| FaultInjectionPrevention.Environment.Record | src/lib.rs:49-106 | A flag access, barrier block or action is appended to the trace. The closure is not called. |
| FaultInjectionPrevention.Decide | src/lib.rs:44-66 | The decision block. It halts iff the second evaluation contradicts a true first one. Otherwise the returned flag equals the first answer. It calls the closure once after a false answer and twice after a true one, and its trace is the decision block's events. |
| FaultInjectionPrevention.CrossCheckAndAct | src/lib.rs:68-106 | The second half, with both fresh evaluations, the flag read and the action. Its outcome and trace are `CrossCheck`'s for the next two answers and the recorded flag, and it calls the closure exactly twice. |
| FaultInjectionPrevention.CriticalIf | src/lib.rs:38-107 | The whole call. Its outcome and appended trace equal `Run`'s for the answers starting at the current call counter, and it advances the counter by `CallsMade`. |

## Left out

- Barriers: `compiler_fence(SeqCst)`, `asm!("dsb")` and `helper.rs`'s `dsb()` have no logical content beyond their position. Each fence-`dsb`-fence block is one `Barrier` event in the trace, and memory ordering is not modelled.
- `black_box`, `write_volatile`, `read_volatile`: modelled as plain assignments and reads that are recorded as events. Non-elision is a compiler guarantee that Dafny cannot express.
- `panic!`: modelled as the outcome `Halt(site)`, not as unwinding or process termination.
- The `success` and `failure` closures are opaque. Only the fact and order of their running is recorded (`ActionRun`); their effects are the caller's.
- The condition closure is modelled by the answers it gives. Effects it may have beyond its answers are not modelled.
- `FaultInjectionPrevention::new` and the unused `delay_ms` / `fill_rand_slice` fields (src/lib.rs:17-18, 29-31) carry no logic and are not part of this model.
- The C demo programs `tests/src/main.c` and `tests/simple-test/src/main.c` are board I/O and LED plumbing and are not part of this model.
- Tri-state secure values, timing jitter, the canary stack, redundant reads and writes, and a reset-based fail-safe halt are not present in src/lib.rs and are not part of this model. src/lib.rs uses a plain `bool` flag that starts out `false`, has no delay, and detects a fault with `panic!`.
- The fault model covers only wrong answers of the condition closure. A skipped instruction, a corrupted flag between its write and its read, and a skipped `panic!` are not modelled.
