/** Background tasks: the health counters, and the loop that keeps one task running. */
module Supervisor {
  import opened Common

  // ----- what health reports -----

  function IsLive(name: string, running: map<string, bool>): bool { name in running && running[name] }

  /** `filter(...).count()` and `filter(...).collect()` over the required tasks that are not disabled. */
  function Expected(required: seq<string>, disabled: map<string, string>): nat {
    if required == [] then 0 else Expected(required[..|required| - 1], disabled) + (if required[|required| - 1] in disabled then 0 else 1)
  }

  function Live(required: seq<string>, disabled: map<string, string>, running: map<string, bool>): nat {
    if required == [] then 0
    else
      var name := required[|required| - 1];
      Live(required[..|required| - 1], disabled, running) + (if name !in disabled && IsLive(name, running) then 1 else 0)
  }

  function Dead(required: seq<string>, disabled: map<string, string>, running: map<string, bool>): seq<string> {
    if required == [] then []
    else
      var name := required[|required| - 1];
      Dead(required[..|required| - 1], disabled, running) + (if name !in disabled && !IsLive(name, running) then [name] else [])
  }

  /** In every state the expected tasks are the live ones and the dead ones. */
  lemma {:induction false} ExpectedIsLivePlusDead(required: seq<string>, disabled: map<string, string>, running: map<string, bool>)
    ensures Expected(required, disabled) == Live(required, disabled, running) + |Dead(required, disabled, running)|
  {
    if required != [] { ExpectedIsLivePlusDead(required[..|required| - 1], disabled, running); }
  }

  /** A task is reported dead exactly when it is required, not disabled and not running. */
  lemma {:induction false} DeadIff(required: seq<string>, disabled: map<string, string>, running: map<string, bool>, name: string)
    ensures name in Dead(required, disabled, running) <==> name in required && name !in disabled && !IsLive(name, running)
  {
    if required != [] {
      DeadIff(required[..|required| - 1], disabled, running, name);
      assert required == required[..|required| - 1] + [required[|required| - 1]];
    }
  }

  function Count(counts: map<string, nat>, name: string): nat { if name in counts then counts[name] else 0 }

  class TaskHealth {
    var required: seq<string>
    var started: nat
    var stopped: nat
    var failed: nat
    var running: map<string, bool>
    var disabled: map<string, string>
    var consecutiveFailures: map<string, nat>
    var restarts: map<string, nat>

    constructor ()
      ensures required == [] && started == stopped == failed == 0
      ensures running == map[] && disabled == map[] && consecutiveFailures == map[] && restarts == map[]
    {
      required, started, stopped, failed := [], 0, 0, 0;
      running, disabled, consecutiveFailures, restarts := map[], map[], map[], map[];
    }

    method Require(name: string)
      modifies `required
      ensures required == old(required) + [name]
    {
      required := required + [name];
    }

    method TaskStarted(name: string)
      modifies `started, `running
      ensures started == old(started) + 1 && running == old(running)[name := true]
    {
      started, running := started + 1, running[name := true];
    }

    method TaskStopped(name: string)
      modifies `stopped, `running
      ensures stopped == old(stopped) + 1 && running == old(running)[name := false]
    {
      stopped, running := stopped + 1, running[name := false];
    }

    method TaskFailed(name: string)
      modifies `failed, `running, `consecutiveFailures
      ensures failed == old(failed) + 1 && running == old(running)[name := false]
      ensures consecutiveFailures == old(consecutiveFailures)[name := Count(old(consecutiveFailures), name) + 1]
    {
      failed, running := failed + 1, running[name := false];
      consecutiveFailures := consecutiveFailures[name := Count(consecutiveFailures, name) + 1];
    }

    method TaskRestarted(name: string)
      modifies `restarts
      ensures restarts == old(restarts)[name := Count(old(restarts), name) + 1]
    {
      restarts := restarts[name := Count(restarts, name) + 1];
    }

    method TaskDisabled(name: string, reason: string)
      modifies `stopped, `running, `disabled
      ensures stopped == old(stopped) + 1 && running == old(running)[name := false] && disabled == old(disabled)[name := reason]
    {
      stopped, running, disabled := stopped + 1, running[name := false], disabled[name := reason];
    }

    method NoteStable(name: string)
      modifies `consecutiveFailures
      ensures consecutiveFailures == old(consecutiveFailures)[name := 0]
    {
      consecutiveFailures := consecutiveFailures[name := 0];
    }
  }

  // ----- the supervised task, as it goes -----

  datatype Exit = ShutdownRequested | DisabledByConfig(reason: string) | Fatal | Panic | Cancelled

  datatype Child = StillRunning | ShutdownWhileRunning | Exits(exit: Exit)

  datatype Pause = StillWaiting | ShutdownWhileWaiting | Slept

  /** What one turn of the loop meets: the shutdown flag at its top, whether the stability timer fired, how the child
      went, the flag again after the join, and the pause before the next turn. */
  datatype Turn = Turn(downAtTop: bool, stable: bool, child: Child, downAfter: bool, pause: Pause)

  /** Where the supervisor is when we stop looking. */
  datatype Seen = AtTop | Running | Waiting | Returned

  /** A fatal exit or a panic that the supervisor acts on. */
  predicate IsFault(t: Turn) { t.child.Exits? && !t.downAfter && (t.child.exit.Fatal? || t.child.exit.Panic?) }

  predicate GoesOn(t: Turn) { !t.downAtTop && IsFault(t) && t.pause.Slept? }

  function Starts(turns: seq<Turn>): nat {
    if turns == [] || turns[0].downAtTop then 0 else 1 + (if GoesOn(turns[0]) then Starts(turns[1..]) else 0)
  }

  function Faults(turns: seq<Turn>): nat {
    if turns == [] || turns[0].downAtTop || !IsFault(turns[0]) then 0
    else 1 + (if GoesOn(turns[0]) then Faults(turns[1..]) else 0)
  }

  function Panics(turns: seq<Turn>): nat {
    if turns == [] || turns[0].downAtTop || !IsFault(turns[0]) then 0
    else (if turns[0].child.exit.Panic? then 1 else 0) + (if GoesOn(turns[0]) then Panics(turns[1..]) else 0)
  }

  /** The panics since the task last ran for the stability period. */
  function Streak(turns: seq<Turn>, before: nat): nat {
    if turns == [] || turns[0].downAtTop then before
    else
      var t := turns[0];
      var now := (if t.stable then 0 else before) + (if IsFault(t) && t.child.exit.Panic? then 1 else 0);
      if GoesOn(t) then Streak(turns[1..], now) else now
  }

  /** The `k`-th pause: doubling up to `max`. */
  function Delay(initial: nat, max: nat, k: nat): nat {
    if k == 0 then initial else Min(2 * Delay(initial, max, k - 1), max)
  }

  /** The first pause is `initial` even above the cap; every later one is `initial * 2^k`, capped. */
  lemma {:induction false} DelayIs(initial: nat, max: nat, k: nat)
    ensures Delay(initial, max, k) == if k == 0 then initial else Min(initial * Pow2(k), max)
    ensures initial <= max ==> Delay(initial, max, k) == Min(initial * Pow2(k), max)
  {
    if k > 0 {
      DelayIs(initial, max, k - 1);
      assert initial * Pow2(k) == 2 * (initial * Pow2(k - 1)) by { Double(initial, Pow2(k - 1)); }
      assert Pow2(0) == 1;
    }
  }

  lemma Double(a: nat, b: nat)
    ensures a * (2 * b) == 2 * (a * b)
  {
  }

  predicate FollowsSchedule(pauses: seq<nat>, initial: nat, max: nat) {
    forall k :: 0 <= k < |pauses| ==> pauses[k] == Delay(initial, max, k)
  }

  lemma FirstPause(initial: nat, max: nat)
    ensures FollowsSchedule([], initial, max) && Delay(initial, max, 0) == initial
  {
  }

  lemma NextPause(pauses: seq<nat>, initial: nat, max: nat)
    requires FollowsSchedule(pauses, initial, max)
    ensures FollowsSchedule(pauses + [Delay(initial, max, |pauses|)], initial, max)
    ensures Delay(initial, max, |pauses| + 1) == Min(2 * Delay(initial, max, |pauses|), max)
  {
  }

  /** How a turn ends: with a fault and a full pause, or by ending what we see. */
  datatype TurnEnd = Again | Ends(seen: Seen)

  predicate Paused(t: Turn) { !t.downAtTop && IsFault(t) }

  function StreakAfter(t: Turn, before: nat): nat {
    if t.downAtTop then before
    else (if t.stable then 0 else before) + (if IsFault(t) && t.child.exit.Panic? then 1 else 0)
  }

  /** What the supervisor records when it acts on a child's end, and whether it restarts the task. */
  method ChildEnded(health: TaskHealth, name: string, exit: Exit) returns (restart: bool)
    modifies health
    ensures restart <==> exit.Fatal? || exit.Panic?
    ensures health.required == old(health.required) && health.started == old(health.started) && health.restarts == old(health.restarts)
    ensures health.failed == old(health.failed) + (if exit.Panic? then 1 else 0)
    ensures health.stopped == old(health.stopped) + (if exit.Panic? then 0 else 1)
    ensures Count(health.consecutiveFailures, name) == Count(old(health.consecutiveFailures), name) + (if exit.Panic? then 1 else 0)
    ensures exit.DisabledByConfig? ==> name in health.disabled && health.disabled[name] == exit.reason
    ensures !exit.DisabledByConfig? ==> health.disabled == old(health.disabled)
    ensures !IsLive(name, health.running)
  {
    match exit {
      case ShutdownRequested => health.TaskStopped(name);
      case DisabledByConfig(reason) => health.TaskDisabled(name, reason);
      case Fatal => health.TaskStopped(name);
      case Panic => health.TaskFailed(name);
      case Cancelled => health.TaskStopped(name);
    }
    restart := exit.Fatal? || exit.Panic?;
  }

  /** One turn of the loop, up to the end of its pause. */
  method OneTurn(health: TaskHealth, name: string, t: Turn) returns (end: TurnEnd)
    modifies health
    ensures health.required == old(health.required)
    ensures end.Again? <==> GoesOn(t)
    ensures health.started == old(health.started) + (if t.downAtTop then 0 else 1)
    ensures health.failed == old(health.failed) + (if Paused(t) && t.child.exit.Panic? then 1 else 0)
    ensures Count(health.restarts, name) == Count(old(health.restarts), name) + (if Paused(t) then 1 else 0)
    ensures Count(health.consecutiveFailures, name) == StreakAfter(t, Count(old(health.consecutiveFailures), name))
    ensures var ends := health.stopped - old(health.stopped) + health.failed - old(health.failed);
            var starts := health.started - old(health.started);
            match end
            case Again => starts == ends
            case Ends(Running) => starts == ends + 1
            case Ends(Waiting) => starts == ends
            case Ends(Returned) => starts == ends || starts + 1 == ends
            case Ends(AtTop) => false
    ensures end == Ends(Running) ==> IsLive(name, health.running)
    ensures end == Ends(Returned) || end == Ends(Waiting) ==> !IsLive(name, health.running)
  {
    if t.downAtTop {
      health.TaskStopped(name);
      return Ends(Returned);
    }
    health.TaskStarted(name);
    if t.stable { health.NoteStable(name); }
    if t.child.StillRunning? { return Ends(Running); }
    if t.child.ShutdownWhileRunning? || t.downAfter {
      health.TaskStopped(name);
      return Ends(Returned);
    }
    var restart := ChildEnded(health, name, t.child.exit);
    if !restart { return Ends(Returned); }
    health.TaskRestarted(name);
    if t.pause.StillWaiting? { return Ends(Waiting); }
    if t.pause.ShutdownWhileWaiting? {
      health.TaskStopped(name);
      return Ends(Returned);
    }
    end := Again;
  }

  function Bit(b: bool): nat { if b then 1 else 0 }

  lemma NextTurn(turns: seq<Turn>, i: nat, before: nat)
    requires i < |turns|
    ensures var t, more := turns[i], GoesOn(turns[i]);
            && Starts(turns[i..]) == Bit(!t.downAtTop) + (if more then Starts(turns[i + 1..]) else 0)
            && Faults(turns[i..]) == Bit(Paused(t)) + (if more then Faults(turns[i + 1..]) else 0)
            && Panics(turns[i..]) == Bit(Paused(t) && t.child.exit.Panic?) + (if more then Panics(turns[i + 1..]) else 0)
            && Streak(turns[i..], before)
               == if more then Streak(turns[i + 1..], StreakAfter(t, before)) else StreakAfter(t, before)
  {
    assert turns[i..][0] == turns[i] && turns[i..][1..] == turns[i + 1..];
  }

  lemma NoTurns(turns: seq<Turn>, before: nat)
    ensures Starts(turns[|turns|..]) == Faults(turns[|turns|..]) == Panics(turns[|turns|..]) == 0
    ensures Streak(turns[|turns|..], before) == before
  {
  }

  /** `supervise_with`, until it returns or we stop looking. `pauses` are the backoff sleeps it begins. */
  method Supervise(health: TaskHealth, name: string, turns: seq<Turn>, initial: nat, max: nat) returns (seen: Seen, pauses: seq<nat>)
    modifies health
    ensures health.required == old(health.required)
    // Starts balance with ends, with one more while a child lives; a shutdown outside a child's life counts as one extra end.
    ensures !seen.Returned? ==>
              health.started - old(health.started)
              == health.stopped - old(health.stopped) + health.failed - old(health.failed) + (if seen.Running? then 1 else 0)
    ensures seen.Returned? ==>
              0 <= health.stopped - old(health.stopped) + health.failed - old(health.failed) - (health.started - old(health.started)) <= 1
    ensures health.started - old(health.started) == Starts(turns) && health.failed - old(health.failed) == Panics(turns)
    ensures Count(health.restarts, name) - Count(old(health.restarts), name) == Faults(turns) == |pauses|
    ensures FollowsSchedule(pauses, initial, max)
    ensures Count(health.consecutiveFailures, name) == Streak(turns, Count(old(health.consecutiveFailures), name))
    ensures seen.Running? ==> IsLive(name, health.running)
    ensures seen.Returned? || seen.Waiting? ==> !IsLive(name, health.running)
  {
    hide IsLive, Starts, Faults, Panics, Streak, StreakAfter, Count, GoesOn, Paused, Delay, FollowsSchedule;
    pauses := [];
    FirstPause(initial, max);
    var delay := initial;
    var i := 0;
    assert turns[0..] == turns;
    while i < |turns|
      invariant i <= |turns| && health.required == old(health.required)
      invariant health.started - old(health.started) == health.stopped - old(health.stopped) + health.failed - old(health.failed)
      invariant health.started - old(health.started) + Starts(turns[i..]) == Starts(turns)
      invariant health.failed - old(health.failed) + Panics(turns[i..]) == Panics(turns)
      invariant Count(health.restarts, name) - Count(old(health.restarts), name) == |pauses|
      invariant |pauses| + Faults(turns[i..]) == Faults(turns)
      invariant delay == Delay(initial, max, |pauses|) && FollowsSchedule(pauses, initial, max)
      invariant Streak(turns[i..], Count(health.consecutiveFailures, name))
             == Streak(turns, Count(old(health.consecutiveFailures), name))
    {
      NextTurn(turns, i, Count(health.consecutiveFailures, name));
      var end := OneTurn(health, name, turns[i]);
      if Paused(turns[i]) {
        NextPause(pauses, initial, max);
        pauses := pauses + [delay];
        delay := Min(2 * delay, max);
      }
      if end.Ends? { return end.seen, pauses; }
      i := i + 1;
    }
    NoTurns(turns, Count(health.consecutiveFailures, name));
    seen := AtTop;
  }
}
