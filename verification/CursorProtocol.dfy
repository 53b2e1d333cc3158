/** The persisted cursor under crashes: poll cycles, one step at a time, next to everything else that settles. */
module CursorProtocol {
  import opened Common
  import opened Db
  import opened Horizon
  import opened Settlement
  import opened Poller

  /** Where the poller stands. In `Handling` the records of the page from `start` up to `at` have been handed to
      `reconcile_payment`, and `Waiting` is the same while call `t` handles the record at `at`. */
  datatype Phase =
    | Idle
    | Baselining
    | Saving(latest: nat)
    | Fetching(cursor: nat, pages: nat)
    | Handling(cursor: nat, start: nat, at: nat, end: nat, pages: nat)
    | Waiting(cursor: nat, start: nat, at: nat, end: nat, pages: nat, t: nat)

  /** How the cursor was first persisted: as a baseline, after the records in `early` had been handed on by earlier
      cycles that failed; or as the checkpoint of a page that was read from the beginning. */
  datatype First = Baseline(at: nat, early: set<nat>) | Checkpointed

  /** Where the records begin that the cursor answers for. */
  function Base(f: First): nat { match f case Baseline(at, _) => at case Checkpointed => 0 }

  /** `persisted` is the stored cursor, `first` how it was first persisted, and `handed` the records whose
      `reconcile_payment` has returned to the poller. */
  datatype System = System(
    core: Settlement.State, chain: seq<Entry>, persisted: Option<nat>, phase: Phase, first: Option<First>, handed: set<nat>)

  datatype Step =
    | Grow(entry: Entry)
    | Begin
    | AskLatest
    | SaveLatest
    | Fetch
    | Hand(t: nat)
    | Returned
    | Checkpoint
    | CycleFails
    | Crash(ledger: seq<Credit>)
    | Other(a: Action)

  ghost predicate CanStep(s: System, step: Step) {
    match step
    case Grow(_) => true
    case Begin => s.phase.Idle?
    case AskLatest => s.phase.Baselining?
    case SaveLatest => s.phase.Saving?
    case Fetch => s.phase.Fetching? && s.phase.cursor <= |s.chain|
    case Hand(t) => s.phase.Handling? && s.phase.at < s.phase.end <= |s.chain| && Enabled(s.core, Deliver(t, s.chain[s.phase.at].hp))
    case Returned => s.phase.Waiting? && s.phase.t in s.core.procs && Finished(s.core.procs[s.phase.t])
    case Checkpoint => s.phase.Handling? && s.phase.at == s.phase.end
    case CycleFails => true
    case Crash(ledger) => Enabled(s.core, Restart(ledger))
    case Other(a) => !a.Restart? && Enabled(s.core, a)
  }

  function Persist(s: System, cursor: nat, how: First): System {
    s.(persisted := Some(cursor), first := if s.first.Some? then s.first else Some(how))
  }

  ghost function Do(s: System, step: Step): System
    requires CanStep(s, step)
  {
    match step
    case Grow(e) => s.(chain := s.chain + [e])
    case Begin => s.(phase := match s.persisted case Some(c) => Fetching(c, 0) case None => Baselining)
    case AskLatest => s.(phase := match Latest(s.chain) case Some(c) => Saving(c) case None => Fetching(0, 0))
    case SaveLatest => Persist(s, s.phase.latest, Baseline(s.phase.latest, s.handed)).(phase := Fetching(s.phase.latest, 0))
    case Fetch =>
      var c := s.phase.cursor;
      s.(phase := Handling(c, c, c, PageEnd(s.chain, c), s.phase.pages + 1))
    case Hand(t) =>
      var p := s.phase;
      s.(core := Apply(s.core, Deliver(t, s.chain[p.at].hp)),
         phase := Waiting(if s.chain[p.at].tokened then p.at + 1 else p.cursor, p.start, p.at, p.end, p.pages, t))
    case Returned =>
      var p := s.phase;
      s.(phase := Handling(p.cursor, p.start, p.at + 1, p.end, p.pages), handed := s.handed + {p.at})
    case Checkpoint =>
      var p := s.phase;
      Persist(s, p.cursor, Checkpointed).(phase :=
        if p.end - p.start < PAGE_LIMIT || p.pages >= MAX_PAGES_PER_CYCLE then Idle else Fetching(p.cursor, p.pages))
    case CycleFails => s.(phase := Idle)
    case Crash(ledger) => s.(core := Apply(s.core, Restart(ledger)), phase := Idle)
    case Other(a) => s.(core := Apply(s.core, a))
  }

  ghost predicate Fresh(s: System) {
    Initial(s.core) && s.persisted == None && s.phase == Idle && s.first == None && s.handed == {}
  }

  ghost predicate Moves(s: System, s': System) { exists step :: CanStep(s, step) && s' == Do(s, step) }

  ghost predicate IsHistory(run: seq<System>) {
    run != [] && Fresh(run[0]) && forall i :: 0 <= i < |run| - 1 ==> Moves(run[i], run[i + 1])
  }

  // ----- the invariant -----

  predicate Handed(s: System, from: nat, to: nat) { forall i :: from <= i < to ==> i in s.handed }

  /** A cycle starts at the persisted cursor, and at the beginning as long as there is none. */
  predicate StartsAt(s: System, start: nat) { start == if s.persisted.Some? then s.persisted.value else 0 }

  predicate PhaseOk(s: System) {
    match s.phase
    case Idle => true
    case Baselining => s.persisted == None
    case Saving(latest) => s.persisted == None && latest <= |s.chain|
    case Fetching(cursor, _) => cursor <= |s.chain| && StartsAt(s, cursor)
    case Handling(cursor, start, at, end, _) => start <= cursor <= at <= end <= |s.chain| && Handed(s, start, at) && StartsAt(s, start)
    case Waiting(cursor, start, at, end, _, _) =>
      start <= cursor <= at + 1 <= end <= |s.chain| && start <= at && Handed(s, start, at) && StartsAt(s, start)
  }

  /** Everything from the base on has been handed on; before it, exactly what earlier failed cycles had. */
  predicate BaseOk(s: System) {
    s.persisted.Some? && s.first.Some? ==>
      && Base(s.first.value) <= s.persisted.value <= |s.chain| && Handed(s, Base(s.first.value), s.persisted.value)
      && (s.first.value.Baseline? ==>
            forall i :: 0 <= i < s.first.value.at ==> (i in s.handed <==> i in s.first.value.early))
  }

  ghost predicate CursorInv(s: System) {
    Inv(s.core) && PhaseOk(s) && (s.persisted.Some? <==> s.first.Some?) && BaseOk(s)
  }

  lemma CursorInvKept(s: System, step: Step)
    requires CursorInv(s) && CanStep(s, step)
    ensures CursorInv(Do(s, step))
  {
    hide Inv, Enabled, Apply;
    match step
    case Hand(t) => InvKept(s.core, Deliver(t, s.chain[s.phase.at].hp));
    case Crash(ledger) => InvKept(s.core, Restart(ledger));
    case Other(a) => InvKept(s.core, a);
    case _ =>
  }

  lemma FreshOk(s: System)
    requires Fresh(s)
    ensures CursorInv(s)
  {
    assert IsRun([s.core]) && [s.core][0] == s.core;
    InvHolds([s.core], 0);
    hide Inv, Initial;
  }

  lemma StepAt(run: seq<System>, i: nat) returns (step: Step)
    requires IsHistory(run) && i + 1 < |run|
    ensures CanStep(run[i], step) && run[i + 1] == Do(run[i], step)
  {
    hide CanStep, Do, Fresh;
    assert Moves(run[i], run[i + 1]);
    step :| CanStep(run[i], step) && run[i + 1] == Do(run[i], step);
  }

  lemma {:induction false} CursorInvHolds(run: seq<System>, i: nat)
    requires IsHistory(run) && i < |run|
    ensures CursorInv(run[i])
  {
    hide CursorInv, CanStep, Do;
    if i == 0 {
      FreshOk(run[0]);
    } else {
      CursorInvHolds(run, i - 1);
      var step := StepAt(run, i - 1);
      CursorInvKept(run[i - 1], step);
    }
  }

  // ----- what every history keeps -----

  /** Every record from the base up to the persisted cursor has been handed to `reconcile_payment`; when the cursor was
      first persisted as a checkpoint, that is every record behind it. */
  lemma NoRecordSkipped(run: seq<System>, i: nat, k: nat)
    requires IsHistory(run) && i < |run| && run[i].persisted.Some?
    ensures run[i].first.Some? && Base(run[i].first.value) <= run[i].persisted.value <= |run[i].chain|
    ensures Base(run[i].first.value) <= k < run[i].persisted.value ==> k in run[i].handed
    ensures run[i].first.value.Checkpointed? && k < run[i].persisted.value ==> k in run[i].handed
  {
    hide IsHistory, Inv;
    CursorInvHolds(run, i);
  }

  /** A record behind the cursor is never handed on exactly when the first cursor was a saved baseline, the record lies
      below it, and no earlier cycle that failed had handed it on. */
  lemma SkippedIff(run: seq<System>, i: nat, k: nat)
    requires IsHistory(run) && i < |run| && run[i].persisted.Some? && k < run[i].persisted.value
    ensures run[i].first.Some?
    ensures k !in run[i].handed <==>
              && run[i].first.value.Baseline? && k < run[i].first.value.at && k !in run[i].first.value.early
  {
    hide IsHistory, Inv;
    CursorInvHolds(run, i);
  }

  /** What was handed on early was handed on before there was a cursor. */
  lemma {:induction false} EarlyWasHanded(run: seq<System>, i: nat, k: nat) returns (j: nat)
    requires IsHistory(run) && i < |run| && run[i].first.Some? && run[i].first.value.Baseline? && k in run[i].first.value.early
    ensures j < i && run[j].persisted == None && k in run[j].handed
  {
    hide CursorInv, CanStep, Do, IsHistory;
    if i == 0 {
      FreshHasNoFirst(run);
      assert false;
    } else {
      CursorInvHolds(run, i - 1);
      var step := StepAt(run, i - 1);
      if run[i - 1].first.Some? {
        StepMovesForward(run[i - 1], step);
        j := EarlyWasHanded(run, i - 1, k);
      } else {
        FirstIsTaken(run[i - 1], step);
        j := i - 1;
      }
    }
  }

  /** The step in which a cycle without a cursor asks for the latest payment, and finds one with its token. */
  predicate AsksLatest(s: System, s': System, at: nat) {
    s.phase.Baselining? && s'.phase == Saving(at) && s.chain != [] && s.chain[|s.chain| - 1].tokened && at == |s.chain|
  }

  lemma SavingStep(s: System, step: Step, at: nat)
    requires CanStep(s, step) && Do(s, step).phase == Saving(at)
    ensures s.phase == Saving(at) || AsksLatest(s, Do(s, step), at)
  {
    hide Enabled, Apply;
  }

  lemma {:induction false} SavingIsLatest(run: seq<System>, i: nat, at: nat) returns (j: nat)
    requires IsHistory(run) && i < |run| && run[i].phase == Saving(at)
    ensures j + 1 <= i && AsksLatest(run[j], run[j + 1], at)
  {
    hide CanStep, Do, AsksLatest, IsHistory;
    if i == 0 {
      FreshIsIdle(run);
      assert false;
    } else {
      var step := StepAt(run, i - 1);
      SavingStep(run[i - 1], step, at);
      if run[i - 1].phase == Saving(at) {
        j := SavingIsLatest(run, i - 1, at);
      } else {
        j := i - 1;
      }
    }
  }

  lemma FreshIsIdle(run: seq<System>)
    requires IsHistory(run)
    ensures run[0].phase == Idle && run[0].first == None
  {
  }

  lemma FirstStep(s: System, step: Step, at: nat)
    requires CanStep(s, step) && Do(s, step).first.Some? && Do(s, step).first.value.Baseline? && Do(s, step).first.value.at == at
    ensures s.phase == Saving(at) || (s.first == Do(s, step).first)
  {
    hide Enabled, Apply;
  }

  /** A saved baseline is the token of the latest payment, as of the step that asked for it. */
  lemma {:induction false} BaselineIsLatest(run: seq<System>, i: nat, at: nat) returns (j: nat)
    requires IsHistory(run) && i < |run| && run[i].first.Some? && run[i].first.value.Baseline? && run[i].first.value.at == at
    ensures j + 1 <= i && AsksLatest(run[j], run[j + 1], at)
  {
    hide CanStep, Do, AsksLatest, IsHistory;
    if i == 0 {
      FreshIsIdle(run);
      assert false;
    } else {
      var step := StepAt(run, i - 1);
      FirstStep(run[i - 1], step, at);
      if run[i - 1].first == run[i].first {
        j := BaselineIsLatest(run, i - 1, at);
      } else {
        j := SavingIsLatest(run, i - 1, at);
      }
    }
  }

  lemma FreshHasNoFirst(run: seq<System>)
    requires IsHistory(run)
    ensures run[0].first == None
  {
  }

  lemma FirstIsTaken(s: System, step: Step)
    requires CursorInv(s) && CanStep(s, step) && s.first.None? && Do(s, step).first.Some? && Do(s, step).first.value.Baseline?
    ensures s.persisted == None && Do(s, step).first.value.early == s.handed
  {
    hide Inv, Enabled, Apply;
  }

  predicate NotBefore(a: Option<nat>, b: Option<nat>) { a.Some? ==> b.Some? && a.value <= b.value }

  lemma StepMovesForward(s: System, step: Step)
    requires CursorInv(s) && CanStep(s, step)
    ensures NotBefore(s.persisted, Do(s, step).persisted)
    ensures s.first.Some? ==> Do(s, step).first == s.first
    ensures s.handed <= Do(s, step).handed && s.chain <= Do(s, step).chain
  {
    hide Inv, Enabled, Apply;
  }

  /** The persisted cursor never moves back, whatever crashes or fails in between. */
  lemma {:induction false} CursorNeverMovesBack(run: seq<System>, i: nat, j: nat)
    requires IsHistory(run) && i <= j < |run|
    ensures NotBefore(run[i].persisted, run[j].persisted)
    ensures run[i].first.Some? ==> run[j].first == run[i].first
    decreases j - i
  {
    hide CursorInv, CanStep, Do, IsHistory;
    if i < j {
      CursorNeverMovesBack(run, i, j - 1);
      CursorInvHolds(run, j - 1);
      var step := StepAt(run, j - 1);
      StepMovesForward(run[j - 1], step);
    }
  }

  /** However often the stream redelivers, no transaction is credited twice to an intent. */
  lemma NeverCreditedTwice(run: seq<System>, i: nat)
    requires IsHistory(run) && i < |run|
    ensures NoDoubleCredit(run[i].core.db.ledger)
  {
    hide IsHistory, NoDoubleCredit, RowsInv, LogInv, LostIsExact;
    CursorInvHolds(run, i);
  }

  // ----- before the first persisted cursor -----

  function Final(run: seq<System>): System
    requires run != []
  {
    run[|run| - 1]
  }

  lemma HistoryExtends(run: seq<System>, step: Step) returns (more: seq<System>)
    requires IsHistory(run) && CanStep(Final(run), step)
    ensures IsHistory(more) && more != [] && Final(more) == Do(Final(run), step)
  {
    hide CanStep, Do, Fresh;
    more := run + [Do(Final(run), step)];
    forall i | 0 <= i < |more| - 1 ensures Moves(more[i], more[i + 1]) {
      if i < |run| - 1 { assert Moves(run[i], run[i + 1]); }
    }
  }

  lemma FirstHistory() returns (run: seq<System>)
    ensures IsHistory(run) && run != [] && Final(run).chain == [] && Fresh(Final(run))
  {
    run := [System(Settlement.State(Tables(map[], []), map[], [], {}), [], None, Idle, None, {})];
  }

  /** The condition can be met: a payment that arrives while the very first cycle fails is skipped, because the
      next cycle takes its baseline after it. */
  lemma FirstCycleMaySkip(e: Entry) returns (run: seq<System>)
    requires e.tokened
    ensures IsHistory(run) && run != [] && Final(run).chain == [e]
    ensures Final(run).persisted == Some(1) && Final(run).first == Some(Baseline(1, {})) && 0 !in Final(run).handed
  {
    hide IsHistory;
    run := FirstHistory();
    run := HistoryExtends(run, Begin);
    run := HistoryExtends(run, AskLatest);
    assert Final(run).phase == Fetching(0, 0);
    run := HistoryExtends(run, Grow(e));
    assert Final(run).chain == [e];
    run := HistoryExtends(run, CycleFails);
    run := HistoryExtends(run, Begin);
    run := HistoryExtends(run, AskLatest);
    run := HistoryExtends(run, SaveLatest);
  }
}
