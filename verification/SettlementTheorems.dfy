/** What holds over every interleaving, and the interleavings that limit it. */
module SettlementTheorems {
  import opened Common
  import opened Money
  import opened Db
  import opened Horizon
  import opened Settlement

  // ----- no lost settlement -----

  /** In every state of every run, with any failures and restarts: an intent that is still open is lost if and only if
      its ledger covers the price and no reconciler in flight is bound to complete it. What is lost is what the deaths of
      last responsible reconcilers have left behind since the last new credit: see `LossesAre`. */
  lemma LostExactly(run: seq<State>, i: nat, id: string)
    requires IsRun(run) && i < |run| && Updatable(run[i].db, id)
    ensures id in run[i].lost <==> Covered(run[i].db, id) && !SomeoneResponsible(run[i].procs, id)
  {
    hide Covered, SomeoneResponsible, Updatable, IsRun;
    InvHolds(run, i);
    WatchOf(run[i], id);
  }

  /** So a covered intent that is not lost is being completed, by someone who knows all that this takes. */
  lemma NoLostSettlement(run: seq<State>, i: nat, id: string)
    requires IsRun(run) && i < |run| && Covered(run[i].db, id) && id !in run[i].lost
    ensures exists t :: t in run[i].procs && Responsible(run[i].procs[t], id) && ProcOk(run[i].db, run[i].procs[t])
  {
    CoveredIsOpen(run[i].db, id);
    hide Covered, Responsible, ProcOk, Updatable;
    InvHolds(run, i);
    LostExactly(run, i, id);
    var t :| t in run[i].procs && Responsible(run[i].procs[t], id);
    assert ProcOk(run[i].db, run[i].procs[t]);
  }

  lemma CoveredIsOpen(db: Tables, id: string)
    requires Covered(db, id)
    ensures Updatable(db, id)
  {
    hide Total, Price;
  }

  /** An action newly loses an intent exactly by killing its last responsible reconciler while it is covered, and ends a
      loss exactly by crediting the intent with a new transaction. */
  lemma LossesAre(s: State, a: Action, id: string)
    requires ProcsInv(s) && RowsInv(s) && LostIsExact(s) && Enabled(s, a)
    ensures id !in s.lost ==>
              (id in Apply(s, a).lost <==>
                 && (a.Fail? || a.Restart?) && Covered(s.db, id)
                 && SomeoneResponsible(s.procs, id) && !SomeoneResponsible(Apply(s, a).procs, id))
    ensures id in s.lost ==>
              (id !in Apply(s, a).lost <==> a.Advance? && id in Credited(s.db, s.procs[a.t]))
    ensures id in s.lost && id !in Apply(s, a).lost ==> SomeoneResponsible(Apply(s, a).procs, id)
  {
    hide Covered, Responsible, Effect, Committed, ProcsInv, RowsInv, LostIsExact, Backfilled, Consistent, OldestOverdue, Recorded;
    if Covered(s.db, id) { CoveredIsOpen(s.db, id); }
    if a.Fail? {
      OthersUnmoved(s.procs, a.t, Failed, id);
      ResponsibleSplit(s.procs, a.t, id);
      DoneIsNotResponsible(id);
    }
    if a.Advance? && id in Credited(s.db, s.procs[a.t]) {
      ResummingIsResponsible(s.procs[a.t].p, s.procs[a.t].hp, id);
      assert Responsible(Apply(s, a).procs[a.t], id);
    }
  }

  ghost predicate Quiescent(s: State) { forall t :: t in s.procs ==> Finished(s.procs[t]) }

  /** With nothing in flight, an intent that is still open has been paid if and only if it is lost. */
  lemma QuiescentMeansUnpaid(run: seq<State>, i: nat, id: string)
    requires IsRun(run) && i < |run| && Quiescent(run[i])
    requires Updatable(run[i].db, id) && Total(run[i].db.ledger, id) <= I64_MAX
    ensures Total(run[i].db.ledger, id) < Price(run[i].db.payments[id]) <==> id !in run[i].lost
  {
    hide Price, Total, IsRun;
    LostExactly(run, i, id);
  }

  ghost predicate NextWithoutFailure(s: State, s': State) {
    exists a: Action :: !a.Fail? && !a.Restart? && Enabled(s, a) && s' == Apply(s, a)
  }

  ghost predicate WithoutFailure(run: seq<State>) {
    forall i :: 0 <= i < |run| - 1 ==> NextWithoutFailure(run[i], run[i + 1])
  }

  /** Without crashes and database errors nothing is ever lost. */
  lemma {:induction false} NothingLost(run: seq<State>, i: nat)
    requires IsRun(run) && WithoutFailure(run) && i < |run|
    ensures run[i].lost == {}
  {
    if i > 0 {
      NothingLost(run, i - 1);
      assert NextWithoutFailure(run[i - 1], run[i - 1 + 1]);
      hide Enabled;
    }
  }

  /** So every intent that the ledger covers is being completed, in every such run. */
  lemma NoLostSettlementWithoutFailure(run: seq<State>, i: nat, id: string)
    requires IsRun(run) && WithoutFailure(run) && i < |run| && Covered(run[i].db, id)
    ensures SomeoneResponsible(run[i].procs, id) && !Quiescent(run[i])
  {
    NothingLost(run, i);
    hide IsRun, WithoutFailure;
    NoLostSettlement(run, i, id);
  }

  /** Nobody else's step takes the responsibility away. */
  lemma ResponsibleStays(s: State, a: Action, t: nat, id: string)
    requires Enabled(s, a) && t in s.procs && Responsible(s.procs[t], id)
    requires !a.Restart? && !(a.Fail? && a.t == t) && !(a.Advance? && a.t == t)
    ensures t in Apply(s, a).procs && Apply(s, a).procs[t] == s.procs[t]
  {
    hide Responsible, Effect, Continue, Committed;
  }

  /** The responsible reconciler needs at most two more statements, and they complete the intent. */
  lemma ResponsibleFinishes(s: State, t: nat, now: int, id: string)
    requires ProcsInv(s) && Covered(s.db, id) && t in s.procs && Responsible(s.procs[t], id)
    ensures var run := RunAlone(s.db, now, s.procs[t]);
            && run.proc == Done(true) && Rank(s.procs[t]) <= 2
            && id in run.db.payments && run.db.payments[id].status == Completed
            && Price(s.db.payments[id]) <= Paid(run.db.payments[id])
            && |run.sent| == 1 && IsTerminal(run.sent[0]) && AmountsAddUp(run.sent[0])
  {
    hide Parse, Print, Consistent, Recorded, Total, Pays, RunAlone, Verify, SettledPayload;
    var proc := s.procs[t];
    assert ProcOk(s.db, proc);
    PriceIsPositive(s.db, proc.p);
    if proc.Resumming? {
      CreditedTotal(s.db, id, proc.hp.Hash());
      RunStep(s.db, now, proc);
      var d := Decide(proc.p, Total(s.db.ledger, id));
      DecideKnows(proc.p, Total(s.db.ledger, id));
      FinishUpdating(s.db, now, proc.p, proc.hp.Hash(), d);
    } else {
      FinishUpdating(s.db, now, proc.p, proc.hash, proc.decision);
    }
  }

  lemma FinishUpdating(db: Tables, now: int, p: Payment, hash: string, d: Decision)
    requires Consistent(db) && ProcOk(db, Updating(p, hash, d)) && d.status == Completed && Watchable(db.payments[p.id])
    ensures var run := RunAlone(db, now, Updating(p, hash, d));
            && run.proc == Done(true) && p.id in run.db.payments && run.db.payments[p.id].status == Completed
            && Price(p) <= Paid(run.db.payments[p.id])
            && |run.sent| == 1 && IsTerminal(run.sent[0]) && AmountsAddUp(run.sent[0])
  {
    hide Parse, Print, Recorded, Total, RunAlone, SettledPayload, Consistent, AmountsAddUp;
    RunUpdate(db, now, p, hash, d);
    UpdateAnnounces(db, p, hash, d);
    PriceIsPositive(db, p);
    UpdatedRowOk(db, p, hash, d);
  }

  // ----- one terminal transition -----

  lemma ActionAt(run: seq<State>, i: nat) returns (a: Action)
    requires IsRun(run) && i + 1 < |run|
    ensures Inv(run[i]) && Enabled(run[i], a) && run[i + 1] == Apply(run[i], a)
  {
    hide Inv, Enabled, Apply, Initial;
    InvHolds(run, i);
    assert Next(run[i], run[i + 1]);
    a :| Enabled(run[i], a) && run[i + 1] == Apply(run[i], a);
  }

  /** A completed or expired row is never written again. */
  lemma TerminalRowIsFinal(s: State, a: Action, id: string)
    requires Inv(s) && Enabled(s, a) && Closed(s.db, id)
    ensures id in Apply(s, a).db.payments && Apply(s, a).db.payments[id] == s.db.payments[id]
  {
    hide Parse, Consistent, ProcOk, RowOk, Total, Recorded, LogInv, LostIsExact;
    if a.Restart? { BackfillIsNoop(s, a.ledger); }
    hide Backfilled;
    if a.Advance? && s.procs[a.t].Recording? {
      var proc := s.procs[a.t];
      RecordPayments(s.db, proc.p.id, proc.hp.Hash(), match proc.hp.Stroops() case Some(n) => n case None => 0);
    }
  }

  /** Row `id` exists in both and is the same. */
  predicate SameRow(a: Tables, b: Tables, id: string) {
    id in a.payments && id in b.payments && a.payments[id] == b.payments[id]
  }

  lemma SameRowTrans(a: Tables, b: Tables, c: Tables, id: string)
    requires Closed(a, id) && SameRow(a, b, id)
    ensures Closed(b, id)
    ensures SameRow(b, c, id) ==> SameRow(a, c, id)
  {
  }

  lemma TerminalRowStep(run: seq<State>, i: nat, id: string)
    requires IsRun(run) && i + 1 < |run| && Closed(run[i].db, id)
    ensures SameRow(run[i].db, run[i + 1].db, id)
  {
    hide Inv, Enabled, Apply, IsRun;
    var a := ActionAt(run, i);
    TerminalRowIsFinal(run[i], a, id);
  }

  lemma SameRowRefl(a: Tables, id: string)
    requires Closed(a, id)
    ensures SameRow(a, a, id)
  {
  }

  lemma {:induction false} TerminalRowIsFinalForever(run: seq<State>, i: nat, j: nat, id: string)
    requires IsRun(run) && i <= j < |run| && Closed(run[i].db, id)
    ensures SameRow(run[i].db, run[j].db, id)
    decreases j - i
  {
    hide Closed, SameRow, IsRun;
    if i < j {
      TerminalRowIsFinalForever(run, i, j - 1, id);
      SameRowTrans(run[i].db, run[j - 1].db, run[j].db, id);
      TerminalRowStep(run, j - 1, id);
    } else {
      SameRowRefl(run[i].db, id);
    }
  }

  /** At most one terminal notification is committed per intent, exactly when it has been closed;
      and the amounts in every settlement notification add up. */
  lemma OneTerminalNotification(run: seq<State>, i: nat, id: string)
    requires IsRun(run) && i < |run|
    ensures TerminalCount(run[i].log, id) == if Closed(run[i].db, id) then 1 else 0
    ensures forall n :: n in run[i].log && n.event != ExpiredEvent ==> AmountsAddUp(n)
  {
    InvHolds(run, i);
    hide AmountsAddUp, TerminalCount, Closed, IsRun;
  }

  /** Statuses say how the recorded amount compares with the price, and the ledger backs it. */
  lemma StatusesAreBacked(run: seq<State>, i: nat, id: string)
    requires IsRun(run) && i < |run| && id in run[i].db.payments
    ensures var p := run[i].db.payments[id];
            && (p.status == Completed ==> Price(p) <= Paid(p) <= Total(run[i].db.ledger, id))
            && (p.status == Underpaid ==> 0 < Paid(p) < Price(p) && Paid(p) <= Total(run[i].db.ledger, id))
            && (p.txHash.Some? ==> Recorded(run[i].db.ledger, id, p.txHash.value))
            && NoDoubleCredit(run[i].db.ledger)
  {
    InvHolds(run, i);
    hide Parse, Total, Recorded, NoDoubleCredit, IsRun, LogInv, LostIsExact;
    assert RowOk(run[i].db, run[i].db.payments[id]);
  }

  // ----- restarts -----

  /** Restarting, even in the middle of reconciliations, leaves every table as it was. */
  lemma RestartChangesNothing(run: seq<State>, i: nat, ledger: seq<Credit>)
    requires IsRun(run) && i < |run| && Enabled(run[i], Restart(ledger))
    ensures Apply(run[i], Restart(ledger)).db == run[i].db
  {
    InvHolds(run, i);
    hide ProcsInv, RowsInv, LogInv, LostIsExact, IsRun, Backfilled;
    BackfillIsNoop(run[i], ledger);
  }

  // ----- what `paid_amount` is -----

  /** Some ledger total at or before state `i`. */
  ghost predicate PastTotal(run: seq<State>, i: nat, id: string, n: int)
    requires i < |run|
  {
    exists j :: 0 <= j <= i && Total(run[j].db.ledger, id) == n
  }

  ghost predicate PaidIsPast(run: seq<State>, i: nat)
    requires i < |run|
  {
    && (forall id :: id in run[i].db.payments && run[i].db.payments[id].paidAmount.Some? ==>
          PastTotal(run, i, id, Paid(run[i].db.payments[id])))
    && (forall t :: t in run[i].procs && run[i].procs[t].Updating? ==>
          PastTotal(run, i, run[i].procs[t].p.id, PaidByUpdate(run[i].procs[t])))
  }

  function PaidByUpdate(proc: Proc): int
    requires proc.Updating?
  {
    match Parse(proc.decision.paid) case Some(n) => n case None => 0
  }

  lemma PastTotalLater(run: seq<State>, i: nat, id: string, n: int)
    requires i + 1 < |run| && PastTotal(run, i, id, n)
    ensures PastTotal(run, i + 1, id, n)
  {
  }

  /** The amount in a row is the total that some reconciler read: under interleaving it need not be the latest. */
  lemma {:induction false} PaidIsSomePastTotal(run: seq<State>, i: nat)
    requires IsRun(run) && i < |run|
    ensures PaidIsPast(run, i)
  {
    hide Inv, Enabled, Apply, IsRun, PaidIsPast;
    if i > 0 {
      PaidIsSomePastTotal(run, i - 1);
      var a := ActionAt(run, i - 1);
      PaidStep(run, i - 1, a);
    } else {
      NothingPaidYet(run);
    }
  }

  lemma NothingPaidYet(run: seq<State>)
    requires IsRun(run)
    ensures PaidIsPast(run, 0)
  {
  }

  lemma PaidStep(run: seq<State>, i: nat, a: Action)
    requires i + 1 < |run| && Inv(run[i]) && PaidIsPast(run, i) && Enabled(run[i], a) && run[i + 1] == Apply(run[i], a)
    ensures PaidIsPast(run, i + 1)
  {
    hide Parse, Print, Inv, Total, PastTotal, ProcsInv, RowsInv, Paid, PaidByUpdate;
    var s, s' := run[i], run[i + 1];
    forall id | id in s'.db.payments && s'.db.payments[id].paidAmount.Some? ensures PastTotal(run, i + 1, id, Paid(s'.db.payments[id])) {
      PaidRowStep(s, a, id);
      if id in s.db.payments && s'.db.payments[id].paidAmount == s.db.payments[id].paidAmount {
        PastTotalLater(run, i, id, Paid(s.db.payments[id]));
        SamePaid(s.db.payments[id], s'.db.payments[id]);
      } else {
        PastTotalLater(run, i, id, PaidByUpdate(s.procs[a.t]));
      }
    }
    forall t | t in s'.procs && s'.procs[t].Updating? ensures PastTotal(run, i + 1, s'.procs[t].p.id, PaidByUpdate(s'.procs[t])) {
      if t in s.procs && s'.procs[t] == s.procs[t] {
        PastTotalLater(run, i, s.procs[t].p.id, PaidByUpdate(s.procs[t]));
      } else {
        PaidProcStep(s, a, t);
        TotalIsPast(run, i, s'.procs[t].p.id);
        PastTotalLater(run, i, s'.procs[t].p.id, Total(s.db.ledger, s'.procs[t].p.id));
      }
    }
  }

  lemma TotalIsPast(run: seq<State>, i: nat, id: string)
    requires i < |run|
    ensures PastTotal(run, i, id, Total(run[i].db.ledger, id))
  {
  }

  lemma SamePaid(p: Payment, q: Payment)
    requires p.paidAmount == q.paidAmount
    ensures Paid(p) == Paid(q)
  {
  }

  /** Only an accepted update writes an amount, and it writes the one it carries. */
  lemma PaidRowStep(s: State, a: Action, id: string)
    requires Inv(s) && Enabled(s, a) && id in Apply(s, a).db.payments && Apply(s, a).db.payments[id].paidAmount.Some?
    ensures id in s.db.payments
    ensures Apply(s, a).db.payments[id].paidAmount == s.db.payments[id].paidAmount
         || (a.Advance? && s.procs[a.t].Updating? && s.procs[a.t].p.id == id
             && Paid(Apply(s, a).db.payments[id]) == PaidByUpdate(s.procs[a.t]))
  {
    hide Parse, Print, Consistent, ProcOk, RowOk, Total, Recorded, LogInv, LostIsExact;
    if a.Restart? { BackfillIsNoop(s, a.ledger); }
    hide Backfilled;
    if a.Advance? && s.procs[a.t].Recording? {
      var proc := s.procs[a.t];
      RecordPayments(s.db, proc.p.id, proc.hp.Hash(), match proc.hp.Stroops() case Some(n) => n case None => 0);
    }
  }

  /** A reconciler that is about to update carries the total it has just read. */
  lemma PaidProcStep(s: State, a: Action, t: nat)
    requires Inv(s) && Enabled(s, a) && t in Apply(s, a).procs && Apply(s, a).procs[t].Updating?
    requires !(t in s.procs && Apply(s, a).procs[t] == s.procs[t])
    ensures PaidByUpdate(Apply(s, a).procs[t]) == Total(s.db.ledger, Apply(s, a).procs[t].p.id)
  {
    hide Parse, Print, Consistent, Total, Recorded, LogInv, LostIsExact, RowsInv, Pays, FindPending, Verify, Effect, Committed, Backfilled;
    if a.Advance? && s.procs[a.t].Resumming? {
      var proc := s.procs[a.t];
      assert ProcOk(s.db, proc);
      CreditedTotal(s.db, proc.p.id, proc.hp.Hash());
      DecideKnows(proc.p, Total(s.db.ledger, proc.p.id));
    }
  }

  // ----- legacy rows -----

  predicate AddedFor(after: seq<Credit>, from: nat, to: nat, id: string)
    requires from <= to <= |after|
  {
    exists k :: from <= k < to && after[k].paymentId == id
  }

  lemma {:induction false} BackfillPrefix(db: Tables, after: seq<Credit>, id: string, m: nat)
    requires forall i :: i in db.payments ==> db.payments[i].id == i
    requires Backfilled(db, after) && NoDoubleCredit(after) && id in db.payments && |db.ledger| <= m <= |after|
    ensures AddedFor(after, |db.ledger|, m, id) ==> LegacyCredit(db.payments[id]).Some? && BackfillAmount(db, id) == LegacyCredit(db.payments[id]).value.stroops
    ensures Total(after[..m], id) == Total(db.ledger, id) + (if AddedFor(after, |db.ledger|, m, id) then BackfillAmount(db, id) else 0)
  {
    hide Parse, Recorded, LegacyCredit, Total, BackfillAmount;
    if m == |db.ledger| {
      assert after[..m] == db.ledger;
    } else {
      var c := after[m - 1];
      BackfillPrefix(db, after, id, m - 1);
      assert after[..m] == after[..m - 1] + [c];
      TotalSnoc(after[..m - 1], c, id);
      assert Inserted(db, c);
      var o :| o in db.payments && LegacyCredit(db.payments[o]) == Some(c) && !Recorded(db.ledger, c.paymentId, c.txHash);
      LegacyCreditIs(db.payments[o]);
      if c.paymentId == id {
        BackfillAmountIs(db, id, c);
        assert AddedFor(after, |db.ledger|, m, id);
        forall k | |db.ledger| <= k < m - 1 ensures after[k].paymentId != id { OnlyOneAdded(db, after, id, k, m - 1); }
      } else {
        assert AddedFor(after, |db.ledger|, m, id) == AddedFor(after, |db.ledger|, m - 1, id);
      }
    }
  }

  lemma BackfillAmountIs(db: Tables, id: string, c: Credit)
    requires id in db.payments && LegacyCredit(db.payments[id]) == Some(c) && !Recorded(db.ledger, c.paymentId, c.txHash)
    ensures BackfillAmount(db, id) == c.stroops
  {
    hide LegacyCredit, Recorded;
  }

  lemma LegacyCreditIs(p: Payment)
    requires LegacyCredit(p).Some?
    ensures LegacyCredit(p).value.paymentId == p.id && p.txHash == Some(LegacyCredit(p).value.txHash)
  {
  }

  lemma OnlyOneAdded(db: Tables, after: seq<Credit>, id: string, j: nat, k: nat)
    requires forall i :: i in db.payments ==> db.payments[i].id == i
    requires Backfilled(db, after) && NoDoubleCredit(after) && |db.ledger| <= j < k < |after| && after[k].paymentId == id
    ensures after[j].paymentId != id
  {
    hide Parse, Recorded, LegacyCredit;
    assert Inserted(db, after[j]) && Inserted(db, after[k]);
    var m :| m in db.payments && LegacyCredit(db.payments[m]) == Some(after[j]);
    var n :| n in db.payments && LegacyCredit(db.payments[n]) == Some(after[k]);
    LegacyCreditIs(db.payments[m]);
    LegacyCreditIs(db.payments[n]);
  }

  /** The backfill adds to each intent exactly its own missing transaction, once. */
  lemma BackfillTotal(db: Tables, after: seq<Credit>, id: string)
    requires forall i :: i in db.payments ==> db.payments[i].id == i
    requires Backfilled(db, after) && NoDoubleCredit(db.ledger) && id in db.payments
    ensures Total(after, id) == Total(db.ledger, id) + BackfillAmount(db, id)
  {
    hide Parse, Total, Recorded, LegacyCredit;
    BackfillPrefix(db, after, id, |after|);
    assert after[..|after|] == after;
    if BackfillAmount(db, id) != 0 {
      var c := LegacyCredit(db.payments[id]).value;
      LegacyCreditIs(db.payments[id]);
      RecordedLater(db.ledger, after, id, c.txHash);
    }
  }

  lemma RecordedLater(before: seq<Credit>, after: seq<Credit>, id: string, hash: string)
    requires |before| <= |after| && after[..|before|] == before && Recorded(after, id, hash) && !Recorded(before, id, hash)
    ensures AddedFor(after, |before|, |after|, id)
  {
    assert forall k :: 0 <= k < |before| ==> before[k] == after[k];
    var k :| 0 <= k < |after| && after[k].paymentId == id && after[k].txHash == hash;
  }

  /** A row from before the ledger existed: its total becomes the stored cumulative amount. */
  lemma LegacyRowTotal(db: Tables, after: seq<Credit>, id: string)
    requires forall i :: i in db.payments ==> db.payments[i].id == i
    requires Backfilled(db, after) && NoDoubleCredit(db.ledger) && id in db.payments
    requires db.payments[id].txHash.Some? && db.payments[id].txHash.value != "" && db.payments[id].paidAmount.Some?
    requires Parse(db.payments[id].paidAmount.value).Some? && forall c :: c in db.ledger ==> c.paymentId != id
    ensures Some(Total(after, id)) == Parse(db.payments[id].paidAmount.value)
  {
    hide Parse, Total, Backfilled, NoDoubleCredit;
    LegacyCreditIff(db.payments[id], Credit(id, db.payments[id].txHash.value, Parse(db.payments[id].paidAmount.value).value));
    BackfillTotal(db, after, id);
    NoCredits(db.ledger, id);
    LegacyCreditIs(db.payments[id]);
    NothingRecorded(db.ledger, id, db.payments[id].txHash.value);
    hide Recorded;
  }

  lemma NothingRecorded(ledger: seq<Credit>, id: string, hash: string)
    requires forall c :: c in ledger ==> c.paymentId != id
    ensures !Recorded(ledger, id, hash)
  {
    assert forall k :: 0 <= k < |ledger| ==> ledger[k] in ledger;
  }

  lemma {:induction false} NoCredits(ledger: seq<Credit>, id: string)
    requires forall c :: c in ledger ==> c.paymentId != id
    ensures Total(ledger, id) == 0
  {
    if ledger != [] { NoCredits(ledger[..|ledger| - 1], id); }
  }

  lemma LegacyIsCovered(db: Tables, after: seq<Credit>, id: string)
    requires Backfilled(db, after) && id in db.payments && LegacyCredit(db.payments[id]).Some?
    ensures Recorded(after, LegacyCredit(db.payments[id]).value.paymentId, LegacyCredit(db.payments[id]).value.txHash)
  {
    hide LegacyCredit, Recorded;
  }

  lemma FirstInserted(db: Tables, after: seq<Credit>)
    requires Backfilled(db, after)
    ensures |after| >= |db.ledger| && (|after| == |db.ledger| ==> after == db.ledger)
    ensures |after| > |db.ledger| ==> Inserted(db, after[|db.ledger|])
  {
    assert |after| == |db.ledger| ==> after[..|db.ledger|] == after;
  }

  /** A second backfill finds nothing to do. */
  lemma BackfillIsIdempotent(db: Tables, after: seq<Credit>, again: seq<Credit>)
    requires Backfilled(db, after) && Backfilled(db.(ledger := after), again)
    ensures again == after
  {
    hide LegacyCredit, Recorded, Backfilled;
    FirstInserted(db.(ledger := after), again);
    if |again| > |after| {
      var c := again[|after|];
      var id :| id in db.payments && LegacyCredit(db.payments[id]) == Some(c) && !Recorded(after, c.paymentId, c.txHash);
      LegacyIsCovered(db, after, id);
      assert false;
    }
  }

  // ----- what a crash can lose -----

  /** A transaction that has been credited is never looked at again. */
  lemma ReSightingIsNoop(db: Tables, now: int, hp: HorizonPayment, id: string)
    requires Consistent(db) && id in db.payments && hp.Memo() == Some(db.payments[id].memo)
    requires Recorded(db.ledger, id, hp.Hash())
    ensures RunAlone(db, now, Looking(hp)).db == db && RunAlone(db, now, Looking(hp)).sent == []
  {
    hide Parse, Print, Recorded, Consistent, Verify, SumStroops, RunAlone, Decide;
    RunStep(db, now, Looking(hp));
    var proc := Continue(db, now, Looking(hp));
    if proc.Summing? {
      SameMemo(db, hp.Memo().value, now, id);
      RunStep(db, now, proc);
      var next := Continue(db, now, proc);
      if next.Recording? {
        RunStep(db, now, next);
        RecordedIsNoop(db, id, hp.Hash(), match hp.Stroops() case Some(n) => n case None => 0);
        RunDone(db, now, false);
      } else if next.Failed? {
        RunFailed(db, now);
      } else {
        RunDone(db, now, false);
      }
    } else {
      RunDone(db, now, false);
    }
  }

  lemma RecordedIsNoop(db: Tables, id: string, hash: string, n: int)
    requires Recorded(db.ledger, id, hash)
    ensures Record(db, id, hash, n) == db
  {
  }

  lemma SameMemo(db: Tables, memo: string, now: int, id: string)
    requires Consistent(db) && id in db.payments && db.payments[id].memo == memo && FindPending(db, memo, now).Some?
    ensures FindPending(db, memo, now) == Some(db.payments[id]) && db.payments[id].id == id
  {
    hide Parse;
  }

  function Last(run: seq<State>): State
    requires run != []
  {
    run[|run| - 1]
  }

  function NoState(): State { State(Tables(map[], []), map[], [], {}) }

  lemma RunExtends(run: seq<State>, a: Action) returns (more: seq<State>)
    requires IsRun(run) && Enabled(Last(run), a)
    ensures IsRun(more) && Last(more) == Apply(Last(run), a) && more != [] && run < more
  {
    hide Enabled, Apply, Initial;
    more := run + [Apply(Last(run), a)];
    forall i | 0 <= i < |more| - 1 ensures Next(more[i], more[i + 1]) {
      if i < |run| - 1 {
        assert Next(run[i], run[i + 1]);
      }
    }
  }

  /** A new intent, and a covering payment for it whose reconciler has got as far as the ledger row. */
  lemma CreditedButNotWritten(p: Payment, hp: HorizonPayment, now: int) returns (run: seq<State>)
    requires p == Intent(p) && now < p.expiresAt && Pays(p, hp) && hp.Stroops().Some?
    ensures IsRun(run) && run != []
    ensures Last(run) == State(Tables(map[p.id := p], [Credit(p.id, hp.Hash(), hp.Stroops().value)]), map[0 := Resumming(p, hp)], [], {})
  {
    hide Parse, Print, Pays, Verify, IsRun;
    var db := Tables(map[p.id := p], []);
    PaysPositive(p, hp);
    PaysMemo(p, hp);
    run := StartRun();
    run := RunExtends(run, Create(p));
    assert Last(run).db == db;
    run := RunExtends(run, Deliver(0, hp));
    assert Last(run) == State(db, map[0 := Looking(hp)], [], {});
    assert FindPending(db, p.memo, now) == Some(p);
    run := RunExtends(run, Advance(0, now));
    assert Last(run) == State(db, map[0 := Summing(p, hp)], [], {});
    VerifyIffPays(p, hp, 0);
    run := RunExtends(run, Advance(0, now));
    assert Last(run) == State(db, map[0 := Recording(p, hp)], [], {});
    run := RunExtends(run, Advance(0, now));
    assert [] + [Credit(p.id, hp.Hash(), hp.Stroops().value)] == [Credit(p.id, hp.Hash(), hp.Stroops().value)];
  }

  lemma StartRun() returns (run: seq<State>)
    ensures IsRun(run) && Last(run) == NoState()
  {
    run := [NoState()];
  }

  /** The hypothesis about crashes is needed, for every intent and every covering payment: a restart after the
      ledger row and before the status leaves the intent open, with nobody in flight, and seeing the same
      payment again does not help. */
  lemma CrashLosesSettlement(p: Payment, hp: HorizonPayment, now: int, later: int) returns (run: seq<State>)
    requires p == Intent(p) && now < p.expiresAt && Pays(p, hp) && hp.Stroops().Some? && hp.Stroops().value >= Price(p)
    ensures IsRun(run) && run != [] && Quiescent(Last(run)) && Covered(Last(run).db, p.id) && p.id in Last(run).lost
    ensures RunAlone(Last(run).db, later, Looking(hp)).db == Last(run).db
  {
    hide Parse, Print, Pays, IsRun, RunAlone;
    PaysPositive(p, hp);
    PaysMemo(p, hp);
    run := CreditedButNotWritten(p, hp, now);
    var c := Credit(p.id, hp.Hash(), hp.Stroops().value);
    var before := Last(run);
    TotalSnoc([], c, p.id);
    assert [] + [c] == [c];
    assert Backfilled(before.db, [c]);
    InvHolds(run, |run| - 1);
    assert Consistent(before.db);
    run := RunExtends(run, Restart([c]));
    assert [c][0] == c;
    ReSightingIsNoop(Last(run).db, later, hp, p.id);
    assert Covered(Last(run).db, p.id);
    CoveredIsOpen(Last(run).db, p.id);
    LostExactly(run, |run| - 1, p.id);
  }

  // ----- why `paid_amount` is only some past total -----

  function CreditFor(p: Payment, hp: HorizonPayment): Credit { Credit(p.id, hp.Hash(), Carried(hp)) }

  lemma AdvanceTo(run: seq<State>, t: nat, now: int, next: State) returns (more: seq<State>)
    requires IsRun(run) && run != [] && Enabled(Last(run), Advance(t, now)) && Apply(Last(run), Advance(t, now)) == next
    ensures IsRun(more) && more != [] && Last(more) == next && run < more
  {
    hide Enabled, Apply, IsRun;
    more := RunExtends(run, Advance(t, now));
  }

  function OneRow(p: Payment, ledger: seq<Credit>): Tables { Tables(map[p.id := p], ledger) }

  lemma OneRowFound(p: Payment, ledger: seq<Credit>, now: int)
    requires Watchable(p) && now < p.expiresAt
    ensures FindPending(OneRow(p, ledger), p.memo, now) == Some(p)
  {
    var db := OneRow(p, ledger);
    assert p.id in db.payments && Matches(db.payments[p.id], p.memo, now);
  }

  /** The first reconciler is about to write its total, and another payment is delivered. */
  lemma OneCreditedOneLooking(p: Payment, one: HorizonPayment, two: HorizonPayment, now: int) returns (run: seq<State>)
    requires p == Intent(p) && now < p.expiresAt && Pays(p, one) && Pays(p, two)
    ensures IsRun(run) && run != []
    ensures Last(run) == State(
      OneRow(p, [CreditFor(p, one)]), map[0 := Updating(p, one.Hash(), Decide(p, Carried(one))), 1 := Looking(two)], [], {})
  {
    hide Parse, Print, Pays, Verify, IsRun, Decide;
    PaysPositive(p, one);
    run := CreditedButNotWritten(p, one, now);
    OneTotal(p, one);
    run := AdvanceTo(run, 0, now, State(OneRow(p, [CreditFor(p, one)]), map[0 := Updating(p, one.Hash(), Decide(p, Carried(one)))], [], {}));
    run := RunExtends(run, Deliver(1, two));
  }

  /** The second one has credited its transaction as well. */
  lemma TwoCredited(p: Payment, one: HorizonPayment, two: HorizonPayment, now: int) returns (run: seq<State>)
    requires p == Intent(p) && now < p.expiresAt && Pays(p, one) && Pays(p, two) && one.Hash() != two.Hash()
    requires Carried(one) + Carried(two) < Price(p)
    ensures IsRun(run) && run != []
    ensures Last(run) == State(
      OneRow(p, [CreditFor(p, one), CreditFor(p, two)]),
      map[0 := Updating(p, one.Hash(), Decide(p, Carried(one))), 1 := Resumming(p, two)], [], {})
  {
    hide Parse, Print, Pays, Verify, IsRun, Decide, FindPending, Total;
    PaysPositive(p, one);
    PaysPositive(p, two);
    PaysMemo(p, two);
    run := OneCreditedOneLooking(p, one, two, now);
    var db := OneRow(p, [CreditFor(p, one)]);
    var done := Updating(p, one.Hash(), Decide(p, Carried(one)));
    OneTotal(p, one);
    OneRowFound(p, [CreditFor(p, one)], now);
    run := AdvanceTo(run, 1, now, State(db, map[0 := done, 1 := Summing(p, two)], [], {}));
    VerifyIffPays(p, two, Carried(one));
    run := AdvanceTo(run, 1, now, State(db, map[0 := done, 1 := Recording(p, two)], [], {}));
    assert [CreditFor(p, one)] + [CreditFor(p, two)] == [CreditFor(p, one), CreditFor(p, two)];
    assert !Recorded(db.ledger, p.id, two.Hash());
    run := RunExtends(run, Advance(1, now));
  }

  lemma OneTotal(p: Payment, hp: HorizonPayment)
    ensures Total([CreditFor(p, hp)], p.id) == Carried(hp)
  {
    TotalSnoc([], CreditFor(p, hp), p.id);
    assert [] + [CreditFor(p, hp)] == [CreditFor(p, hp)];
  }

  lemma TwoTotal(p: Payment, one: HorizonPayment, two: HorizonPayment)
    ensures Total([CreditFor(p, one), CreditFor(p, two)], p.id) == Carried(one) + Carried(two)
  {
    OneTotal(p, one);
    TotalSnoc([CreditFor(p, one)], CreditFor(p, two), p.id);
    assert [CreditFor(p, one)] + [CreditFor(p, two)] == [CreditFor(p, one), CreditFor(p, two)];
  }

  lemma UnderpaidBy(p: Payment, total: int)
    requires 0 < total < Price(p) && Price(p) <= I64_MAX
    ensures Decide(p, total).status == Underpaid && Parse(Decide(p, total).paid) == Some(total)
  {
    hide Parse, Print;
    ParsePrint(total);
  }

  function Written(p: Payment, hash: string, d: Decision): Payment { p.(status := d.status, txHash := Some(hash), paidAmount := Some(d.paid)) }

  /** For every intent and every two transactions that do not cover it, there is an interleaving without failures in
      which the amount in the row goes from both back to the first alone, with nobody left in flight. */
  lemma PaidAmountCanGoDown(p: Payment, one: HorizonPayment, two: HorizonPayment, now: int) returns (before: seq<State>, after: seq<State>)
    requires p == Intent(p) && now < p.expiresAt && Pays(p, one) && Pays(p, two) && one.Hash() != two.Hash()
    requires Carried(one) + Carried(two) < Price(p)
    ensures IsRun(after) && before != [] && after != [] && Last(after).procs == map[0 := Done(true), 1 := Done(true)]
    ensures before < after && p.id in Last(before).db.payments && Paid(Last(before).db.payments[p.id]) == Carried(one) + Carried(two)
    ensures p.id in Last(after).db.payments && Paid(Last(after).db.payments[p.id]) == Carried(one)
    ensures Total(Last(after).db.ledger, p.id) == Carried(one) + Carried(two)
  {
    hide Parse, Print, Pays, Verify, IsRun, Decide, SettledPayload;
    PaysPositive(p, one);
    PaysPositive(p, two);
    var d1, d2 := Decide(p, Carried(one)), Decide(p, Carried(one) + Carried(two));
    UnderpaidBy(p, Carried(one));
    UnderpaidBy(p, Carried(one) + Carried(two));
    TwoTotal(p, one, two);
    var ledger := [CreditFor(p, one), CreditFor(p, two)];
    var u1, u2 := Updating(p, one.Hash(), d1), Updating(p, two.Hash(), d2);
    var run := TwoCredited(p, one, two, now);
    run := AdvanceTo(run, 1, now, State(Tables(map[p.id := p], ledger), map[0 := u1, 1 := u2], [], {}));
    hide Total;
    var n2 := SettledPayload(p, two.Hash(), d2);
    assert [] + [n2] == [n2];
    var row2 := Written(p, two.Hash(), d2);
    before := AdvanceTo(run, 1, now, State(Tables(map[p.id := row2], ledger), map[0 := u1, 1 := Done(true)], [n2], {}));
    after := AdvanceTo(before, 0, now,
      State(Tables(map[p.id := Written(row2, one.Hash(), d1)], ledger), map[0 := Done(true), 1 := Done(true)],
            [n2, SettledPayload(p, one.Hash(), d1)], {}));
  }
}
