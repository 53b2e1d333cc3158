/** When the stored amount is the ledger total, and when it is not. */
module PaidAmount {
  import opened Common
  import opened Money
  import opened Db
  import opened Horizon
  import opened Settlement
  import opened SettlementTheorems

  // ----- credits since some point -----

  predicate CreditedSince(from: nat, ledger: seq<Credit>, id: string) {
    exists k :: from <= k < |ledger| && ledger[k].paymentId == id
  }

  /** Credits are positive, so a total grows exactly by being credited. */
  lemma {:induction false} TotalGrowsIff(before: seq<Credit>, after: seq<Credit>, id: string)
    requires before <= after && forall c :: c in after ==> c.stroops > 0
    ensures Total(before, id) <= Total(after, id)
    ensures Total(before, id) == Total(after, id) <==> !CreditedSince(|before|, after, id)
    decreases |after|
  {
    if |after| > |before| {
      var init, last := after[..|after| - 1], after[|after| - 1];
      assert after == init + [last] && last in after;
      TotalGrowsIff(before, init, id);
      TotalSnoc(init, last, id);
      hide Total;
      if CreditedSince(|before|, init, id) {
        var k :| |before| <= k < |init| && init[k].paymentId == id;
        assert after[k] == init[k];
      }
      assert forall k :: 0 <= k < |init| ==> after[k] == init[k];
    } else {
      assert before == after;
    }
  }

  lemma LedgerGrows(s: State, a: Action)
    requires Inv(s) && Enabled(s, a)
    ensures s.db.ledger <= Apply(s, a).db.ledger
  {
    hide Parse, ProcOk, RowOk, LogInv, LostIsExact, Recorded, Consistent;
    if a.Restart? { BackfillIsNoop(s, a.ledger); }
    hide Backfilled;
  }

  lemma {:induction false} LedgerOnlyGrows(run: seq<State>, i: nat, j: nat)
    requires IsRun(run) && i <= j < |run|
    ensures run[i].db.ledger <= run[j].db.ledger
    decreases j - i
  {
    hide Inv, Enabled, Apply, IsRun;
    if i < j {
      LedgerOnlyGrows(run, i, j - 1);
      var a := ActionAt(run, j - 1);
      LedgerGrows(run[j - 1], a);
    }
  }

  // ----- one reconciler, from its re-sum to its write -----

  /** Call `t` re-sums at `j`, then waits, and its write is accepted at `i`. */
  predicate ResumsAndWrites(run: seq<State>, j: nat, i: nat, t: nat)
    requires j < i && i + 1 < |run|
  {
    && t in run[j].procs && run[j].procs[t].Resumming?
    && t in run[j + 1].procs && run[j + 1].procs[t].Updating?
    && (forall k :: j < k <= i ==> t in run[k].procs && run[k].procs[t] == run[j + 1].procs[t])
    && t in run[i + 1].procs && run[i + 1].procs[t] == Done(true)
  }

  lemma AcceptedWrite(s: State, a: Action, t: nat)
    requires Inv(s) && Enabled(s, a) && t in s.procs && s.procs[t].Updating?
    requires t in Apply(s, a).procs && Apply(s, a).procs[t] == Done(true)
    ensures s.procs[t].p.id in Apply(s, a).db.payments
    ensures Paid(Apply(s, a).db.payments[s.procs[t].p.id]) == PaidByUpdate(s.procs[t])
    ensures Apply(s, a).db.ledger == s.db.ledger
  {
    hide Parse, Inv, Continue;
    assert a.Advance? && a.t == t;
    WriteIsAccepted(s.db, a.now, s.procs[t]);
  }

  lemma WriteIsAccepted(db: Tables, now: int, proc: Proc)
    requires proc.Updating? && Continue(db, now, proc) == Done(true)
    ensures Updatable(db, proc.p.id)
  {
  }

  lemma CreditsArePositive(s: State)
    requires Inv(s)
    ensures forall c :: c in s.db.ledger ==> c.stroops > 0
  {
    hide Parse, NoDoubleCredit, ProcOk, RowsInv, LogInv, LostIsExact;
  }

  /** Over every run: an accepted write stores the ledger total if and only if nothing was credited to the intent
      between the re-sum and the write. */
  lemma StoredIsTotalIff(run: seq<State>, j: nat, i: nat, t: nat)
    requires IsRun(run) && j < i && i + 1 < |run| && ResumsAndWrites(run, j, i, t)
    ensures var id := run[j].procs[t].p.id;
            && id in run[i + 1].db.payments
            && (Paid(run[i + 1].db.payments[id]) == Total(run[i + 1].db.ledger, id)
                <==> !CreditedSince(|run[j].db.ledger|, run[i].db.ledger, id))
  {
    hide Inv, Enabled, Apply, IsRun, Total, Paid, PaidByUpdate, CreditedSince;
    var a := ActionAt(run, j);
    PaidProcStep(run[j], a, t);
    ResumKeepsIntent(run[j], a, t);
    var b := ActionAt(run, i);
    AcceptedWrite(run[i], b, t);
    LedgerOnlyGrows(run, j, i);
    CreditsArePositive(run[i]);
    TotalGrowsIff(run[j].db.ledger, run[i].db.ledger, run[j].procs[t].p.id);
  }

  lemma ResumKeepsIntent(s: State, a: Action, t: nat)
    requires Enabled(s, a) && t in s.procs && s.procs[t].Resumming?
    requires t in Apply(s, a).procs && Apply(s, a).procs[t].Updating?
    ensures Apply(s, a).procs[t].p == s.procs[t].p
  {
    hide Decide, SumStroops, Effect, Backfilled;
  }

  // ----- one reconciler at a time -----

  /** Past the credit: what remains is to re-sum and to write. */
  predicate Past(proc: Proc, id: string) { (proc.Resumming? || proc.Updating?) && proc.p.id == id }

  predicate NobodyPast(s: State, id: string) { forall t :: t in s.procs ==> !Past(s.procs[t], id) }

  predicate AtMostOnePast(s: State, id: string) {
    forall t, u :: t in s.procs && u in s.procs && Past(s.procs[t], id) && Past(s.procs[u], id) ==> t == u
  }

  /** While the intent is open and its total can be read: whoever is about to write carries the total, and when nobody
      is, the row has it. */
  predicate UpToDate(s: State, id: string) {
    Updatable(s.db, id) && Total(s.db.ledger, id) <= I64_MAX ==>
      && (forall t :: t in s.procs && Past(s.procs[t], id) && s.procs[t].Updating? ==> PaidByUpdate(s.procs[t]) == Total(s.db.ledger, id))
      && (NobodyPast(s, id) ==> Paid(s.db.payments[id]) == Total(s.db.ledger, id))
  }

  /** The part of an action that concerns neither the intent's row nor its ledger nor its reconcilers. */
  predicate Untouched(s: State, s': State, id: string) {
    && (Updatable(s'.db, id) ==> Updatable(s.db, id) && Paid(s'.db.payments[id]) == Paid(s.db.payments[id]))
    && Total(s'.db.ledger, id) == Total(s.db.ledger, id)
    && (forall t :: t in s'.procs && Past(s'.procs[t], id) ==> t in s.procs && s.procs[t] == s'.procs[t])
    && (forall t :: t in s.procs && Past(s.procs[t], id) ==> t in s'.procs && s.procs[t] == s'.procs[t])
  }

  lemma UntouchedKeeps(s: State, s': State, id: string)
    requires UpToDate(s, id) && Untouched(s, s', id)
    ensures UpToDate(s', id)
  {
    hide Total, Paid, Updatable, PaidByUpdate;
  }

  /** Nobody works on, and nothing is credited to, an intent that does not exist. */
  lemma NewIsUpToDate(s: State, p: Payment)
    requires Inv(s) && Enabled(s, Create(p))
    ensures UpToDate(Apply(s, Create(p)), p.id)
  {
    hide Parse, Recorded, NoDoubleCredit, RowsInv, LogInv, LostIsExact, Total, Pays, Decide;
    CreditsArePositive(s);
    TotalIsNonNegative(s.db.ledger, p.id);
    forall t | t in s.procs ensures !Past(s.procs[t], p.id) { assert ProcOk(s.db, s.procs[t]); }
  }

  lemma AdvanceUpToDate(s: State, t: nat, now: int, id: string)
    requires Inv(s) && Enabled(s, Advance(t, now)) && UpToDate(s, id)
    requires AtMostOnePast(s, id) && AtMostOnePast(Apply(s, Advance(t, now)), id)
    ensures UpToDate(Apply(s, Advance(t, now)), id)
  {
    hide Parse, Print, Total, Paid, Updatable, PaidByUpdate, Inv, Record, UpdateStatus, Verify, FindPending, SumStroops, Recorded,
      Decide, SettledPayload, UpToDate, AtMostOnePast;
    var s' := Apply(s, Advance(t, now));
    if s.procs[t].Recording? {
      RecordingUpToDate(s, t, now, id);
    } else if s.procs[t].Resumming? {
      ResummingUpToDate(s, t, now, id);
    } else if s.procs[t].Updating? {
      UpdatingUpToDate(s, t, now, id);
    } else {
      UntouchedKeeps(s, s', id);
    }
  }

  lemma RecordingUpToDate(s: State, t: nat, now: int, id: string)
    requires Inv(s) && Enabled(s, Advance(t, now)) && UpToDate(s, id) && s.procs[t].Recording?
    requires AtMostOnePast(Apply(s, Advance(t, now)), id)
    ensures UpToDate(Apply(s, Advance(t, now)), id)
  {
    hide Parse, Print, Total, Paid, PaidByUpdate, RowsInv, LogInv, LostIsExact, Record, Recorded, Consistent, Pays, ProcOk;
    var p, hp := s.procs[t].p, s.procs[t].hp;
    AtRecording(s, t);
    PaysPositive(p, hp);
    RecordEffect(s.db, p.id, hp.Hash(), hp.Stroops().value);
    RecordPayments(s.db, p.id, hp.Hash(), hp.Stroops().value);
    var s' := Apply(s, Advance(t, now));
    if p.id == id && !Recorded(s.db.ledger, id, hp.Hash()) {
      assert Past(s'.procs[t], id);
    } else {
      UntouchedKeeps(s, s', id);
    }
  }

  lemma ResummingUpToDate(s: State, t: nat, now: int, id: string)
    requires Inv(s) && Enabled(s, Advance(t, now)) && UpToDate(s, id) && s.procs[t].Resumming?
    requires AtMostOnePast(s, id)
    ensures UpToDate(Apply(s, Advance(t, now)), id)
  {
    hide Parse, Total, Paid, PaidByUpdate, Inv, Apply, Resummed, Updatable;
    var s' := Apply(s, Advance(t, now));
    WatchOfResumming(s, t, now);
    ResummedIs(s.db, s.procs[t].p, s.procs[t].hp);
    TotalIsNatural(s, id);
    if s'.procs[t].Updating? { PaidProcStep(s, Advance(t, now), t); }
    if s.procs[t].p.id == id {
      assert Past(s.procs[t], id);
    } else {
      UntouchedKeeps(s, s', id);
    }
  }

  lemma TotalIsNatural(s: State, id: string)
    requires Inv(s)
    ensures Total(s.db.ledger, id) >= 0
  {
    hide Inv;
    CreditsArePositive(s);
    TotalIsNonNegative(s.db.ledger, id);
  }

  lemma ResummedIs(db: Tables, p: Payment, hp: HorizonPayment)
    ensures Resummed(db, p, hp).Failed? || (Resummed(db, p, hp).Updating? && Resummed(db, p, hp).p == p)
    ensures I64_MIN <= Total(db.ledger, p.id) <= I64_MAX ==> Resummed(db, p, hp).Updating?
  {
    hide Total, Decide;
  }

  lemma UpdatingUpToDate(s: State, t: nat, now: int, id: string)
    requires Inv(s) && Enabled(s, Advance(t, now)) && UpToDate(s, id) && s.procs[t].Updating?
    requires AtMostOnePast(s, id)
    ensures UpToDate(Apply(s, Advance(t, now)), id)
  {
    hide Parse, Total, Inv;
    var u := s.procs[t];
    var s' := Apply(s, Advance(t, now));
    if u.p.id == id {
      assert Past(u, id);
      assert Updatable(s'.db, id) ==> Updatable(s.db, id) && Paid(s'.db.payments[id]) == PaidByUpdate(u);
    } else {
      UntouchedKeeps(s, s', id);
    }
  }

  lemma UpToDateKept(s: State, a: Action, id: string)
    requires Inv(s) && Enabled(s, a) && !a.Fail? && !a.Restart? && UpToDate(s, id)
    requires AtMostOnePast(s, id) && AtMostOnePast(Apply(s, a), id)
    ensures UpToDate(Apply(s, a), id)
  {
    hide Parse, Total, Inv, UpToDate, AtMostOnePast, ExpiredPayloads, OldestOverdue, PaidByUpdate, Effect, Continue, Committed;
    match a
    case Advance(t, now) => AdvanceUpToDate(s, t, now, id);
    case Create(p) =>
      if p.id == id { NewIsUpToDate(s, p); } else { UntouchedKeeps(s, Apply(s, a), id); }
    case Deliver(_, _) => UntouchedKeeps(s, Apply(s, a), id);
    case Sweep(_, _, _) => UntouchedKeeps(s, Apply(s, a), id);
    case _ =>
  }

  lemma {:induction false} SoloUpToDate(run: seq<State>, i: nat, id: string)
    requires IsRun(run) && WithoutFailure(run) && i < |run| && forall k :: 0 <= k <= i ==> AtMostOnePast(run[k], id)
    ensures UpToDate(run[i], id)
  {
    hide AtMostOnePast, Enabled, Apply, Inv, IsRun, UpToDate;
    if i == 0 {
      StartsUpToDate(run, id);
    } else {
      SoloUpToDate(run, i - 1, id);
      InvHolds(run, i - 1);
      assert NextWithoutFailure(run[i - 1], run[i - 1 + 1]);
      var a: Action :| !a.Fail? && !a.Restart? && Enabled(run[i - 1], a) && run[i] == Apply(run[i - 1], a);
      UpToDateKept(run[i - 1], a, id);
    }
  }

  lemma StartsUpToDate(run: seq<State>, id: string)
    requires IsRun(run)
    ensures UpToDate(run[0], id)
  {
    hide Total;
  }

  /** If, without failures, at most one reconciler of an intent is ever between its credit and its write, then whenever
      none is, the row of the open intent stores exactly the ledger total. */
  lemma SoloStoresTotal(run: seq<State>, i: nat, id: string)
    requires IsRun(run) && WithoutFailure(run) && i < |run| && forall k :: 0 <= k <= i ==> AtMostOnePast(run[k], id)
    requires NobodyPast(run[i], id) && Updatable(run[i].db, id) && Total(run[i].db.ledger, id) <= I64_MAX
    ensures Paid(run[i].db.payments[id]) == Total(run[i].db.ledger, id)
  {
    hide IsRun, WithoutFailure, AtMostOnePast, Total, Paid, PaidByUpdate;
    SoloUpToDate(run, i, id);
  }
}
