/** Where credits come from, and what expires: on the fields of the records and rows themselves. */
module Provenance {
  import opened Common
  import opened Money
  import opened Db
  import opened Horizon
  import opened Settlement
  import opened SettlementTheorems

  /** Between states `i` and `i + 1` some reconciler of `hp` credits it to intent `id`. */
  predicate Credits(run: seq<State>, i: nat, id: string, hp: HorizonPayment)
    requires i + 1 < |run|
  {
    exists t :: t in run[i].procs && CreditsBy(run[i], run[i + 1], t, id, hp)
  }

  predicate CreditsBy(s: State, s': State, t: nat, id: string, hp: HorizonPayment)
    requires t in s.procs
  {
    && s.procs[t].Recording? && s.procs[t].p.id == id && s.procs[t].hp == hp
    && t in s'.procs && s'.procs[t].Resumming?
  }

  /** On the fields: `hp` is a payment that row `p` asks for. */
  predicate AskedFor(p: Payment, hp: HorizonPayment) {
    && hp.kind == "payment" && hp.to == Some(p.destinationAddress)
    && hp.transaction.Some? && hp.transaction.value.memoType == Some("text") && hp.transaction.value.memo == Some(p.memo)
    && hp.transaction.value.successful == Some(true)
    && (p.assetIssuer.Some? && p.assetIssuer.value != "" ==> hp.assetCode == Some(p.asset) && hp.assetIssuer == p.assetIssuer)
    && (p.assetIssuer.None? || p.assetIssuer.value == "" ==> hp.assetType == Some("native"))
    && hp.amount.Some? && Parse(hp.amount.value).Some?
  }

  /** The key under which a payment is credited: its transaction's hash; a record without one has the empty key. */
  predicate KeyOf(hp: HorizonPayment, key: string) {
    (hp.transactionHash.Some? ==> key == hp.transactionHash.value) && (hp.transactionHash.None? ==> key == "")
  }

  lemma PaysIsAsked(p: Payment, hp: HorizonPayment)
    requires Pays(p, hp)
    ensures AskedFor(p, hp)
  {
    hide Parse, Judge;
    VerifyIffPays(p, hp, 0);
    VerifyIff(p, hp, 0);
  }

  lemma SameIntentAsks(p: Payment, q: Payment, hp: HorizonPayment)
    requires Intent(p) == Intent(q)
    ensures AskedFor(p, hp) == AskedFor(q, hp)
  {
    hide Parse;
  }

  lemma StepCredits(s: State, a: Action, t: nat, id: string, hp: HorizonPayment)
    requires Inv(s) && Enabled(s, a) && t in s.procs && CreditsBy(s, Apply(s, a), t, id, hp)
    ensures id in s.db.payments && AskedFor(s.db.payments[id], hp)
    ensures Apply(s, a).db.ledger == s.db.ledger + [Credit(id, hp.Hash(), Carried(hp))]
  {
    hide Parse, Print, RowsInv, LogInv, LostIsExact, Consistent, Pays, AskedFor, Recorded, Total;
    assert a.Advance? && a.t == t;
    assert ProcOk(s.db, s.procs[t]);
    PaysIsAsked(s.procs[t].p, hp);
    SameIntentAsks(s.procs[t].p, s.db.payments[id], hp);
  }

  /** Whatever is ever credited to an intent is a successful payment to its destination, under its memo, in its asset from
      its issuer; and its credit is the amount it carries. */
  lemma OnlyAskedForIsCredited(run: seq<State>, i: nat, id: string, hp: HorizonPayment)
    requires IsRun(run) && i + 1 < |run| && Credits(run, i, id, hp)
    ensures id in run[i].db.payments && AskedFor(run[i].db.payments[id], hp)
    ensures run[i + 1].db.ledger == run[i].db.ledger + [Credit(id, hp.Hash(), Carried(hp))]
    ensures KeyOf(hp, hp.Hash()) && hp.amount.Some? && Some(Carried(hp)) == Parse(hp.amount.value)
  {
    hide Inv, Enabled, Apply, IsRun, CreditsBy, AskedFor, Parse;
    var a := ActionAt(run, i);
    var t :| t in run[i].procs && CreditsBy(run[i], run[i + 1], t, id, hp);
    StepCredits(run[i], a, t, id, hp);
    AskedForCarries(run[i].db.payments[id], hp);
  }

  /** An action either credits one payment or leaves the ledger alone. */
  lemma LedgerStep(s: State, a: Action)
    requires Inv(s) && Enabled(s, a)
    ensures Apply(s, a).db.ledger == s.db.ledger
         || exists t, id, hp :: t in s.procs && CreditsBy(s, Apply(s, a), t, id, hp)
  {
    hide Parse, Print, ProcOk, RowOk, LogInv, LostIsExact, Consistent, Total;
    if a.Restart? { BackfillIsNoop(s, a.ledger); }
    hide Backfilled, Recorded;
    if a.Advance? && s.procs[a.t].Recording? {
      var proc := s.procs[a.t];
      if !Recorded(s.db.ledger, proc.p.id, proc.hp.Hash()) {
        assert CreditsBy(s, Apply(s, a), a.t, proc.p.id, proc.hp);
      } else {
        RecordedIsNoop(s.db, proc.p.id, proc.hp.Hash(), Carried(proc.hp));
      }
    }
  }

  /** Every row of the ledger is the credit of such a payment, made at some earlier step. */
  lemma {:induction false} EveryCreditWasPaid(run: seq<State>, n: nat, k: nat) returns (i: nat, hp: HorizonPayment)
    requires IsRun(run) && n < |run| && k < |run[n].db.ledger|
    ensures i < n && Credits(run, i, run[n].db.ledger[k].paymentId, hp)
    ensures KeyOf(hp, run[n].db.ledger[k].txHash)
    ensures hp.amount.Some? && Some(run[n].db.ledger[k].stroops) == Parse(hp.amount.value)
    ensures run[n].db.ledger[k].paymentId in run[i].db.payments
    ensures AskedFor(run[i].db.payments[run[n].db.ledger[k].paymentId], hp)
  {
    hide Inv, Enabled, Apply, CreditsBy, AskedFor, Parse;
    if n == 0 {
      NothingAtFirst(run);
      assert false;
    } else {
      hide IsRun;
      var a := ActionAt(run, n - 1);
      if k < |run[n - 1].db.ledger| {
        PrefixKept(run, n - 1, k);
        i, hp := EveryCreditWasPaid(run, n - 1, k);
      } else {
        LedgerStep(run[n - 1], a);
        var t, id, paid :| t in run[n - 1].procs && CreditsBy(run[n - 1], Apply(run[n - 1], a), t, id, paid);
        assert Credits(run, n - 1, id, paid);
        OnlyAskedForIsCredited(run, n - 1, id, paid);
        i, hp := n - 1, paid;
      }
    }
  }

  lemma NothingAtFirst(run: seq<State>)
    requires IsRun(run)
    ensures run[0].db.ledger == []
  {
  }

  lemma PrefixKept(run: seq<State>, i: nat, k: nat)
    requires IsRun(run) && i + 1 < |run| && k < |run[i].db.ledger|
    ensures k < |run[i + 1].db.ledger| && run[i + 1].db.ledger[k] == run[i].db.ledger[k]
  {
    hide Inv, Enabled, Apply, IsRun, CreditsBy, AskedFor;
    var a := ActionAt(run, i);
    LedgerStep(run[i], a);
    if run[i + 1].db.ledger != run[i].db.ledger {
      var t, id, hp :| t in run[i].procs && CreditsBy(run[i], Apply(run[i], a), t, id, hp);
      StepCredits(run[i], a, t, id, hp);
    }
  }

  lemma AskedForCarries(p: Payment, hp: HorizonPayment)
    requires AskedFor(p, hp)
    ensures hp.amount.Some? && Parse(hp.amount.value) == Some(Carried(hp))
  {
    hide Parse;
  }

  // ----- one issuer -----

  lemma IntentStep(s: State, a: Action, id: string)
    requires Inv(s) && Enabled(s, a) && id in s.db.payments
    ensures id in Apply(s, a).db.payments && Intent(Apply(s, a).db.payments[id]) == Intent(s.db.payments[id])
  {
    hide Enabled, Apply, LogInv, LostIsExact, ProcsInv, RowsInv, Intent, Total, Recorded;
    ApplyGrows(s, a);
  }

  lemma {:induction false} IntentStays(run: seq<State>, i: nat, j: nat, id: string)
    requires IsRun(run) && i <= j < |run| && id in run[i].db.payments
    ensures id in run[j].db.payments && Intent(run[j].db.payments[id]) == Intent(run[i].db.payments[id])
    decreases j - i
  {
    hide Enabled, Apply, IsRun, Inv, Intent;
    if i < j {
      IntentStays(run, i, j - 1, id);
      var a := ActionAt(run, j - 1);
      IntentStep(run[j - 1], a, id);
    }
  }

  lemma CreditedIssuer(run: seq<State>, i: nat, m: nat, id: string, hp: HorizonPayment)
    requires IsRun(run) && i + 1 < |run| && m < |run| && Credits(run, i, id, hp) && id in run[m].db.payments
    requires run[m].db.payments[id].assetIssuer.Some? && run[m].db.payments[id].assetIssuer.value != ""
    ensures hp.assetIssuer == run[m].db.payments[id].assetIssuer && hp.assetCode == Some(run[m].db.payments[id].asset)
  {
    hide IsRun, Credits, Parse;
    OnlyAskedForIsCredited(run, i, id, hp);
    if i <= m { IntentStays(run, i, m, id); } else { IntentStays(run, m, i, id); }
    assert Intent(run[m].db.payments[id]) == Intent(run[i].db.payments[id]);
  }

  /** Of two payments that differ in their issuer only, at most one is ever credited to an intent that names one. */
  lemma OneIssuerOnly(run: seq<State>, i: nat, j: nat, m: nat, id: string, hp: HorizonPayment, other: HorizonPayment)
    requires IsRun(run) && i + 1 < |run| && j + 1 < |run| && m < |run| && id in run[m].db.payments
    requires run[m].db.payments[id].assetIssuer.Some? && run[m].db.payments[id].assetIssuer.value != ""
    requires other == hp.(assetIssuer := other.assetIssuer) && other != hp
    ensures !(Credits(run, i, id, hp) && Credits(run, j, id, other))
  {
    hide IsRun, Credits;
    if Credits(run, i, id, hp) && Credits(run, j, id, other) {
      CreditedIssuer(run, i, m, id, hp);
      CreditedIssuer(run, j, m, id, other);
    }
  }

  // ----- expiry -----

  /** A row becomes `expired` only in a sweep at or after its expiry, while it was still open; and a sweep leaves every row
      alone that has time left. */
  lemma ExpiresWhenDue(s: State, a: Action, id: string)
    requires Inv(s) && Enabled(s, a) && id in s.db.payments
    ensures id in Apply(s, a).db.payments
    ensures s.db.payments[id].status != Expired && Apply(s, a).db.payments[id].status == Expired ==>
              && a.Sweep? && s.db.payments[id].expiresAt <= a.now
              && (s.db.payments[id].status == Pending || s.db.payments[id].status == Underpaid)
              && Apply(s, a).db.payments[id] == s.db.payments[id].(status := Expired)
    ensures a.Sweep? && s.db.payments[id].expiresAt > a.now ==> Apply(s, a).db.payments[id] == s.db.payments[id]
  {
    hide Parse, Print, Consistent, ProcOk, RowOk, Total, Recorded, LogInv, LostIsExact, SweptWhenDue;
    if a.Restart? { BackfillIsNoop(s, a.ledger); }
    hide Backfilled;
    if a.Sweep? {
      SweepIsDue(s.db, a.now, a.batch, a.order);
      SweepFields(s.db.payments, Expire(s.db, Elements(a.order)).payments, a.now, a.batch, a.order, id);
    }
    if a.Advance? { AdvanceNeverExpires(s, a.t, a.now, id); }
  }

  lemma SweepFields(before: map<string, Payment>, after: map<string, Payment>, now: int, batch: nat, order: seq<string>, id: string)
    requires SweptWhenDue(before, after, now, batch, order) && id in before
    ensures id in after
    ensures before[id].expiresAt > now ==> after[id] == before[id]
    ensures after[id] == before[id]
         || ((before[id].status == Pending || before[id].status == Underpaid) && before[id].expiresAt <= now
             && after[id] == before[id].(status := Expired))
  {
  }

  lemma AdvanceNeverExpires(s: State, t: nat, now: int, id: string)
    requires ProcsInv(s) && Enabled(s, Advance(t, now)) && id in s.db.payments
    ensures id in Apply(s, Advance(t, now)).db.payments
    ensures Apply(s, Advance(t, now)).db.payments[id].status == Expired ==> s.db.payments[id].status == Expired
  {
    hide Parse, Print, Consistent, Total, Recorded, Pays, Continue, Committed;
    var proc := s.procs[t];
    assert ProcOk(s.db, proc);
    if proc.Recording? { RecordPayments(s.db, proc.p.id, proc.hp.Hash(), Carried(proc.hp)); }
  }

  /** So in every run. */
  lemma ExpiredInRunWhenDue(run: seq<State>, i: nat, id: string) returns (a: Action)
    requires IsRun(run) && i + 1 < |run| && id in run[i].db.payments
    ensures Enabled(run[i], a) && run[i + 1] == Apply(run[i], a) && id in run[i + 1].db.payments
    ensures run[i].db.payments[id].status != Expired && run[i + 1].db.payments[id].status == Expired ==>
              a.Sweep? && run[i].db.payments[id].expiresAt <= a.now
    ensures a.Sweep? && run[i].db.payments[id].expiresAt > a.now ==> run[i + 1].db.payments[id] == run[i].db.payments[id]
  {
    hide Inv, Enabled, Apply, IsRun;
    a := ActionAt(run, i);
    ExpiresWhenDue(run[i], a, id);
  }
}
