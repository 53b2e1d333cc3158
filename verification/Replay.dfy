/** Payments for one intent, handled one at a time: what order and repetition can change, and what not. */
module Replay {
  import opened Common
  import opened Money
  import opened Db
  import opened Horizon
  import opened Settlement
  import SettlementTheorems

  /** A record as some listener or poller sees it, and when. */
  datatype Sighting = Sighting(hp: HorizonPayment, now: int)

  ghost function Replayed(db: Tables, seen: seq<Sighting>): Tables {
    if seen == [] then db
    else
      var last := seen[|seen| - 1];
      RunAlone(Replayed(db, seen[..|seen| - 1]), last.now, Looking(last.hp)).db
  }

  /** Transactions with what they carry: repeats collapse. */
  function Transfers(seen: seq<Sighting>): set<(string, int)> {
    set s | s in seen :: (s.hp.Hash(), Carried(s.hp))
  }

  ghost function SetSum(s: set<(string, int)>): int {
    if s == {} then 0
    else
      var x :| x in s;
      x.1 + SetSum(s - {x})
  }

  lemma {:induction false} SetSumWithout(s: set<(string, int)>, x: (string, int))
    requires x in s
    ensures SetSum(s) == x.1 + SetSum(s - {x})
    decreases |s|
  {
    var y :| y in s && SetSum(s) == y.1 + SetSum(s - {y});
    if y != x {
      SetSumWithout(s - {y}, x);
      SetSumWithout(s - {x}, y);
      assert s - {y} - {x} == s - {x} - {y};
    }
  }

  lemma SetSumWith(s: set<(string, int)>, x: (string, int))
    requires x !in s
    ensures SetSum(s + {x}) == SetSum(s) + x.1
  {
    SetSumWithout(s + {x}, x);
    assert s + {x} - {x} == s;
  }

  /** Every sighting is of a payment for `p`, in time, and a transaction always carries the same amount. */
  ghost predicate AllPay(p: Payment, seen: seq<Sighting>) {
    && (forall s :: s in seen ==> Pays(p, s.hp) && s.now < p.expiresAt)
    && (forall s, t :: s in seen && t in seen && s.hp.Hash() == t.hp.Hash() ==> Carried(s.hp) == Carried(t.hp))
  }

  predicate FreshIntent(db: Tables, p: Payment) {
    p.id in db.payments && db.payments[p.id] == p && p == Intent(p) && forall c :: c in db.ledger ==> c.paymentId != p.id
  }

  /** What the tables hold after `seen`, while the price is not reached. */
  ghost predicate OpenAfter(db: Tables, p: Payment, seen: seq<Sighting>) {
    && p.id in db.payments && Watchable(db.payments[p.id]) && Intent(db.payments[p.id]) == p
    && (forall h :: Recorded(db.ledger, p.id, h) <==> exists s :: s in seen && s.hp.Hash() == h)
    && Total(db.ledger, p.id) == SetSum(Transfers(seen)) < Price(p)
    && (seen != [] ==> db.payments[p.id].status == Underpaid && Paid(db.payments[p.id]) == SetSum(Transfers(seen)))
  }

  ghost predicate ClosedAfter(db: Tables, p: Payment, seen: seq<Sighting>) {
    && p.id in db.payments && Intent(db.payments[p.id]) == p && db.payments[p.id].status == Completed
    && SetSum(Transfers(seen)) >= Price(p)
    && Paid(db.payments[p.id]) == Total(db.ledger, p.id) == FirstSum(Price(p), seen)
  }

  /** The sum over distinct transactions, up to the first sighting that brings it to the price. */
  ghost function FirstSum(price: int, seen: seq<Sighting>): int {
    if seen == [] then 0
    else if SetSum(Transfers(seen[..|seen| - 1])) >= price then FirstSum(price, seen[..|seen| - 1])
    else SetSum(Transfers(seen))
  }

  // ----- one sighting -----

  lemma OpenIsFound(db: Tables, p: Payment, now: int)
    requires Consistent(db) && p.id in db.payments && Intent(db.payments[p.id]) == Intent(p) && Watchable(db.payments[p.id]) && now < p.expiresAt
    ensures FindPending(db, p.memo, now) == Some(db.payments[p.id])
  {
    hide Parse;
    FindPendingIs(db, p.memo, now, p.id);
  }

  lemma PaysSameIntent(p: Payment, q: Payment, hp: HorizonPayment)
    requires Intent(p) == Intent(q)
    ensures Pays(p, hp) == Pays(q, hp) && Price(p) == Price(q)
  {
  }

  function Settled(db: Tables, hp: HorizonPayment, q: Payment, d: Decision): Outcome {
    Outcome(UpdateStatus(Record(db, q.id, hp.Hash(), Carried(hp)), q.id, d.status, hp.Hash(), d.paid),
            Done(true), [SettledPayload(q, hp.Hash(), d)])
  }

  lemma LookingStep(db: Tables, now: int, hp: HorizonPayment, q: Payment)
    requires hp.Memo().Some? && FindPending(db, hp.Memo().value, now) == Some(q)
    ensures RunAlone(db, now, Looking(hp)) == RunAlone(db, now, Summing(q, hp))
  {
    hide RunAlone, FindPending;
    RunStep(db, now, Looking(hp));
  }

  lemma SummingStep(db: Tables, now: int, hp: HorizonPayment, q: Payment)
    requires SumStroops(db, q.id).Some? && Pays(q, hp)
    ensures RunAlone(db, now, Summing(q, hp)) == RunAlone(db, now, Recording(q, hp))
  {
    hide RunAlone, SumStroops, Pays, Verify;
    RunStep(db, now, Summing(q, hp));
    VerifyIffPays(q, hp, SumStroops(db, q.id).value);
  }

  lemma RecordingStep(db: Tables, now: int, hp: HorizonPayment, q: Payment)
    requires !Recorded(db.ledger, q.id, hp.Hash())
    ensures RunAlone(db, now, Recording(q, hp)) == RunAlone(Record(db, q.id, hp.Hash(), Carried(hp)), now, Resumming(q, hp))
  {
    hide RunAlone, Recorded, Record, Parse;
    RunStep(db, now, Recording(q, hp));
  }

  lemma ResummingStep(db: Tables, now: int, hp: HorizonPayment, q: Payment)
    requires SumStroops(db, q.id).Some?
    ensures RunAlone(db, now, Resumming(q, hp)) == RunAlone(db, now, Updating(q, hp.Hash(), Decide(q, SumStroops(db, q.id).value)))
  {
    hide RunAlone, SumStroops, Decide;
    RunStep(db, now, Resumming(q, hp));
  }

  lemma SumFits(db: Tables, id: string)
    requires 0 <= Total(db.ledger, id) <= I64_MAX
    ensures SumStroops(db, id) == Some(Total(db.ledger, id))
  {
    hide Total;
  }

  /** The whole of `reconcile_payment` on a transaction it has not seen. */
  lemma FirstSighting(db: Tables, now: int, hp: HorizonPayment, q: Payment)
    requires Consistent(db) && q.id in db.payments && db.payments[q.id] == q && Watchable(q) && now < q.expiresAt && Pays(q, hp)
    requires !Recorded(db.ledger, q.id, hp.Hash()) && Total(db.ledger, q.id) + Carried(hp) <= I64_MAX
    ensures RunAlone(db, now, Looking(hp)) == Settled(db, hp, q, Decide(q, Total(db.ledger, q.id) + Carried(hp)))
  {
    hide Parse, Print, Consistent, Verify, SettledPayload, Decide, UpdateStatus, Recorded, FindPending, RunAlone, Total, Pays, Record,
      SumStroops, Carried;
    TotalIsNatural(db, q.id);
    CarriedIsPositive(q, hp);
    PaysMemo(q, hp);
    OpenIsFound(db, q, now);
    RecordEffect(db, q.id, hp.Hash(), Carried(hp));
    RecordPayments(db, q.id, hp.Hash(), Carried(hp));
    SumFits(db, q.id);
    LookingStep(db, now, hp, q);
    SummingStep(db, now, hp, q);
    RecordingStep(db, now, hp, q);
    var db' := Record(db, q.id, hp.Hash(), Carried(hp));
    SumFits(db', q.id);
    ResummingStep(db', now, hp, q);
    RunUpdate(db', now, q, hp.Hash(), Decide(q, Total(db'.ledger, q.id)));
  }

  lemma TotalIsNatural(db: Tables, id: string)
    requires Consistent(db)
    ensures Total(db.ledger, id) >= 0
  {
    TotalIsNonNegative(db.ledger, id);
  }

  lemma CarriedIsPositive(p: Payment, hp: HorizonPayment)
    requires Pays(p, hp)
    ensures 0 < Carried(hp) <= I64_MAX && 0 < Price(p) <= I64_MAX
  {
  }

  function VerdictKind(v: Verdict): EventKind {
    match v case ExactPayment(_, _) => CompletedEvent case Overpayment(_, _) => OverpaidEvent case Underpayment(_, _) => UnderpaidEvent
  }

  lemma JudgeMatchesDecide(hash: string, q: Payment, total: int)
    ensures var v, d := Judge(hash, total, Price(q)), Decide(q, total);
            && VerdictKind(v) == d.event && v.paid == d.paid && v.hash == hash
            && d.status == if v.Underpayment? then Underpaid else Completed
  {
    hide Print, Price;
  }

  /** The row and the notification after a first sighting. */
  lemma SettledRow(db: Tables, hp: HorizonPayment, q: Payment, d: Decision)
    requires q.id in db.payments && Watchable(db.payments[q.id])
    ensures var o := Settled(db, hp, q, d);
            && q.id in o.db.payments && o.db.payments[q.id].status == d.status
            && o.db.payments[q.id].paidAmount == Some(d.paid) && o.db.payments[q.id].txHash == Some(hp.Hash())
            && |o.sent| == 1 && o.sent[0].event == d.event
  {
    RecordPayments(db, q.id, hp.Hash(), Carried(hp));
    hide Record, Carried, Canonical;
  }

  /** What `verify` says before the credit is what is written and announced after it. */
  lemma VerdictAgrees(db: Tables, now: int, hp: HorizonPayment, q: Payment)
    requires Consistent(db) && q.id in db.payments && db.payments[q.id] == q && Watchable(q) && now < q.expiresAt && Pays(q, hp)
    requires !Recorded(db.ledger, q.id, hp.Hash()) && Total(db.ledger, q.id) + Carried(hp) <= I64_MAX
    ensures var verdict, run := Verify(q, hp, Total(db.ledger, q.id)), RunAlone(db, now, Looking(hp));
            && verdict.Some? && q.id in run.db.payments && |run.sent| == 1
            && run.sent[0].event == VerdictKind(verdict.value)
            && run.db.payments[q.id].status == (if verdict.value.Underpayment? then Underpaid else Completed)
            && run.db.payments[q.id].paidAmount == Some(verdict.value.paid)
            && run.db.payments[q.id].txHash == Some(verdict.value.hash)
  {
    hide Parse, Print, Consistent, Verify, Recorded, RunAlone, Total, Pays, Judge, Decide, Settled, Price, Carried;
    FirstSighting(db, now, hp, q);
    TotalIsNatural(db, q.id);
    VerdictIs(q, hp, Total(db.ledger, q.id));
    JudgeMatchesDecide(hp.Hash(), q, Total(db.ledger, q.id) + Carried(hp));
    SettledRow(db, hp, q, Decide(q, Total(db.ledger, q.id) + Carried(hp)));
  }

  lemma VerdictIs(q: Payment, hp: HorizonPayment, total: int)
    requires Pays(q, hp) && 0 <= total && total + Carried(hp) <= I64_MAX
    ensures Verify(q, hp, total) == Some(Judge(hp.Hash(), total + Carried(hp), Price(q)))
  {
    hide Print, Wrap64, Parse, AssetMatches, Judge;
    Wrap64Id(total + Carried(hp));
  }

  lemma Wrap64Id(n: int)
    requires I64_MIN <= n <= I64_MAX
    ensures Wrap64(n) == n
  {
  }

  // ----- one more sighting -----

  lemma TransfersSnoc(seen: seq<Sighting>, s: Sighting)
    ensures Transfers(seen + [s]) == Transfers(seen) + {(s.hp.Hash(), Carried(s.hp))}
  {
    var x := (s.hp.Hash(), Carried(s.hp));
    forall y | y in Transfers(seen) + {x} ensures y in Transfers(seen + [s]) {
      if y == x {
        assert s in seen + [s];
      } else {
        var t :| t in seen && y == (t.hp.Hash(), Carried(t.hp));
        assert t in seen + [s];
      }
    }
  }

  /** A repeat carries the same amount, so it adds no transfer. */
  lemma RepeatAddsNothing(p: Payment, seen: seq<Sighting>, s: Sighting)
    requires AllPay(p, seen + [s]) && exists t :: t in seen && t.hp.Hash() == s.hp.Hash()
    ensures Transfers(seen + [s]) == Transfers(seen)
  {
    hide Carried, Pays;
    var t :| t in seen && t.hp.Hash() == s.hp.Hash();
    assert t in seen + [s] && s in seen + [s];
    assert (t.hp.Hash(), Carried(t.hp)) in Transfers(seen);
    TransfersSnoc(seen, s);
  }

  lemma FirstAddsItsAmount(seen: seq<Sighting>, s: Sighting)
    requires !exists t :: t in seen && t.hp.Hash() == s.hp.Hash()
    ensures SetSum(Transfers(seen + [s])) == SetSum(Transfers(seen)) + Carried(s.hp)
  {
    hide Carried, SetSum;
    TransfersSnoc(seen, s);
    SetSumWith(Transfers(seen), (s.hp.Hash(), Carried(s.hp)));
  }

  /** A payment adds nothing or something positive. */
  lemma SumGrows(p: Payment, seen: seq<Sighting>, s: Sighting)
    requires AllPay(p, seen + [s])
    ensures SetSum(Transfers(seen)) <= SetSum(Transfers(seen + [s]))
  {
    hide Pays, SetSum, Transfers;
    if exists t :: t in seen && t.hp.Hash() == s.hp.Hash() {
      RepeatAddsNothing(p, seen, s);
    } else {
      assert s in seen + [s];
      PaysPositive(p, s.hp);
      FirstAddsItsAmount(seen, s);
    }
  }

  lemma ClosedIsSkipped(db: Tables, p: Payment, s: Sighting)
    requires Consistent(db) && p.id in db.payments && Intent(db.payments[p.id]) == p && db.payments[p.id].status == Completed && Pays(p, s.hp)
    ensures RunAlone(db, s.now, Looking(s.hp)).db == db
  {
    hide Parse, Pays, RunAlone;
    PaysMemo(p, s.hp);
    RunStep(db, s.now, Looking(s.hp));
    RunDone(db, s.now, false);
  }

  lemma OpenStep(db: Tables, p: Payment, seen: seq<Sighting>, s: Sighting)
    requires Consistent(db) && OpenAfter(db, p, seen) && AllPay(p, seen + [s]) && FirstSum(Price(p), seen + [s]) <= I64_MAX
    ensures var db' := RunAlone(db, s.now, Looking(s.hp)).db; OpenAfter(db', p, seen + [s]) || ClosedAfter(db', p, seen + [s])
    ensures Consistent(RunAlone(db, s.now, Looking(s.hp)).db)
  {
    FirstSumSnoc(Price(p), seen, s);
    hide Parse, Print, Consistent, Pays, RunAlone, SetSum, Transfers, Recorded, Total, Verify, Paid, Price, FirstSum;
    var q := db.payments[p.id];
    assert s in seen + [s];
    PaysSameIntent(p, q, s.hp);
    PaysMemo(q, s.hp);
    if exists t :: t in seen && t.hp.Hash() == s.hp.Hash() {
      RepeatAddsNothing(p, seen, s);
      SettlementTheorems.ReSightingIsNoop(db, s.now, s.hp, p.id);
    } else {
      FirstAddsItsAmount(seen, s);
      assert !Recorded(db.ledger, p.id, s.hp.Hash());
      FirstSighting(db, s.now, s.hp, q);
      SettledIs(db, s.hp, q);
      assert forall t :: t in seen + [s] <==> t in seen || t == s;
    }
  }

  /** The tables after a first sighting. */
  lemma SettledIs(db: Tables, hp: HorizonPayment, q: Payment)
    requires Consistent(db) && q.id in db.payments && db.payments[q.id] == q && Watchable(q) && Pays(q, hp)
    requires !Recorded(db.ledger, q.id, hp.Hash()) && Total(db.ledger, q.id) + Carried(hp) <= I64_MAX
    ensures var total, after := Total(db.ledger, q.id) + Carried(hp), Settled(db, hp, q, Decide(q, Total(db.ledger, q.id) + Carried(hp))).db;
            && Consistent(after) && q.id in after.payments && Intent(after.payments[q.id]) == Intent(q)
            && Total(after.ledger, q.id) == total && Paid(after.payments[q.id]) == total
            && after.payments[q.id].status == (if total < Price(q) then Underpaid else Completed)
            && forall h :: Recorded(after.ledger, q.id, h) <==> Recorded(db.ledger, q.id, h) || h == hp.Hash()
  {
    hide Parse, Print, Consistent, Pays, Recorded, Total, Record, SettledPayload, Carried;
    CarriedIsPositive(q, hp);
    TotalIsNatural(db, q.id);
    RecordEffect(db, q.id, hp.Hash(), Carried(hp));
    RecordPayments(db, q.id, hp.Hash(), Carried(hp));
    RecordedAfter(db, q.id, hp.Hash(), Carried(hp));
    var total := Total(db.ledger, q.id) + Carried(hp);
    var d := Decide(q, total);
    DecideKnows(q, total);
    UpdateGrows(Record(db, q.id, hp.Hash(), Carried(hp)), q.id, d.status, hp.Hash(), d.paid);
  }

  lemma RecordedAfter(db: Tables, id: string, hash: string, n: int)
    ensures forall h :: Recorded(Record(db, id, hash, n).ledger, id, h) <==> Recorded(db.ledger, id, h) || h == hash
  {
    var after := Record(db, id, hash, n).ledger;
    forall h | Recorded(after, id, h) && h != hash ensures Recorded(db.ledger, id, h) {
      var k :| 0 <= k < |after| && after[k].paymentId == id && after[k].txHash == h;
      assert k < |db.ledger| && db.ledger[k] == after[k];
    }
    forall h | Recorded(db.ledger, id, h) ensures Recorded(after, id, h) {
      var k :| 0 <= k < |db.ledger| && db.ledger[k].paymentId == id && db.ledger[k].txHash == h;
      assert after[k] == db.ledger[k];
    }
    if !Recorded(db.ledger, id, hash) { assert after[|db.ledger|] == Credit(id, hash, n); }
  }

  // ----- a whole sequence -----

  lemma {:induction false} SumNonNegative(p: Payment, seen: seq<Sighting>)
    requires AllPay(p, seen)
    ensures SetSum(Transfers(seen)) >= 0
  {
    hide Pays;
    if seen != [] {
      assert seen == seen[..|seen| - 1] + [seen[|seen| - 1]];
      SumNonNegative(p, seen[..|seen| - 1]);
      SumGrows(p, seen[..|seen| - 1], seen[|seen| - 1]);
    } else {
      assert Transfers(seen) == {};
    }
  }

  lemma FirstSumSnoc(price: int, seen: seq<Sighting>, s: Sighting)
    ensures FirstSum(price, seen + [s]) == if SetSum(Transfers(seen)) >= price then FirstSum(price, seen) else SetSum(Transfers(seen + [s]))
  {
    hide SetSum, Transfers;
    assert (seen + [s])[..|seen|] == seen;
  }

  /** Up to the price the sum is the sum over everything seen, and so it stays in range. */
  lemma FirstSumBelow(p: Payment, seen: seq<Sighting>)
    requires AllPay(p, seen) && SetSum(Transfers(seen)) < Price(p)
    ensures FirstSum(Price(p), seen) == SetSum(Transfers(seen))
  {
    hide Pays, Price;
    if seen == [] {
      assert Transfers([]) == {};
    } else {
      hide SetSum, Transfers;
      assert seen == seen[..|seen| - 1] + [seen[|seen| - 1]];
      SumGrows(p, seen[..|seen| - 1], seen[|seen| - 1]);
    }
  }

  lemma {:induction false} Replays(db: Tables, p: Payment, seen: seq<Sighting>)
    requires Consistent(db) && FreshIntent(db, p) && AllPay(p, seen) && FirstSum(Price(p), seen) <= I64_MAX
    ensures Consistent(Replayed(db, seen))
    ensures OpenAfter(Replayed(db, seen), p, seen) || ClosedAfter(Replayed(db, seen), p, seen)
  {
    hide Consistent, Pays, RunAlone, SetSum, Transfers, FirstSum, Price;
    if seen == [] {
      StartsOpen(db, p);
    } else {
      hide OpenAfter, ClosedAfter, FreshIntent;
      var init, last := seen[..|seen| - 1], seen[|seen| - 1];
      assert seen == init + [last];
      FirstSumSnoc(Price(p), init, last);
      if SetSum(Transfers(init)) < Price(p) { FirstSumBelow(p, init); }
      FreshPriceFits(db, p);
      Replays(db, p, init);
      if OpenAfter(Replayed(db, init), p, init) {
        OpenStep(Replayed(db, init), p, init, last);
      } else {
        ClosedStep(Replayed(db, init), p, init, last);
      }
    }
  }

  lemma FreshPriceFits(db: Tables, p: Payment)
    requires Consistent(db) && FreshIntent(db, p)
    ensures 0 < Price(p) <= I64_MAX
  {
    hide Parse;
    PriceIsPositive(db, p);
  }

  lemma StartsOpen(db: Tables, p: Payment)
    requires Consistent(db) && FreshIntent(db, p)
    ensures OpenAfter(db, p, [])
  {
    FreshPriceFits(db, p);
    SettlementTheorems.NoCredits(db.ledger, p.id);
    assert Transfers([]) == {};
    forall h ensures !Recorded(db.ledger, p.id, h) { SettlementTheorems.NothingRecorded(db.ledger, p.id, h); }
    hide Parse, Price;
  }

  lemma ClosedStep(db: Tables, p: Payment, seen: seq<Sighting>, s: Sighting)
    requires Consistent(db) && ClosedAfter(db, p, seen) && AllPay(p, seen + [s])
    ensures RunAlone(db, s.now, Looking(s.hp)).db == db && ClosedAfter(db, p, seen + [s])
  {
    hide Consistent, Pays, RunAlone, SetSum, Transfers, FirstSum, Price, Total, Paid;
    assert s in seen + [s];
    SumGrows(p, seen, s);
    FirstSumSnoc(Price(p), seen, s);
    ClosedIsSkipped(db, p, s);
  }

  /** After any sequence of sightings: `completed` if and only if the sum over distinct transactions reaches the price,
      and the stored amount and the ledger total are the sum up to the first sighting that gets there. */
  lemma WhatIsStored(db: Tables, p: Payment, seen: seq<Sighting>)
    requires Consistent(db) && FreshIntent(db, p) && seen != [] && AllPay(p, seen) && FirstSum(Price(p), seen) <= I64_MAX
    ensures p.id in Replayed(db, seen).payments
    ensures var row := Replayed(db, seen).payments[p.id];
            && row.status == (if SetSum(Transfers(seen)) >= Price(p) then Completed else Underpaid)
            && Paid(row) == Total(Replayed(db, seen).ledger, p.id) == FirstSum(Price(p), seen)
  {
    hide Consistent, Pays, RunAlone, SetSum, Transfers, Replayed, AllPay, FreshIntent, FirstSum, Price, Total, Paid, Recorded;
    Replays(db, p, seen);
    if SetSum(Transfers(seen)) < Price(p) { FirstSumBelow(p, seen); }
  }

  /** The first sighting that reaches the price is the last one that counts. */
  lemma {:induction false} FirstSumIs(p: Payment, seen: seq<Sighting>, k: nat)
    requires AllPay(p, seen) && k <= |seen|
    requires forall j :: 0 <= j < k ==> SetSum(Transfers(seen[..j])) < Price(p)
    requires k == |seen| || SetSum(Transfers(seen[..k])) >= Price(p)
    ensures FirstSum(Price(p), seen) == SetSum(Transfers(seen[..k]))
  {
    hide Pays, Price, SetSum, Transfers;
    if k == |seen| {
      assert seen[..k] == seen;
      if seen == [] { NoTransfers(); }
    } else {
      var init := seen[..|seen| - 1];
      SumGrowsOver(p, seen, k, |seen| - 1);
      assert init[..k] == seen[..k] && forall j :: 0 <= j < k ==> init[..j] == seen[..j];
      FirstSumIs(p, init, k);
    }
  }

  lemma NoTransfers()
    ensures SetSum(Transfers([])) == 0
  {
    assert Transfers([]) == {};
  }

  lemma {:induction false} SumGrowsOver(p: Payment, seen: seq<Sighting>, j: nat, k: nat)
    requires AllPay(p, seen) && j <= k <= |seen|
    ensures SetSum(Transfers(seen[..j])) <= SetSum(Transfers(seen[..k]))
    decreases k - j
  {
    hide Pays, SetSum, Transfers;
    if j < k {
      SumGrowsOver(p, seen, j, k - 1);
      assert seen[..k] == seen[..k - 1] + [seen[k - 1]];
      SumGrows(p, seen[..k - 1], seen[k - 1]);
    }
  }

  /** So two ways of receiving the same transactions, in any order and with any repeats, end in the same status, and in
      the same amount and total if and only if they reach the price with the same sum. */
  lemma OrderDecidesAmount(db: Tables, p: Payment, seen: seq<Sighting>, other: seq<Sighting>)
    requires Consistent(db) && FreshIntent(db, p) && seen != [] && AllPay(p, seen) && AllPay(p, other)
    requires Transfers(seen) == Transfers(other)
    requires FirstSum(Price(p), seen) <= I64_MAX && FirstSum(Price(p), other) <= I64_MAX
    ensures p.id in Replayed(db, seen).payments && p.id in Replayed(db, other).payments
    ensures var a, b := Replayed(db, seen).payments[p.id], Replayed(db, other).payments[p.id];
            && a.status == b.status
            && (Paid(a) == Paid(b) <==> FirstSum(Price(p), seen) == FirstSum(Price(p), other))
            && (a.status == Underpaid ==> Paid(a) == Paid(b))
    ensures Total(Replayed(db, seen).ledger, p.id) == Total(Replayed(db, other).ledger, p.id)
       <==> FirstSum(Price(p), seen) == FirstSum(Price(p), other)
  {
    SomeTransfer(seen, other);
    hide Consistent, Pays, RunAlone, SetSum, Transfers, Replayed, AllPay, FreshIntent, FirstSum, Price, Total, Paid;
    WhatIsStored(db, p, seen);
    WhatIsStored(db, p, other);
    if SetSum(Transfers(seen)) < Price(p) {
      FirstSumBelow(p, seen);
      FirstSumBelow(p, other);
    }
  }

  lemma SomeTransfer(seen: seq<Sighting>, other: seq<Sighting>)
    requires seen != [] && Transfers(seen) == Transfers(other)
    ensures other != []
  {
    assert (seen[0].hp.Hash(), Carried(seen[0].hp)) in Transfers(seen);
  }

  /** For every payment that covers the price alone and every other that does not, the two orders store different
      amounts: after the first one the intent is closed, and the other transaction is never credited. */
  lemma OrderCanMatter(db: Tables, p: Payment, x: Sighting, y: Sighting)
    requires Consistent(db) && FreshIntent(db, p) && AllPay(p, [x, y]) && x.hp.Hash() != y.hp.Hash()
    requires Carried(y.hp) < Price(p) <= Carried(x.hp) && Carried(x.hp) + Carried(y.hp) <= I64_MAX
    ensures p.id in Replayed(db, [x, y]).payments && p.id in Replayed(db, [y, x]).payments
    ensures Transfers([x, y]) == Transfers([y, x])
    ensures Paid(Replayed(db, [x, y]).payments[p.id]) == Total(Replayed(db, [x, y]).ledger, p.id) == Carried(x.hp)
    ensures Paid(Replayed(db, [y, x]).payments[p.id]) == Total(Replayed(db, [y, x]).ledger, p.id) == Carried(x.hp) + Carried(y.hp)
    ensures Carried(x.hp) != Carried(x.hp) + Carried(y.hp)
  {
    assert x in [x, y] && y in [x, y];
    CarriedIsPositive(p, y.hp);
    SameTransfers(x, y);
    hide Consistent, Pays, RunAlone, SetSum, Transfers, Replayed, FreshIntent, Price, Total, Paid, Carried, FirstSum;
    assert AllPay(p, [y, x]);
    FirstOfTwo(Price(p), x, y);
    FirstOfTwo(Price(p), y, x);
    WhatIsStored(db, p, [x, y]);
    WhatIsStored(db, p, [y, x]);
  }

  lemma SameTransfers(x: Sighting, y: Sighting)
    ensures Transfers([x, y]) == Transfers([y, x])
  {
    assert forall s :: s in [x, y] <==> s in [y, x];
  }

  lemma OneTransfer(x: Sighting)
    ensures SetSum(Transfers([x])) == Carried(x.hp)
  {
    hide Carried;
    NoTransfers();
    FirstAddsItsAmount([], x);
    assert [] + [x] == [x];
  }

  lemma FirstOfTwo(price: int, x: Sighting, y: Sighting)
    requires x.hp.Hash() != y.hp.Hash() && price > 0
    ensures FirstSum(price, [x, y]) == Carried(x.hp) + (if Carried(x.hp) >= price then 0 else Carried(y.hp))
  {
    hide Carried, SetSum, Transfers;
    OneTransfer(x);
    NoTransfers();
    FirstAddsItsAmount([x], y);
    assert [x] + [y] == [x, y];
    FirstSumSnoc(price, [x], y);
    FirstSumSnoc(price, [], x);
    assert [] + [x] == [x];
  }
}
