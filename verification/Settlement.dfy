/** Any number of reconcilers, the expiry sweeper, new intents, failures and restarts, interleaved
    one database statement at a time. */
module Settlement {
  import opened Common
  import opened Money
  import opened Db
  import opened Horizon

  /** `log` holds the notifications that accepted updates committed to. `lost` holds the covered intents whose last
      responsible reconciler died before it wrote `completed`, until another transaction is credited. */
  datatype State = State(db: Tables, procs: map<nat, Proc>, log: seq<Payload>, lost: set<string>)

  datatype Action =
    | Create(p: Payment)
    | Deliver(t: nat, hp: HorizonPayment)
    | Advance(t: nat, now: int)
    | Sweep(now: int, batch: nat, order: seq<string>)
    | Fail(t: nat)
    | Restart(ledger: seq<Credit>)

  /** A reconciler that has credited a transaction and is still to write `completed` for it. */
  predicate Responsible(proc: Proc, id: string) {
    match proc
    case Resumming(p, _) => p.id == id
    case Updating(p, _, d) => p.id == id && d.status == Completed
    case _ => false
  }

  /** The ledger covers the price of an intent that is still open, and the total can be read. */
  predicate Covered(db: Tables, id: string) {
    id in db.payments && Watchable(db.payments[id]) && Price(db.payments[id]) <= Total(db.ledger, id) <= I64_MAX
  }

  predicate SomeoneResponsible(procs: map<nat, Proc>, id: string) {
    exists t :: t in procs && Responsible(procs[t], id)
  }

  /** Someone other than `t` is responsible. */
  predicate OtherResponsible(procs: map<nat, Proc>, t: nat, id: string) {
    exists u :: u in procs && u != t && Responsible(procs[u], id)
  }

  /** The intent that the next statement credits with a new transaction, if it does. */
  function Credited(db: Tables, proc: Proc): set<string> {
    if proc.Recording? && !Recorded(db.ledger, proc.p.id, proc.hp.Hash()) then {proc.p.id} else {}
  }

  ghost predicate Enabled(s: State, a: Action) {
    match a
    case Create(p) => IsNewIntent(s.db, p)
    case Deliver(t, _) => t !in s.procs
    case Advance(t, _) => t in s.procs && !Finished(s.procs[t])
    case Sweep(now, batch, order) => NoRepeats(order) && OldestOverdue(s.db, now, batch, Elements(order))
    case Fail(t) => t in s.procs && !Finished(s.procs[t])
    case Restart(ledger) => Backfilled(s.db, ledger)
  }

  function ExpiredPayload(p: Payment): Payload { BuildPayload(p.(status := Expired), ExpiredEvent, None) }

  function ExpiredPayloads(db: Tables, order: seq<string>): seq<Payload>
    requires forall id :: id in order ==> id in db.payments
  {
    if order == [] then [] else ExpiredPayloads(db, order[..|order| - 1]) + [ExpiredPayload(db.payments[order[|order| - 1]])]
  }

  ghost function Apply(s: State, a: Action): State
    requires Enabled(s, a)
  {
    match a
    case Create(p) => s.(db := s.db.(payments := s.db.payments[p.id := p]))
    case Deliver(t, hp) => s.(procs := s.procs[t := Looking(hp)])
    case Advance(t, now) =>
      State(Effect(s.db, s.procs[t]), s.procs[t := Continue(s.db, now, s.procs[t])],
            s.log + Committed(s.db, s.procs[t]), s.lost - Credited(s.db, s.procs[t]))
    case Sweep(now, batch, order) =>
      assert forall id :: id in order ==> id in Elements(order);
      s.(db := Db.Expire(s.db, Elements(order)),
         log := s.log + ExpiredPayloads(s.db, order))
    case Fail(t) =>
      s.(procs := s.procs[t := Failed],
         lost := s.lost + (set id | id in s.db.payments && Covered(s.db, id) && Responsible(s.procs[t], id)
                                    && !OtherResponsible(s.procs, t, id)))
    case Restart(ledger) =>
      State(s.db.(ledger := ledger), map[], s.log,
            s.lost + (set id | id in s.db.payments && Covered(s.db, id) && SomeoneResponsible(s.procs, id)))
  }

  ghost predicate Initial(s: State) { s == State(Tables(map[], []), map[], [], {}) }

  ghost predicate Next(s: State, s': State) { exists a :: Enabled(s, a) && s' == Apply(s, a) }

  /** A run: every state follows from the one before by one action. */
  ghost predicate IsRun(run: seq<State>) {
    run != [] && Initial(run[0]) && forall i :: 0 <= i < |run| - 1 ==> Next(run[i], run[i + 1])
  }

  // ----- the invariant -----

  predicate Known(db: Tables, p: Payment) { p.id in db.payments && Intent(db.payments[p.id]) == Intent(p) }

  /** What a reconciler may rely on at each point. */
  predicate ProcOk(db: Tables, proc: Proc) {
    match proc
    case Summing(p, hp) => Known(db, p)
    case Recording(p, hp) => Known(db, p) && Pays(p, hp)
    case Resumming(p, hp) => Known(db, p) && Pays(p, hp) && Recorded(db.ledger, p.id, hp.Hash())
    case Updating(p, hash, d) =>
      && Known(db, p) && Recorded(db.ledger, p.id, hash)
      && Parse(d.paid).Some? && Parse(d.paid).value <= Total(db.ledger, p.id) && d == Decide(p, Parse(d.paid).value)
    case _ => true
  }

  function Paid(p: Payment): int { if p.paidAmount.Some? then (match Parse(p.paidAmount.value) case Some(n) => n case None => 0) else 0 }

  /** What a stored row says, against the ledger. */
  predicate RowOk(db: Tables, p: Payment) {
    && (p.txHash.Some? <==> p.paidAmount.Some?)
    && (p.txHash.Some? ==> Recorded(db.ledger, p.id, p.txHash.value) && 0 < Paid(p) <= Total(db.ledger, p.id))
    && match p.status
       case Pending => p.paidAmount.None?
       case Underpaid => 0 < Paid(p) < Price(p)
       case Completed => 0 < Price(p) <= Paid(p)
       case Expired => Paid(p) < Price(p)
  }

  predicate Closed(db: Tables, id: string) { id in db.payments && !Watchable(db.payments[id]) }

  predicate IsTerminal(n: Payload) { n.event != UnderpaidEvent }

  function TerminalCount(log: seq<Payload>, id: string): nat {
    if log == [] then 0
    else TerminalCount(log[..|log| - 1], id) + (if log[|log| - 1].paymentId == id && IsTerminal(log[|log| - 1]) then 1 else 0)
  }

  ghost predicate ProcsInv(s: State) {
    && Consistent(s.db)
    && (forall c :: c in s.db.ledger ==> c.paymentId in s.db.payments)
    && (forall t :: t in s.procs ==> ProcOk(s.db, s.procs[t]))
  }

  ghost predicate RowsInv(s: State) { forall id :: id in s.db.payments ==> RowOk(s.db, s.db.payments[id]) }

  ghost predicate LogInv(s: State) {
    && (forall id :: TerminalCount(s.log, id) == if Closed(s.db, id) then 1 else 0)
    && (forall n :: n in s.log && n.event != ExpiredEvent ==> AmountsAddUp(n))
  }

  /** An open intent is lost exactly when its ledger covers the price and nobody in flight is bound to complete it. */
  predicate Watched(db: Tables, procs: map<nat, Proc>, lost: set<string>, id: string) {
    Updatable(db, id) ==> (id in lost <==> Covered(db, id) && !SomeoneResponsible(procs, id))
  }

  ghost predicate LostIsExact(s: State) {
    s.lost <= s.db.payments.Keys && forall id :: Watched(s.db, s.procs, s.lost, id)
  }

  ghost predicate Inv(s: State) { ProcsInv(s) && RowsInv(s) && LogInv(s) && LostIsExact(s) }

  // ----- what every action keeps of the tables -----

  /** Rows keep their intent, totals only grow, and credits stay. */
  ghost predicate Grows(a: Tables, b: Tables) {
    && (forall id :: id in a.payments ==> id in b.payments && Intent(b.payments[id]) == Intent(a.payments[id]))
    && (forall id :: Total(a.ledger, id) <= Total(b.ledger, id))
    && (forall id, h :: Recorded(a.ledger, id, h) ==> Recorded(b.ledger, id, h))
  }

  lemma ProcOkStable(a: Tables, b: Tables, proc: Proc)
    requires Grows(a, b) && ProcOk(a, proc)
    ensures ProcOk(b, proc)
  {
    hide Parse, Print, Pays, Recorded, Total, Decide;
  }

  lemma RecordGrows(db: Tables, id: string, hash: string, n: int)
    requires Consistent(db) && 0 < n <= I64_MAX
    ensures Grows(db, Record(db, id, hash, n)) && Consistent(Record(db, id, hash, n))
  {
    RecordEffect(db, id, hash, n);
    hide Recorded, Total, Consistent;
    assert Record(db, id, hash, n).payments == db.payments;
  }

  /** Changing statuses and payment records only, in existing rows. */
  lemma SameIntents(a: Tables, b: Tables)
    requires Consistent(a) && b.ledger == a.ledger && b.payments.Keys == a.payments.Keys
    requires forall id :: id in a.payments ==> Intent(b.payments[id]) == Intent(a.payments[id])
    ensures Grows(a, b) && Consistent(b)
  {
    hide Parse, Recorded, Total, NoDoubleCredit;
    forall id | id in a.payments
      ensures b.payments[id].id == a.payments[id].id && b.payments[id].memo == a.payments[id].memo
           && b.payments[id].amount == a.payments[id].amount
    {
      assert Intent(b.payments[id]) == Intent(a.payments[id]);
    }
  }

  lemma UpdateGrows(db: Tables, id: string, status: Status, hash: string, paid: string)
    requires Consistent(db)
    ensures Grows(db, UpdateStatus(db, id, status, hash, paid)) && Consistent(UpdateStatus(db, id, status, hash, paid))
  {
    hide Parse, Recorded, Total, Consistent, Grows;
    SameIntents(db, UpdateStatus(db, id, status, hash, paid));
  }

  /** The statement a reconciler issues next keeps the tables consistent and growing. */
  lemma EffectGrows(db: Tables, proc: Proc)
    requires Consistent(db) && ProcOk(db, proc)
    ensures Grows(db, Effect(db, proc)) && Consistent(Effect(db, proc))
  {
    hide Parse, Print, Consistent, Total, Recorded, Record, UpdateStatus, Pays;
    match proc
    case Recording(p, hp) =>
      PaysPositive(p, hp);
      RecordGrows(db, p.id, hp.Hash(), hp.Stroops().value);
    case Updating(p, hash, d) => UpdateGrows(db, p.id, d.status, hash, d.paid);
    case _ =>
  }

  lemma PaysPositive(p: Payment, hp: HorizonPayment)
    requires Pays(p, hp)
    ensures hp.Stroops().Some? && 0 < hp.Stroops().value <= I64_MAX && 0 < Price(p) <= I64_MAX
  {
  }

  lemma CreditedTotal(db: Tables, id: string, hash: string)
    requires Consistent(db) && Recorded(db.ledger, id, hash)
    ensures Total(db.ledger, id) > 0
  {
    TotalIsNonNegative(db.ledger, id);
    var i :| 0 <= i < |db.ledger| && db.ledger[i].paymentId == id && db.ledger[i].txHash == hash;
    assert db.ledger[i] in db.ledger;
  }

  lemma DecideKnows(p: Payment, total: int)
    requires 0 < total <= I64_MAX
    ensures Parse(Decide(p, total).paid) == Some(total)
  {
    hide Parse, Print;
    ParsePrint(total);
  }

  /** Each step leaves a reconciler with what it relies on at the next. */
  lemma ContinueOk(db: Tables, now: int, proc: Proc)
    requires Consistent(db) && ProcOk(db, proc)
    ensures ProcOk(Effect(db, proc), Continue(db, now, proc))
  {
    hide Parse, Print, Total, Record, UpdateStatus, Pays, Decide, Verify, FindPending, Recorded;
    match proc
    case Looking(hp) =>
      if Continue(db, now, proc).Summing? { FoundIsKnown(db, hp.Memo().value, now); }
    case Summing(p, hp) =>
      if Continue(db, now, proc).Recording? {
        VerifyIffPays(p, hp, Total(db.ledger, p.id));
      }
    case Recording(p, hp) =>
      PaysPositive(p, hp);
      RecordEffect(db, p.id, hp.Hash(), hp.Stroops().value);
      assert Record(db, p.id, hp.Hash(), hp.Stroops().value).payments == db.payments by { RecordPayments(db, p.id, hp.Hash(), hp.Stroops().value); }
    case Resumming(p, hp) =>
      if Continue(db, now, proc).Updating? {
        CreditedTotal(db, p.id, hp.Hash());
        DecideKnows(p, Total(db.ledger, p.id));
      }
    case _ =>
  }

  lemma RecordPayments(db: Tables, id: string, hash: string, n: int)
    ensures Record(db, id, hash, n).payments == db.payments
  {
  }

  lemma FoundIsKnown(db: Tables, memo: string, now: int)
    requires Consistent(db) && FindPending(db, memo, now).Some?
    ensures Known(db, FindPending(db, memo, now).value)
  {
    hide Parse;
  }

  lemma CreateGrows(db: Tables, p: Payment)
    requires Consistent(db) && IsNewIntent(db, p)
    ensures Grows(db, db.(payments := db.payments[p.id := p])) && Consistent(db.(payments := db.payments[p.id := p]))
  {
    hide Parse, Recorded, Total, NoDoubleCredit;
  }

  /** A stored transaction always has its ledger row. */
  lemma StoredIsRecorded(s: State, id: string)
    requires RowsInv(s) && id in s.db.payments && s.db.payments[id].id == id && LegacyCredit(s.db.payments[id]).Some?
    ensures Recorded(s.db.ledger, LegacyCredit(s.db.payments[id]).value.paymentId, LegacyCredit(s.db.payments[id]).value.txHash)
  {
    hide Parse, Total, Recorded;
    assert RowOk(s.db, s.db.payments[id]);
  }

  /** So re-running the backfill inserts nothing. */
  lemma BackfillIsNoop(s: State, after: seq<Credit>)
    requires ProcsInv(s) && RowsInv(s) && Backfilled(s.db, after)
    ensures after == s.db.ledger
  {
    assert forall id :: id in s.db.payments ==> s.db.payments[id].id == id;
    hide ProcsInv, RowsInv, LegacyCredit, Recorded;
    if |after| > |s.db.ledger| {
      var c := after[|s.db.ledger|];
      assert Inserted(s.db, c);
      var id :| id in s.db.payments && LegacyCredit(s.db.payments[id]) == Some(c) && !Recorded(s.db.ledger, c.paymentId, c.txHash);
      StoredIsRecorded(s, id);
      assert false;
    }
  }

  lemma ApplyGrows(s: State, a: Action)
    requires ProcsInv(s) && RowsInv(s) && Enabled(s, a)
    ensures Grows(s.db, Apply(s, a).db) && Consistent(Apply(s, a).db)
    ensures forall c :: c in Apply(s, a).db.ledger ==> c.paymentId in Apply(s, a).db.payments
  {
    hide Parse, Print, Total, Recorded, ProcOk, Consistent, RowOk, Grows, Continue, Committed, ExpiredPayloads, OldestOverdue, Backfilled;
    match a
    case Create(p) => CreateGrows(s.db, p);
    case Advance(t, now) =>
      EffectGrows(s.db, s.procs[t]);
      EffectRows(s.db, s.procs[t]);
    case Sweep(now, batch, order) => SameIntents(s.db, Db.Expire(s.db, Elements(order)));
    case Restart(ledger) =>
      BackfillIsNoop(s, ledger);
      SameIntents(s.db, s.db);
    case _ => SameIntents(s.db, s.db);
  }

  /** Which rows and credits the next statement can touch. */
  lemma EffectRows(db: Tables, proc: Proc)
    requires ProcOk(db, proc)
    ensures Effect(db, proc).payments.Keys == db.payments.Keys
    ensures forall c :: c in Effect(db, proc).ledger ==> c in db.ledger || c.paymentId in db.payments
  {
    hide Parse, Print, Total, Pays, Decide;
    match proc
    case Recording(p, hp) =>
    case Updating(p, hash, d) => assert Known(db, p);
    case _ =>
  }

  lemma ProcsKept(s: State, a: Action)
    requires ProcsInv(s) && RowsInv(s) && Enabled(s, a)
    ensures ProcsInv(Apply(s, a))
  {
    ApplyGrows(s, a);
    hide Parse, Print, Total, Recorded, Consistent, RowOk, Grows, ProcOk, Committed, ExpiredPayloads, OldestOverdue, Backfilled, Continue, Effect;
    var s' := Apply(s, a);
    forall t | t in s'.procs ensures ProcOk(s'.db, s'.procs[t]) {
      if t in s.procs && s'.procs[t] == s.procs[t] {
        ProcOkStable(s.db, s'.db, s.procs[t]);
      } else {
        match a
        case Advance(u, now) => ContinueOk(s.db, now, s.procs[u]);
        case Deliver(u, hp) => LookingOk(s'.db, hp);
        case Fail(u) => FailedOk(s'.db);
        case _ =>
      }
    }
  }

  lemma LookingOk(db: Tables, hp: HorizonPayment)
    ensures ProcOk(db, Looking(hp))
  {
  }

  lemma FailedOk(db: Tables)
    ensures ProcOk(db, Failed)
  {
  }

  // ----- rows -----

  lemma RowOkStable(a: Tables, b: Tables, p: Payment)
    requires Grows(a, b) && RowOk(a, p)
    ensures RowOk(b, p)
  {
    hide Parse, Recorded, Total;
  }

  lemma PriceIsPositive(db: Tables, p: Payment)
    requires Consistent(db) && Known(db, p)
    ensures Parse(p.amount) == Some(Price(p)) && 0 < Price(p) <= I64_MAX
    ensures Price(db.payments[p.id]) == Price(p) && db.payments[p.id].id == p.id
  {
    assert Intent(db.payments[p.id]).amount == Intent(p).amount;
    assert Parse(db.payments[p.id].amount).Some?;
  }

  /** The row that an accepted update writes says what the ledger says. */
  lemma UpdatedRowOk(db: Tables, p: Payment, hash: string, d: Decision)
    requires Consistent(db) && ProcOk(db, Updating(p, hash, d))
    ensures RowOk(db, db.payments[p.id].(status := d.status, txHash := Some(hash), paidAmount := Some(d.paid)))
  {
    hide Parse, Print, Recorded, Total, Consistent, Pays;
    PriceIsPositive(db, p);
  }

  lemma NewRowOk(db: Tables, p: Payment)
    requires p == Intent(p)
    ensures RowOk(db, p)
  {
  }

  lemma RowsKept(s: State, a: Action)
    requires ProcsInv(s) && RowsInv(s) && Enabled(s, a)
    ensures RowsInv(Apply(s, a))
  {
    ApplyGrows(s, a);
    hide Parse, Print, Total, Recorded, Consistent, Grows, Committed, ExpiredPayloads, Backfilled, Continue, RowOk, ProcOk;
    var s' := Apply(s, a);
    forall id | id in s'.db.payments ensures RowOk(s'.db, s'.db.payments[id]) {
      if id in s.db.payments && s'.db.payments[id] == s.db.payments[id] {
        RowOkStable(s.db, s'.db, s.db.payments[id]);
      } else {
        match a
        case Create(p) => NewRowOk(s'.db, p);
        case Advance(t, now) => UpdatedRow(s, t, id);
        case Sweep(now, batch, order) =>
          PriceIsPositive(s.db, s.db.payments[id]);
          ExpiredRowOk(s.db, s.db.payments[id]);
          RowOkStable(s.db, s'.db, s.db.payments[id].(status := Expired));
        case _ =>
      }
    }
  }

  lemma ExpiredRowOk(db: Tables, p: Payment)
    requires RowOk(db, p) && Watchable(p) && 0 < Price(p)
    ensures RowOk(db, p.(status := Expired))
  {
    hide Parse, Recorded, Total;
  }

  lemma UpdatedRow(s: State, t: nat, id: string)
    requires ProcsInv(s) && t in s.procs
    requires id in s.db.payments && Effect(s.db, s.procs[t]).payments[id] != s.db.payments[id]
    requires Grows(s.db, Effect(s.db, s.procs[t]))
    ensures RowOk(Effect(s.db, s.procs[t]), Effect(s.db, s.procs[t]).payments[id])
  {
    hide Parse, Print, Total, Recorded, Consistent, Grows, RowOk, Decide, Pays;
    match s.procs[t]
    case Updating(p, hash, d) =>
      UpdatedRowOk(s.db, p, hash, d);
      RowOkStable(s.db, Effect(s.db, s.procs[t]), Effect(s.db, s.procs[t]).payments[id]);
    case _ =>
  }

  // ----- notifications -----

  lemma TerminalCountSnoc(log: seq<Payload>, n: Payload, id: string)
    ensures TerminalCount(log + [n], id) == TerminalCount(log, id) + (if n.paymentId == id && IsTerminal(n) then 1 else 0)
  {
    assert (log + [n])[..|log|] == log;
  }

  lemma {:induction false} SweepCounts(db: Tables, log: seq<Payload>, order: seq<string>, id: string)
    requires NoRepeats(order) && forall i :: i in order ==> i in db.payments && db.payments[i].id == i
    ensures TerminalCount(log + ExpiredPayloads(db, order), id) == TerminalCount(log, id) + (if id in order then 1 else 0)
    ensures forall n :: n in ExpiredPayloads(db, order) ==> n.event == ExpiredEvent
  {
    if order == [] {
      assert log + [] == log;
    } else {
      var init, last := order[..|order| - 1], order[|order| - 1];
      SweepCounts(db, log, init, id);
      var n := ExpiredPayload(db.payments[last]);
      SweepSnoc(db, init, last);
      assert order == init + [last];
      hide ExpiredPayloads, TerminalCount;
      ConcatAssociates(log, ExpiredPayloads(db, init), [n]);
      TerminalCountSnoc(log + ExpiredPayloads(db, init), n, id);
    }
  }

  lemma SweepSnoc(db: Tables, init: seq<string>, last: string)
    requires forall i :: i in init + [last] ==> i in db.payments
    ensures ExpiredPayloads(db, init + [last]) == ExpiredPayloads(db, init) + [ExpiredPayload(db.payments[last])]
  {
    assert (init + [last])[..|init|] == init;
  }

  /** An accepted update announces a terminal event exactly when it closes the intent. */
  lemma UpdateAnnounces(db: Tables, p: Payment, hash: string, d: Decision)
    requires Consistent(db) && ProcOk(db, Updating(p, hash, d))
    ensures SettledPayload(p, hash, d).paymentId == p.id && SettledPayload(p, hash, d).event == d.event
    ensures IsTerminal(SettledPayload(p, hash, d)) <==> d.status == Completed
    ensures d.status == Completed || d.status == Underpaid
    ensures AmountsAddUp(SettledPayload(p, hash, d))
  {
    PriceIsPositive(db, p);
    hide Parse, Print, Recorded, Total, Consistent, AmountsAddUp, Canonical;
    SettledPayloadAddsUp(p, hash, Parse(d.paid).value);
  }

  lemma UpdateCloses(db: Tables, id: string, status: Status, hash: string, paid: string, other: string)
    requires Updatable(db, id) && (status == Completed || status == Underpaid)
    ensures Closed(UpdateStatus(db, id, status, hash, paid), other) <==> Closed(db, other) || (other == id && status == Completed)
    ensures !Closed(db, id)
  {
  }

  lemma UpdateLog(s: State, t: nat, p: Payment, hash: string, d: Decision)
    requires ProcsInv(s) && LogInv(s) && t in s.procs && s.procs[t] == Updating(p, hash, d) && Updatable(s.db, p.id)
    ensures forall id :: TerminalCount(s.log + [SettledPayload(p, hash, d)], id)
              == if Closed(UpdateStatus(s.db, p.id, d.status, hash, d.paid), id) then 1 else 0
    ensures AmountsAddUp(SettledPayload(p, hash, d))
  {
    hide Parse, Print, ProcOk, AmountsAddUp, TerminalCount, Consistent, SettledPayload, UpdateStatus, Closed;
    UpdateAnnounces(s.db, p, hash, d);
    forall id ensures TerminalCount(s.log + [SettledPayload(p, hash, d)], id)
                   == if Closed(UpdateStatus(s.db, p.id, d.status, hash, d.paid), id) then 1 else 0 {
      TerminalCountSnoc(s.log, SettledPayload(p, hash, d), id);
      UpdateCloses(s.db, p.id, d.status, hash, d.paid, id);
    }
  }

  lemma SameLog(s: State, s': State)
    requires LogInv(s) && s'.log == s.log
    requires forall id :: Closed(s'.db, id) == Closed(s.db, id)
    ensures LogInv(s')
  {
    hide TerminalCount, AmountsAddUp;
  }

  lemma AdvanceLog(s: State, t: nat, now: int)
    requires ProcsInv(s) && LogInv(s) && Enabled(s, Advance(t, now))
    ensures LogInv(Apply(s, Advance(t, now)))
  {
    hide Parse, Print, Consistent, AmountsAddUp, TerminalCount, ProcOk, SettledPayload, Continue, Record, Total;
    var s' := Apply(s, Advance(t, now));
    var proc := s.procs[t];
    if proc.Updating? && Updatable(s.db, proc.p.id) {
      UpdateLog(s, t, proc.p, proc.hash, proc.decision);
    } else {
      if proc.Recording? {
        RecordPayments(s.db, proc.p.id, proc.hp.Hash(), match proc.hp.Stroops() case Some(n) => n case None => 0);
      }
      assert s.log + [] == s.log;
      SameLog(s, s');
    }
  }

  lemma SweepLog(s: State, now: int, batch: nat, order: seq<string>)
    requires ProcsInv(s) && LogInv(s) && Enabled(s, Sweep(now, batch, order))
    ensures LogInv(Apply(s, Sweep(now, batch, order)))
  {
    hide Parse, AmountsAddUp, TerminalCount, ProcOk, NoDoubleCredit, ExpiredPayloads;
    assert forall id :: id in order ==> id in Elements(order);
    forall id ensures TerminalCount(s.log + ExpiredPayloads(s.db, order), id) == TerminalCount(s.log, id) + (if id in order then 1 else 0) {
      SweepCounts(s.db, s.log, order, id);
    }
    SweepCounts(s.db, s.log, order, "");
  }

  lemma LogKept(s: State, a: Action)
    requires ProcsInv(s) && RowsInv(s) && LogInv(s) && Enabled(s, a)
    ensures LogInv(Apply(s, a))
  {
    match a
    case Advance(t, now) => AdvanceLog(s, t, now);
    case Sweep(now, batch, order) => SweepLog(s, now, batch, order);
    case Restart(ledger) =>
      BackfillIsNoop(s, ledger);
      SameLog(s, Apply(s, a));
    case _ =>
      hide Parse, LogInv, ProcsInv, RowsInv;
      SameLog(s, Apply(s, a));
  }

  // ----- what is lost, exactly -----

  lemma ResponsibleSplit(procs: map<nat, Proc>, t: nat, id: string)
    requires t in procs
    ensures SomeoneResponsible(procs, id) <==> Responsible(procs[t], id) || OtherResponsible(procs, t, id)
  {
    hide Responsible;
  }

  lemma OthersUnmoved(procs: map<nat, Proc>, t: nat, proc: Proc, id: string)
    ensures OtherResponsible(procs[t := proc], t, id) <==> OtherResponsible(procs, t, id)
    ensures SomeoneResponsible(procs[t := proc], id) <==> Responsible(proc, id) || OtherResponsible(procs, t, id)
  {
    hide Responsible;
    ResponsibleSplit(procs[t := proc], t, id);
    forall u | u in procs && u != t ensures u in procs[t := proc] && procs[t := proc][u] == procs[u] {
    }
  }

  /** If neither the coverage nor the responsibility for an intent changes, nothing changes for it. */
  lemma StaysWatched(db: Tables, procs: map<nat, Proc>, lost: set<string>, db': Tables, procs': map<nat, Proc>, lost': set<string>, id: string)
    requires Watched(db, procs, lost, id)
    requires Updatable(db', id) ==>
               && Updatable(db, id) && Covered(db', id) == Covered(db, id)
               && SomeoneResponsible(procs', id) == SomeoneResponsible(procs, id) && (id in lost') == (id in lost)
    ensures Watched(db', procs', lost', id)
  {
    hide Covered, SomeoneResponsible, Updatable;
  }

  /** A new credit makes its recorder responsible, and wipes out an earlier loss. */
  lemma RecordingKeepsWatch(s: State, t: nat, now: int, id: string)
    requires ProcsInv(s) && LostIsExact(s) && Enabled(s, Advance(t, now)) && s.procs[t].Recording?
    ensures var s' := Apply(s, Advance(t, now)); Watched(s'.db, s'.procs, s'.lost, id)
  {
    hide Parse, Print, Consistent, Pays, Verify, Total, Recorded, Record, ProcOk, Covered, SomeoneResponsible, Price, Updatable,
      Responsible, OtherResponsible, Watched;
    var p, hp := s.procs[t].p, s.procs[t].hp;
    var s' := Apply(s, Advance(t, now));
    OthersUnmoved(s.procs, t, s'.procs[t], id);
    ResponsibleSplit(s.procs, t, id);
    RecordingIsNotResponsible(p, hp, id);
    AtRecording(s, t);
    RecordCovers(s.db, p, hp, id);
    if id == p.id && !Recorded(s.db.ledger, p.id, hp.Hash()) {
      WatchedByRecorder(s', t, p, hp);
    } else {
      DoneIsNotResponsible(id);
      if id != p.id { ResummingIsResponsible(p, hp, id); }
      StaysWatched(s.db, s.procs, s.lost, s'.db, s'.procs, s'.lost, id);
    }
  }

  lemma AtRecording(s: State, t: nat)
    requires ProcsInv(s) && t in s.procs && s.procs[t].Recording?
    ensures Consistent(s.db) && Pays(s.procs[t].p, s.procs[t].hp)
  {
    hide Consistent, Pays;
    assert ProcOk(s.db, s.procs[t]);
  }

  lemma RecordingIsNotResponsible(p: Payment, hp: HorizonPayment, id: string)
    ensures !Responsible(Recording(p, hp), id)
  {
  }

  lemma DoneIsNotResponsible(id: string)
    ensures !Responsible(Done(true), id) && !Responsible(Done(false), id) && !Responsible(Failed, id)
  {
  }

  lemma WatchedByRecorder(s: State, t: nat, p: Payment, hp: HorizonPayment)
    requires t in s.procs && s.procs[t] == Resumming(p, hp) && p.id !in s.lost
    ensures Watched(s.db, s.procs, s.lost, p.id)
  {
    hide Covered;
    assert Responsible(s.procs[t], p.id);
  }

  /** A recorded transaction changes the coverage of at most its own intent, and only when it is new. */
  lemma RecordCovers(db: Tables, p: Payment, hp: HorizonPayment, id: string)
    requires Consistent(db) && Pays(p, hp)
    ensures var db' := Effect(db, Recording(p, hp));
            && db'.payments == db.payments && Updatable(db', id) == Updatable(db, id)
            && (id != p.id || Recorded(db.ledger, p.id, hp.Hash()) ==> Covered(db', id) == Covered(db, id))
  {
    hide Parse, Print, Consistent, Pays, Recorded, Record, Total, Price;
    PaysPositive(p, hp);
    RecordEffect(db, p.id, hp.Hash(), hp.Stroops().value);
    RecordPayments(db, p.id, hp.Hash(), hp.Stroops().value);
  }

  function Resummed(db: Tables, p: Payment, hp: HorizonPayment): Proc {
    match SumStroops(db, p.id)
    case None => Failed
    case Some(total) => Updating(p, hp.Hash(), Decide(p, total))
  }

  lemma ResummedCompletes(db: Tables, p: Payment, hp: HorizonPayment)
    requires 0 <= Total(db.ledger, p.id) <= I64_MAX && Price(p) <= Total(db.ledger, p.id)
    ensures Responsible(Resummed(db, p, hp), p.id)
  {
    hide Parse, Print, Total;
  }

  lemma ResummedConcerns(db: Tables, p: Payment, hp: HorizonPayment, id: string)
    ensures Responsible(Resummed(db, p, hp), id) ==> p.id == id
  {
    hide Total, Decide;
  }

  lemma WatchOfResumming(s: State, t: nat, now: int)
    requires Enabled(s, Advance(t, now)) && s.procs[t].Resumming?
    ensures Apply(s, Advance(t, now)).db == s.db && Apply(s, Advance(t, now)).lost == s.lost
    ensures Apply(s, Advance(t, now)).procs == s.procs[t := Resummed(s.db, s.procs[t].p, s.procs[t].hp)]
  {
    hide Decide, Total;
  }

  /** Re-reading a total that covers the price decides `completed`. */
  lemma ResummingKeepsWatch(s: State, t: nat, now: int, id: string)
    requires ProcsInv(s) && LostIsExact(s) && Enabled(s, Advance(t, now)) && s.procs[t].Resumming?
    ensures var s' := Apply(s, Advance(t, now)); Watched(s'.db, s'.procs, s'.lost, id)
  {
    hide Parse, Print, Consistent, Pays, Verify, Total, Recorded, Effect, Continue, Apply, Responsible, Resummed, Price,
      OtherResponsible, SomeoneResponsible, Covered, Watched;
    var p, hp := s.procs[t].p, s.procs[t].hp;
    var s' := Apply(s, Advance(t, now));
    assert ProcOk(s.db, s.procs[t]);
    assert Watched(s.db, s.procs, s.lost, id);
    WatchOfResumming(s, t, now);
    OthersUnmoved(s.procs, t, Resummed(s.db, p, hp), id);
    ResponsibleSplit(s.procs, t, id);
    ResummingIsResponsible(p, hp, id);
    ResummedConcerns(s.db, p, hp, id);
    if id == p.id && Covered(s.db, id) {
      CoveredTotal(s.db, p);
      ResummedCompletes(s.db, p, hp);
      StaysWatched(s.db, s.procs, s.lost, s'.db, s'.procs, s'.lost, id);
    } else if id == p.id {
      NotCoveredIsWatched(s.db, s.procs, s'.procs, s.lost, id);
    } else {
      StaysWatched(s.db, s.procs, s.lost, s'.db, s'.procs, s'.lost, id);
    }
  }

  lemma CoveredTotal(db: Tables, p: Payment)
    requires Consistent(db) && Known(db, p) && Covered(db, p.id)
    ensures 0 <= Total(db.ledger, p.id) <= I64_MAX && Price(p) <= Total(db.ledger, p.id)
  {
    hide Parse, Consistent, Total;
    PriceIsPositive(db, p);
  }

  lemma NotCoveredIsWatched(db: Tables, procs: map<nat, Proc>, procs': map<nat, Proc>, lost: set<string>, id: string)
    requires Watched(db, procs, lost, id) && !Covered(db, id)
    ensures Watched(db, procs', lost, id)
  {
    hide Covered, Updatable, SomeoneResponsible;
  }

  lemma ResummingIsResponsible(p: Payment, hp: HorizonPayment, id: string)
    ensures Responsible(Resumming(p, hp), id) <==> p.id == id
  {
  }

  /** An accepted `completed` closes the intent, and an `underpaid` write leaves the responsible one in place. */
  lemma UpdatingKeepsWatch(s: State, t: nat, now: int, id: string)
    requires ProcsInv(s) && LostIsExact(s) && Enabled(s, Advance(t, now)) && s.procs[t].Updating?
    ensures var s' := Apply(s, Advance(t, now)); Watched(s'.db, s'.procs, s'.lost, id)
  {
    hide Parse, Print, Consistent, Pays, Total, Recorded, ProcOk, SettledPayload, Responsible, OtherResponsible, SomeoneResponsible,
      Covered, Watched, UpdateStatus, Updatable;
    var u := s.procs[t];
    var s' := Apply(s, Advance(t, now));
    assert Watched(s.db, s.procs, s.lost, id);
    OthersUnmoved(s.procs, t, s'.procs[t], id);
    ResponsibleSplit(s.procs, t, id);
    DoneIsNotResponsible(id);
    AtUpdating(s, t);
    UpdateCovers(s.db, u.p, u.hash, u.decision, id);
    UpdatingConcerns(u.p, u.hash, u.decision, id);
    if Updatable(s'.db, id) {
      StaysWatched(s.db, s.procs, s.lost, s'.db, s'.procs, s'.lost, id);
    } else {
      ClosedIsWatched(s'.db, s'.procs, s'.lost, id);
    }
  }

  lemma AtUpdating(s: State, t: nat)
    requires ProcsInv(s) && t in s.procs && s.procs[t].Updating?
    ensures Consistent(s.db) && ProcOk(s.db, s.procs[t])
  {
    hide Consistent, ProcOk;
  }

  lemma ClosedIsWatched(db: Tables, procs: map<nat, Proc>, lost: set<string>, id: string)
    requires !Updatable(db, id)
    ensures Watched(db, procs, lost, id)
  {
  }

  /** A row that is still open after the update was open before, with the same coverage; and only `completed` closes. */
  lemma UpdateCovers(db: Tables, p: Payment, hash: string, d: Decision, id: string)
    requires Consistent(db) && ProcOk(db, Updating(p, hash, d))
    ensures var db' := UpdateStatus(db, p.id, d.status, hash, d.paid);
            && (Updatable(db', id) ==> Updatable(db, id) && Covered(db', id) == Covered(db, id))
            && (id == p.id && d.status == Completed ==> !Updatable(db', id))
  {
    hide Parse, Print, Consistent, Recorded, Total;
    PriceIsPositive(db, p);
  }

  lemma UpdatingConcerns(p: Payment, hash: string, d: Decision, id: string)
    ensures Responsible(Updating(p, hash, d), id) <==> p.id == id && d.status == Completed
  {
  }

  lemma AdvanceKeepsWatch(s: State, t: nat, now: int)
    requires ProcsInv(s) && LostIsExact(s) && Enabled(s, Advance(t, now))
    ensures LostIsExact(Apply(s, Advance(t, now)))
  {
    var s' := Apply(s, Advance(t, now));
    AdvanceRows(s, t);
    hide Parse, Print, Consistent, Total, Recorded, ProcsInv, LostIsExact, SettledPayload, FindPending, Verify, SumStroops, Watched,
      Responsible, OtherResponsible, SomeoneResponsible, Covered, Updatable, Record, UpdateStatus;
    forall id ensures Watched(s'.db, s'.procs, s'.lost, id) {
      if s.procs[t].Recording? {
        RecordingKeepsWatch(s, t, now, id);
      } else if s.procs[t].Resumming? {
        ResummingKeepsWatch(s, t, now, id);
      } else if s.procs[t].Updating? {
        UpdatingKeepsWatch(s, t, now, id);
      } else {
        WatchOf(s, id);
        OthersUnmoved(s.procs, t, s'.procs[t], id);
        ResponsibleSplit(s.procs, t, id);
        EarlyIsNotResponsible(s.db, now, s.procs[t], id);
        StaysWatched(s.db, s.procs, s.lost, s'.db, s'.procs, s'.lost, id);
      }
    }
    WatchIs(s');
  }

  lemma AdvanceRows(s: State, t: nat)
    requires ProcsInv(s) && LostIsExact(s) && t in s.procs
    ensures s.lost - Credited(s.db, s.procs[t]) <= Effect(s.db, s.procs[t]).payments.Keys
  {
    hide Consistent, ProcOk, Watched, Recorded, Effect;
    EffectRows(s.db, s.procs[t]);
  }

  lemma EarlyIsNotResponsible(db: Tables, now: int, proc: Proc, id: string)
    requires proc.Looking? || proc.Summing?
    ensures !Responsible(proc, id) && !Responsible(Continue(db, now, proc), id)
    ensures Effect(db, proc) == db && Credited(db, proc) == {}
  {
    hide Verify, FindPending, SumStroops;
  }

  lemma WatchOf(s: State, id: string)
    requires LostIsExact(s)
    ensures Watched(s.db, s.procs, s.lost, id)
  {
    hide Watched;
  }

  lemma WatchIs(s: State)
    requires s.lost <= s.db.payments.Keys && forall id :: Watched(s.db, s.procs, s.lost, id)
    ensures LostIsExact(s)
  {
    hide Watched;
  }

  lemma WatchKept(s: State, a: Action)
    requires ProcsInv(s) && RowsInv(s) && LostIsExact(s) && Enabled(s, a)
    ensures LostIsExact(Apply(s, a))
  {
    match a
    case Advance(t, now) => AdvanceKeepsWatch(s, t, now);
    case Create(p) => CreateKeepsWatch(s, p);
    case Deliver(t, hp) => DeliverKeepsWatch(s, t, hp);
    case Sweep(now, batch, order) => SweepKeepsWatch(s, now, batch, order);
    case Fail(t) => FailKeepsWatch(s, t);
    case Restart(ledger) =>
      BackfillIsNoop(s, ledger);
      RestartKeepsWatch(s, ledger);
  }

  lemma DeliverKeepsWatch(s: State, t: nat, hp: HorizonPayment)
    requires LostIsExact(s) && Enabled(s, Deliver(t, hp))
    ensures LostIsExact(Apply(s, Deliver(t, hp)))
  {
    hide Parse, Total, Responsible, LostIsExact, Watched, Covered, SomeoneResponsible, OtherResponsible, Updatable;
    var s' := Apply(s, Deliver(t, hp));
    forall id ensures Watched(s'.db, s'.procs, s'.lost, id) {
      WatchOf(s, id);
      NewcomerIsNotResponsible(s.procs, t, hp, id);
      StaysWatched(s.db, s.procs, s.lost, s'.db, s'.procs, s'.lost, id);
    }
    LostExist(s);
    WatchIs(s');
  }

  lemma LostExist(s: State)
    requires LostIsExact(s)
    ensures s.lost <= s.db.payments.Keys
  {
    hide Watched;
  }

  lemma NewcomerIsNotResponsible(procs: map<nat, Proc>, t: nat, hp: HorizonPayment, id: string)
    requires t !in procs
    ensures SomeoneResponsible(procs[t := Looking(hp)], id) <==> SomeoneResponsible(procs, id)
  {
    OthersUnmoved(procs, t, Looking(hp), id);
  }

  lemma CreateKeepsWatch(s: State, p: Payment)
    requires ProcsInv(s) && LostIsExact(s) && Enabled(s, Create(p))
    ensures LostIsExact(Apply(s, Create(p)))
  {
    TotalIsNonNegative(s.db.ledger, p.id);
    hide Parse, Total, LostIsExact, Consistent, ProcOk, Responsible, Watched, SomeoneResponsible;
    var s' := Apply(s, Create(p));
    LostExist(s);
    NewPriceIsPositive(p);
    forall id ensures Watched(s'.db, s'.procs, s'.lost, id) {
      WatchOf(s, id);
      if id == p.id {
        NewIsWatched(s', id);
      } else {
        StaysWatched(s.db, s.procs, s.lost, s'.db, s'.procs, s'.lost, id);
      }
    }
    WatchIs(s');
  }

  lemma NewIsWatched(s: State, id: string)
    requires !Covered(s.db, id) && id !in s.lost
    ensures Watched(s.db, s.procs, s.lost, id)
  {
    hide Covered;
  }

  lemma NewPriceIsPositive(p: Payment)
    requires Parse(p.amount).Some?
    ensures Price(p) > 0
  {
  }

  lemma SweepKeepsWatch(s: State, now: int, batch: nat, order: seq<string>)
    requires LostIsExact(s) && Enabled(s, Sweep(now, batch, order))
    ensures LostIsExact(Apply(s, Sweep(now, batch, order)))
  {
    hide Parse, Total, OldestOverdue, Responsible, ExpiredPayloads, SomeoneResponsible, Watched;
    var s' := Apply(s, Sweep(now, batch, order));
    forall id ensures Watched(s'.db, s'.procs, s'.lost, id) {
      if Updatable(s'.db, id) {
        StaysWatched(s.db, s.procs, s.lost, s'.db, s'.procs, s'.lost, id);
      } else {
        ClosedIsWatched(s'.db, s'.procs, s'.lost, id);
      }
    }
  }

  /** The death of the last responsible reconciler loses a covered intent; that of any other loses nothing. */
  lemma FailKeepsWatch(s: State, t: nat)
    requires LostIsExact(s) && Enabled(s, Fail(t))
    ensures LostIsExact(Apply(s, Fail(t)))
  {
    hide Parse, Total, LostIsExact, Responsible, Covered, SomeoneResponsible, OtherResponsible;
    var s' := Apply(s, Fail(t));
    LostExist(s);
    forall id ensures Watched(s'.db, s'.procs, s'.lost, id) {
      WatchOf(s, id);
      OthersUnmoved(s.procs, t, Failed, id);
      ResponsibleSplit(s.procs, t, id);
      DoneIsNotResponsible(id);
    }
    WatchIs(s');
  }

  lemma RestartKeepsWatch(s: State, ledger: seq<Credit>)
    requires LostIsExact(s) && Enabled(s, Restart(ledger)) && ledger == s.db.ledger
    ensures LostIsExact(Apply(s, Restart(ledger)))
  {
    hide Parse, Total, LostIsExact, Responsible, Covered, Backfilled;
    var s' := Apply(s, Restart(ledger));
    assert s'.db == s.db;
    LostExist(s);
    forall id ensures Watched(s'.db, s'.procs, s'.lost, id) {
      WatchOf(s, id);
    }
    WatchIs(s');
  }

  // ----- every state of every run -----

  lemma InvKept(s: State, a: Action)
    requires Inv(s) && Enabled(s, a)
    ensures Inv(Apply(s, a))
  {
    hide ProcsInv, RowsInv, LogInv, LostIsExact, Apply;
    ProcsKept(s, a);
    RowsKept(s, a);
    LogKept(s, a);
    WatchKept(s, a);
  }

  lemma {:induction false} InvHolds(run: seq<State>, i: nat)
    requires IsRun(run) && i < |run|
    ensures Inv(run[i])
  {
    if i > 0 {
      InvHolds(run, i - 1);
      hide Inv, Enabled, Apply;
      assert Next(run[i - 1], run[i - 1 + 1]);
      var a :| Enabled(run[i - 1], a) && run[i] == Apply(run[i - 1], a);
      InvKept(run[i - 1], a);
    }
  }
}
