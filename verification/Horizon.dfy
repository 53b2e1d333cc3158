/** Matching an on-chain payment to an intent, and the six database steps that reconcile it. */
module Horizon {
  import opened Common
  import opened Money
  import opened Db

  datatype TransactionRef = TransactionRef(memo: Option<string>, memoType: Option<string>, successful: Option<bool>)

  datatype HorizonPayment = HorizonPayment(
    kind: string, amount: Option<string>, assetType: Option<string>, assetCode: Option<string>, assetIssuer: Option<string>,
    to: Option<string>, transactionHash: Option<string>, transaction: Option<TransactionRef>)
  {
    /** Only a text memo can be one of ours. */
    function Memo(): Option<string> {
      if transaction.Some? && transaction.value.memoType == Some("text") then transaction.value.memo else None
    }

    /** A missing flag is not known to be successful. */
    predicate IsSuccessful() { transaction.Some? && transaction.value.successful == Some(true) }

    function Hash(): string { if transactionHash.Some? then transactionHash.value else "" }

    function Stroops(): Option<int> { if amount.Some? then Parse(amount.value) else None }
  }

  datatype Verdict =
    | ExactPayment(hash: string, paid: string)
    | Overpayment(hash: string, paid: string)
    | Underpayment(hash: string, paid: string)

  function ToUpper(c: char): char { if 'a' <= c <= 'z' then (c as int - 32) as char else c }

  predicate IsXlm(asset: string) {
    |asset| == 3 && ToUpper(asset[0]) == 'X' && ToUpper(asset[1]) == 'L' && ToUpper(asset[2]) == 'M'
  }

  /** The asset matches the issuer that the intent was priced in; an empty issuer is no issuer. */
  predicate AssetMatches(p: Payment, hp: HorizonPayment) {
    if p.assetIssuer.None? || p.assetIssuer.value == "" then IsXlm(p.asset) && hp.assetType == Some("native")
    else hp.assetCode == Some(p.asset) && hp.assetIssuer == p.assetIssuer
  }

  /** Release-build addition of two 64-bit integers. */
  function Wrap64(n: int): int { (n - I64_MIN) % (U64_MAX + 1) + I64_MIN }

  function Judge(hash: string, total: int, expected: int): Verdict {
    if total == expected then ExactPayment(hash, Print(total))
    else if total > expected then Overpayment(hash, Print(total))
    else Underpayment(hash, Print(total))
  }

  function Verify(p: Payment, hp: HorizonPayment, alreadyPaid: int): Option<Verdict> {
    if hp.kind != "payment" then None
    else if hp.to != Some(p.destinationAddress) then None
    else if hp.Memo() != Some(p.memo) then None
    else if !hp.IsSuccessful() then None
    else if !AssetMatches(p, hp) then None
    else
      match (hp.Stroops(), Parse(p.amount))
      case (Some(newPaid), Some(expected)) =>
        Some(Judge(hp.Hash(), Wrap64(alreadyPaid + newPaid), expected))
      case _ => None
  }

  /** The part of `Verify` that decides whether the payment is this intent's at all. */
  predicate Pays(p: Payment, hp: HorizonPayment) {
    && hp.kind == "payment" && hp.to == Some(p.destinationAddress) && hp.Memo() == Some(p.memo) && hp.IsSuccessful()
    && AssetMatches(p, hp) && hp.Stroops().Some? && Parse(p.amount).Some?
  }

  /** On the fields: `verify` answers exactly for a successful payment to the intent's destination under its text memo,
      in the asset that the intent was priced in, from the issuer that it names, with readable amounts. */
  lemma VerifyIff(p: Payment, hp: HorizonPayment, alreadyPaid: int)
    ensures Verify(p, hp, alreadyPaid).Some? <==>
              && hp.kind == "payment" && hp.to == Some(p.destinationAddress)
              && hp.transaction.Some? && hp.transaction.value.memoType == Some("text") && hp.transaction.value.memo == Some(p.memo)
              && hp.transaction.value.successful == Some(true)
              && (if p.assetIssuer.Some? && p.assetIssuer.value != ""
                  then hp.assetCode == Some(p.asset) && hp.assetIssuer == p.assetIssuer
                  else hp.assetType == Some("native") && |p.asset| == 3 && (p.asset[0] == 'X' || p.asset[0] == 'x')
                       && (p.asset[1] == 'L' || p.asset[1] == 'l') && (p.asset[2] == 'M' || p.asset[2] == 'm'))
              && hp.amount.Some? && Parse(hp.amount.value).Some? && Parse(p.amount).Some?
  {
    hide Parse, Judge;
    XlmIff(p.asset);
  }

  lemma XlmIff(asset: string)
    ensures IsXlm(asset) <==>
              && |asset| == 3 && (asset[0] == 'X' || asset[0] == 'x') && (asset[1] == 'L' || asset[1] == 'l')
              && (asset[2] == 'M' || asset[2] == 'm')
  {
  }

  lemma VerifyIffPays(p: Payment, hp: HorizonPayment, alreadyPaid: int)
    ensures Verify(p, hp, alreadyPaid).Some? <==> Pays(p, hp)
  {
  }

  lemma PaysMemo(p: Payment, hp: HorizonPayment)
    requires Pays(p, hp)
    ensures hp.Memo() == Some(p.memo) && Parse(p.amount).Some?
  {
  }


  /** The stroops that a payment carries. */
  function Carried(hp: HorizonPayment): int { match hp.Stroops() case Some(n) => n case None => 0 }

  // ----- what a total means for an intent -----

  datatype EventKind = CompletedEvent | OverpaidEvent | UnderpaidEvent | ExpiredEvent

  datatype Decision = Decision(status: Status, event: EventKind, paid: string, delta: Option<string>)

  function Price(p: Payment): int { match Parse(p.amount) case Some(n) => n case None => 0 }

  function Decide(p: Payment, total: int): Decision {
    var expected := Price(p);
    if total == expected then Decision(Completed, CompletedEvent, Print(total), None)
    else if total > expected then Decision(Completed, OverpaidEvent, Print(total), Some(Print(total - expected)))
    else Decision(Underpaid, UnderpaidEvent, Print(total), Some(Print(expected - total)))
  }

  // ----- the notification -----

  datatype Payload = Payload(
    event: EventKind, paymentId: string, merchantId: string, txHash: Option<string>, amount: string,
    paidAmount: Option<string>, delta: Option<string>, asset: string, assetIssuer: Option<string>, status: Status)

  function CanonicalOpt(s: Option<string>): Option<string> { if s.Some? then Canonical(s.value) else None }

  function BuildPayload(p: Payment, event: EventKind, delta: Option<string>): Payload {
    Payload(event, p.id, p.merchantId, p.txHash,
            (match Canonical(p.amount) case Some(c) => c case None => p.amount),
            CanonicalOpt(p.paidAmount), CanonicalOpt(delta), p.asset, p.assetIssuer, p.status)
  }

  /** The payload that `settle` dispatches once its update has been accepted. */
  function SettledPayload(p: Payment, hash: string, d: Decision): Payload {
    BuildPayload(p.(status := d.status, txHash := Some(hash), paidAmount := Some(d.paid)), d.event, d.delta)
  }

  /** The amounts in a settlement notification, read back, add up. */
  ghost predicate AmountsAddUp(n: Payload) {
    && Parse(n.amount).Some? && n.paidAmount.Some? && Parse(n.paidAmount.value).Some?
    && var amount, paid := Parse(n.amount).value, Parse(n.paidAmount.value).value;
      match n.event
      case CompletedEvent => paid == amount && n.delta == None
      case OverpaidEvent => n.delta.Some? && Parse(n.delta.value).Some? && paid == amount + Parse(n.delta.value).value
      case UnderpaidEvent => n.delta.Some? && Parse(n.delta.value).Some? && paid + Parse(n.delta.value).value == amount
      case ExpiredEvent => false
  }

  /** No delta is lost, and none appears, on the way through strings. */
  lemma SettledPayloadAddsUp(p: Payment, hash: string, total: int)
    requires Parse(p.amount).Some? && 0 < total <= I64_MAX
    ensures AmountsAddUp(SettledPayload(p, hash, Decide(p, total)))
    ensures Parse(SettledPayload(p, hash, Decide(p, total)).paidAmount.value) == Some(total)
    ensures Parse(SettledPayload(p, hash, Decide(p, total)).amount) == Some(Price(p))
  {
    hide Parse, Print;
    CanonicalPrint(Price(p));
    CanonicalPrint(total);
    if total > Price(p) { CanonicalPrint(total - Price(p)); }
    if total < Price(p) { CanonicalPrint(Price(p) - total); }
  }

  /** A readable price is announced in canonical form, an unreadable legacy one as it is stored. */
  lemma AnnouncedAmount(p: Payment, event: EventKind, delta: Option<string>)
    ensures Parse(p.amount).Some? ==>
              var a := BuildPayload(p, event, delta).amount; Parse(a) == Parse(p.amount) && Canonical(a) == Some(a)
    ensures Parse(p.amount).None? ==> BuildPayload(p, event, delta).amount == p.amount
  {
    hide Parse, Print;
    if Parse(p.amount).Some? { CanonicalIsFixpoint(p.amount); }
  }

  /** Who and what a settlement notification is about. */
  lemma SettledPayloadNames(p: Payment, hash: string, total: int)
    requires Parse(p.amount).Some?
    ensures var n := SettledPayload(p, hash, Decide(p, total));
            && n.paymentId == p.id && n.merchantId == p.merchantId && n.txHash == Some(hash)
            && n.asset == p.asset && n.assetIssuer == p.assetIssuer
            && n.status == (if total >= Parse(p.amount).value then Completed else Underpaid)
            && n.event == (if total == Parse(p.amount).value then CompletedEvent
                           else if total > Parse(p.amount).value then OverpaidEvent else UnderpaidEvent)
  {
    hide Parse, Print, Canonical;
  }

  lemma CanonicalPrint(n: int)
    requires 0 < n <= I64_MAX
    ensures Parse(Print(n)) == Some(n)
    ensures Canonical(Print(n)) == Some(Print(n))
  {
    hide Parse, Print;
    ParsePrint(n);
  }

  // ----- one reconciler, step by step -----

  /** Where a call of `reconcile_payment` stands: which statement it issues next, and with what. */
  datatype Proc =
    | Looking(hp: HorizonPayment)
    | Summing(p: Payment, hp: HorizonPayment)
    | Recording(p: Payment, hp: HorizonPayment)
    | Resumming(p: Payment, hp: HorizonPayment)
    | Updating(p: Payment, hash: string, decision: Decision)
    | Done(settled: bool)
    | Failed

  predicate Finished(proc: Proc) { proc.Done? || proc.Failed? }

  function Rank(proc: Proc): nat {
    match proc
    case Looking(_) => 5
    case Summing(_, _) => 4
    case Recording(_, _) => 3
    case Resumming(_, _) => 2
    case Updating(_, _, _) => 1
    case _ => 0
  }

  /** The tables after the statement that `proc` issues next. */
  function Effect(db: Tables, proc: Proc): Tables {
    match proc
    case Recording(p, hp) => Record(db, p.id, hp.Hash(), match hp.Stroops() case Some(n) => n case None => 0)
    case Updating(p, hash, d) => UpdateStatus(db, p.id, d.status, hash, d.paid)
    case _ => db
  }

  /** Where `proc` goes, given the statement's answer and the computation up to the next statement. */
  ghost function Continue(db: Tables, now: int, proc: Proc): Proc {
    match proc
    case Looking(hp) =>
      if hp.Memo().None? then Done(false)
      else
        (match FindPending(db, hp.Memo().value, now)
         case None => Done(false)
         case Some(p) => Summing(p, hp))
    case Summing(p, hp) =>
      (match SumStroops(db, p.id)
       case None => Failed
       case Some(alreadyPaid) => if Verify(p, hp, alreadyPaid).None? then Done(false) else Recording(p, hp))
    case Recording(p, hp) => if Recorded(db.ledger, p.id, hp.Hash()) then Done(false) else Resumming(p, hp)
    case Resumming(p, hp) =>
      (match SumStroops(db, p.id)
       case None => Failed
       case Some(total) => Updating(p, hp.Hash(), Decide(p, total)))
    case Updating(p, hash, d) => Done(Updatable(db, p.id))
    case _ => proc
  }

  /** The notification that the step commits to, if its update is accepted. */
  function Committed(db: Tables, proc: Proc): seq<Payload> {
    match proc
    case Updating(p, hash, d) => if Updatable(db, p.id) then [SettledPayload(p, hash, d)] else []
    case _ => []
  }

  // ----- one reconciler on its own -----

  datatype Outcome = Outcome(db: Tables, proc: Proc, sent: seq<Payload>)

  ghost function RunAlone(db: Tables, now: int, proc: Proc): Outcome
    decreases Rank(proc)
  {
    if Finished(proc) then Outcome(db, proc, [])
    else
      var rest := RunAlone(Effect(db, proc), now, Continue(db, now, proc));
      rest.(sent := Committed(db, proc) + rest.sent)
  }

  lemma RunStep(db: Tables, now: int, proc: Proc)
    requires !Finished(proc) && Committed(db, proc) == []
    ensures RunAlone(db, now, proc) == RunAlone(Effect(db, proc), now, Continue(db, now, proc))
  {
    var rest := RunAlone(Effect(db, proc), now, Continue(db, now, proc));
    assert [] + rest.sent == rest.sent;
  }

  /** `reconcile_payment`, when no other task runs: `None` is a database error. */
  method ReconcilePayment(db: Database, now: int, hp: HorizonPayment) returns (settled: Option<bool>, sent: seq<Payload>)
    requires Consistent(db.View())
    modifies db
    ensures var run := RunAlone(old(db.View()), now, Looking(hp));
            && db.View() == run.db && sent == run.sent
            && run.proc == (match settled case Some(b) => Done(b) case None => Failed)
  {
    hide Parse, Print, Consistent, Verify, SettledPayload, Decide, Record, UpdateStatus, Recorded, SumStroops, FindPending, RunAlone;
    sent := [];
    ghost var proc: Proc := Looking(hp);
    RunStep(db.View(), now, proc);
    ghost var run := RunAlone(db.View(), now, proc);
    var memo := hp.Memo();
    if memo.None? { RunDone(db.View(), now, false); return Some(false), sent; }
    var found := db.FindPendingByMemo(memo.value, now);
    if found.None? { RunDone(db.View(), now, false); return Some(false), sent; }
    var payment := found.value;
    RunStep(db.View(), now, Summing(payment, hp));
    var alreadyPaid := db.SumProcessedStroops(payment.id);
    if alreadyPaid.None? { RunFailed(db.View(), now); return None, sent; }
    if Verify(payment, hp, alreadyPaid.value).None? { RunDone(db.View(), now, false); return Some(false), sent; }
    RunStep(db.View(), now, Recording(payment, hp));
    var newStroops := match hp.Stroops() case Some(n) => n case None => 0;
    var first := db.RecordProcessedTx(payment.id, hp.Hash(), newStroops);
    if !first {
      RunDone(db.View(), now, false);
      return Some(false), sent;
    }
    RunStep(db.View(), now, Resumming(payment, hp));
    var total := db.SumProcessedStroops(payment.id);
    if total.None? { RunFailed(db.View(), now); return None, sent; }
    var d := Decide(payment, total.value);
    RunUpdate(db.View(), now, payment, hp.Hash(), d);
    var updated := db.UpdatePaymentStatus(payment.id, d.status, hp.Hash(), d.paid);
    if updated { sent := [SettledPayload(payment, hp.Hash(), d)]; }
    return Some(updated), sent;
  }

  lemma RunDone(db: Tables, now: int, settled: bool)
    ensures RunAlone(db, now, Done(settled)) == Outcome(db, Done(settled), [])
  {
  }

  lemma RunFailed(db: Tables, now: int)
    ensures RunAlone(db, now, Failed) == Outcome(db, Failed, [])
  {
  }

  lemma RunUpdate(db: Tables, now: int, p: Payment, hash: string, d: Decision)
    ensures RunAlone(db, now, Updating(p, hash, d))
         == Outcome(UpdateStatus(db, p.id, d.status, hash, d.paid), Done(Updatable(db, p.id)),
                    if Updatable(db, p.id) then [SettledPayload(p, hash, d)] else [])
  {
    hide SettledPayload, UpdateStatus;
    RunDone(UpdateStatus(db, p.id, d.status, hash, d.paid), now, Updatable(db, p.id));
  }
}
