/** The tables that settlement shares. Each SQL statement is one atomic operation. */
module Db {
  import opened Common
  import opened Money

  datatype Status = Pending | Underpaid | Completed | Expired

  datatype Payment = Payment(
    id: string, merchantId: string, destinationAddress: string, memo: string, amount: string,
    asset: string, assetIssuer: Option<string>, status: Status, txHash: Option<string>, paidAmount: Option<string>,
    createdAt: int, expiresAt: int)

  /** A row of `processed_transactions`. */
  datatype Credit = Credit(paymentId: string, txHash: string, stroops: int)

  datatype Tables = Tables(payments: map<string, Payment>, ledger: seq<Credit>)

  /** `status IN ('pending', 'underpaid')` */
  predicate Watchable(p: Payment) { p.status == Pending || p.status == Underpaid }

  /** What no statement ever changes in a payment row. */
  function Intent(p: Payment): Payment { p.(status := Pending, txHash := None, paidAmount := None) }

  // ----- what each statement computes -----

  predicate Matches(p: Payment, memo: string, now: int) {
    p.memo == memo && Watchable(p) && p.expiresAt > now
  }

  ghost function FindPending(db: Tables, memo: string, now: int): (r: Option<Payment>)
    ensures r.Some? ==> exists id :: id in db.payments && r.value == db.payments[id] && Matches(r.value, memo, now)
    ensures r.None? ==> forall id :: id in db.payments ==> !Matches(db.payments[id], memo, now)
  {
    if id :| id in db.payments && Matches(db.payments[id], memo, now) then Some(db.payments[id]) else None
  }

  /** `SUM(amount_stroops)` over an intent's rows. */
  function Total(ledger: seq<Credit>, id: string): int {
    if ledger == [] then 0
    else
      var c := ledger[|ledger| - 1];
      Total(ledger[..|ledger| - 1], id) + (if c.paymentId == id then c.stroops else 0)
  }

  /** The sum as the database returns it: an integer overflow is an error. */
  function SumStroops(db: Tables, id: string): Option<int> {
    var total := Total(db.ledger, id);
    if I64_MIN <= total <= I64_MAX then Some(total) else None
  }

  predicate Recorded(ledger: seq<Credit>, id: string, hash: string) {
    exists i :: 0 <= i < |ledger| && ledger[i].paymentId == id && ledger[i].txHash == hash
  }

  /** `INSERT ... ON CONFLICT DO NOTHING` */
  function Record(db: Tables, id: string, hash: string, stroops: int): Tables {
    if Recorded(db.ledger, id, hash) then db else db.(ledger := db.ledger + [Credit(id, hash, stroops)])
  }

  predicate Updatable(db: Tables, id: string) { id in db.payments && Watchable(db.payments[id]) }

  /** The guarded `UPDATE`: rows that are not watchable are left alone. */
  function UpdateStatus(db: Tables, id: string, status: Status, hash: string, paid: string): Tables {
    if Updatable(db, id)
    then db.(payments := db.payments[id := db.payments[id].(status := status, txHash := Some(hash), paidAmount := Some(paid))])
    else db
  }

  /** What `create_payment` inserts: a fresh id and memo, nothing paid, a readable price. */
  predicate IsNewIntent(db: Tables, p: Payment) {
    && p.id !in db.payments && (forall id :: id in db.payments ==> db.payments[id].memo != p.memo)
    && p == Intent(p) && Parse(p.amount).Some?
  }

  ghost predicate NoRepeats(order: seq<string>) {
    forall i, j :: 0 <= i < j < |order| ==> order[i] != order[j]
  }

  function Elements(order: seq<string>): set<string> { set id | id in order }

  predicate Overdue(p: Payment, now: int) { Watchable(p) && p.expiresAt <= now }

  function OverdueIds(db: Tables, now: int): set<string> {
    set id | id in db.payments && Overdue(db.payments[id], now)
  }

  /** `ids` are the oldest overdue rows, at most `batch` of them. */
  ghost predicate OldestOverdue(db: Tables, now: int, batch: nat, ids: set<string>) {
    && ids <= OverdueIds(db, now)
    && |ids| == Min(batch, |OverdueIds(db, now)|)
    && forall i, o :: i in ids && o in OverdueIds(db, now) - ids ==> db.payments[i].createdAt <= db.payments[o].createdAt
  }

  function Expire(db: Tables, ids: set<string>): Tables {
    db.(payments := map id | id in db.payments :: if id in ids then db.payments[id].(status := Expired) else db.payments[id])
  }

  /** The row `migrate` would insert for a payment that stores a transaction and an amount. */
  function LegacyCredit(p: Payment): Option<Credit> {
    if p.txHash.Some? && p.txHash.value != "" && p.paidAmount.Some? then
      match Parse(p.paidAmount.value)
      case Some(n) => Some(Credit(p.id, p.txHash.value, n))
      case None => None
    else None
  }

  ghost predicate Inserted(db: Tables, c: Credit) {
    exists id :: id in db.payments && LegacyCredit(db.payments[id]) == Some(c) && !Recorded(db.ledger, c.paymentId, c.txHash)
  }

  /** `after` is a result of `migrate`'s backfill loop on `db`, whatever order it reads the rows in. */
  ghost predicate Backfilled(db: Tables, after: seq<Credit>) {
    && |db.ledger| <= |after| && after[..|db.ledger|] == db.ledger
    && (forall i :: |db.ledger| <= i < |after| ==> Inserted(db, after[i]))
    && (forall id :: id in db.payments && LegacyCredit(db.payments[id]).Some? ==>
          Recorded(after, LegacyCredit(db.payments[id]).value.paymentId, LegacyCredit(db.payments[id]).value.txHash))
    && (NoDoubleCredit(db.ledger) ==> NoDoubleCredit(after))
  }

  /** The stroops that the backfill adds to an intent's total. */
  function BackfillAmount(db: Tables, id: string): int {
    if id !in db.payments then 0
    else
      match LegacyCredit(db.payments[id])
      case Some(c) => if Recorded(db.ledger, c.paymentId, c.txHash) then 0 else c.stroops
      case None => 0
  }

  // ----- consistency -----

  /** Keys and memos are unique, amounts are canonical positive amounts, and no transaction is credited twice. */
  ghost predicate Consistent(db: Tables) {
    && (forall id :: id in db.payments ==> db.payments[id].id == id && Parse(db.payments[id].amount).Some?)
    && (forall i, j :: i in db.payments && j in db.payments && db.payments[i].memo == db.payments[j].memo ==> i == j)
    && NoDoubleCredit(db.ledger)
    && (forall c :: c in db.ledger ==> 0 < c.stroops <= I64_MAX)
  }

  ghost predicate NoDoubleCredit(ledger: seq<Credit>) {
    forall i, j :: 0 <= i < j < |ledger| ==> ledger[i].paymentId != ledger[j].paymentId || ledger[i].txHash != ledger[j].txHash
  }

  lemma TotalSnoc(ledger: seq<Credit>, c: Credit, id: string)
    ensures Total(ledger + [c], id) == Total(ledger, id) + (if c.paymentId == id then c.stroops else 0)
  {
    assert (ledger + [c])[..|ledger|] == ledger;
  }

  lemma {:induction false} TotalIsNonNegative(ledger: seq<Credit>, id: string)
    requires forall c :: c in ledger ==> c.stroops > 0
    ensures Total(ledger, id) >= 0
    ensures Total(ledger, id) == 0 <==> forall c :: c in ledger ==> c.paymentId != id
  {
    if ledger != [] {
      TotalIsNonNegative(ledger[..|ledger| - 1], id);
      assert ledger == ledger[..|ledger| - 1] + [ledger[|ledger| - 1]];
    }
  }

  /** Recording keeps the tables consistent, adds the amount once, and touches no other total. */
  lemma RecordEffect(db: Tables, id: string, hash: string, stroops: int)
    requires Consistent(db) && 0 < stroops <= I64_MAX
    ensures Consistent(Record(db, id, hash, stroops))
    ensures Recorded(Record(db, id, hash, stroops).ledger, id, hash)
    ensures forall other :: Total(Record(db, id, hash, stroops).ledger, other)
              == Total(db.ledger, other) + (if other == id && !Recorded(db.ledger, id, hash) then stroops else 0)
    ensures forall i, h :: Recorded(db.ledger, i, h) ==> Recorded(Record(db, id, hash, stroops).ledger, i, h)
  {
    if !Recorded(db.ledger, id, hash) {
      var c := Credit(id, hash, stroops);
      var after := db.ledger + [c];
      assert after[|db.ledger|] == c;
      forall other ensures Total(after, other) == Total(db.ledger, other) + (if other == id then stroops else 0) {
        TotalSnoc(db.ledger, c, other);
      }
      forall i, h | Recorded(db.ledger, i, h) ensures Recorded(after, i, h) {
        var k :| 0 <= k < |db.ledger| && db.ledger[k].paymentId == i && db.ledger[k].txHash == h;
        assert after[k] == db.ledger[k];
      }
    }
  }

  /** A unique memo makes the lookup's answer unique. */
  /** On the fields: the look-up finds a row with this memo that is open and not past its expiry, if there is one. */
  lemma FindPendingFinds(db: Tables, memo: string, now: int)
    ensures FindPending(db, memo, now).None? <==>
              forall id :: id in db.payments && db.payments[id].memo == memo && db.payments[id].expiresAt > now ==>
                db.payments[id].status == Completed || db.payments[id].status == Expired
    ensures FindPending(db, memo, now).Some? ==>
              var p := FindPending(db, memo, now).value;
              p in db.payments.Values && p.memo == memo && p.expiresAt > now && (p.status == Pending || p.status == Underpaid)
  {
  }

  /** On the fields: which rows the backfill has a credit for, and which. */
  lemma LegacyCreditIff(p: Payment, c: Credit)
    ensures LegacyCredit(p) == Some(c) <==>
              && p.txHash.Some? && p.txHash.value != "" && p.paidAmount.Some? && Parse(p.paidAmount.value).Some?
              && c == Credit(p.id, p.txHash.value, Parse(p.paidAmount.value).value)
  {
    hide Parse;
  }

  lemma FindPendingIs(db: Tables, memo: string, now: int, id: string)
    requires Consistent(db) && id in db.payments && Matches(db.payments[id], memo, now)
    ensures FindPending(db, memo, now) == Some(db.payments[id])
  {
  }

  // ----- the statements, as methods on the database -----

  class Database {
    var payments: map<string, Payment>
    var ledger: seq<Credit>

    function View(): Tables reads this { Tables(payments, ledger) }

    constructor ()
      ensures View() == Tables(map[], [])
    {
      payments, ledger := map[], [];
    }

    method FindPendingByMemo(memo: string, now: int) returns (r: Option<Payment>)
      requires Consistent(View())
      ensures r == FindPending(View(), memo, now)
      ensures r.Some? ==> r.value in payments.Values && r.value.memo == memo && r.value.expiresAt > now
                          && (r.value.status == Pending || r.value.status == Underpaid)
      ensures r.None? ==> forall id :: id in payments && payments[id].memo == memo && payments[id].expiresAt > now ==>
                payments[id].status == Completed || payments[id].status == Expired
    {
      if id :| id in payments && Matches(payments[id], memo, now) {
        FindPendingIs(View(), memo, now, id);
        r := Some(payments[id]);
      } else {
        r := None;
      }
    }

    /** `None` when the sum overflows. */
    method SumProcessedStroops(id: string) returns (r: Option<int>)
      ensures r == SumStroops(View(), id)
      ensures r.None? <==> !(I64_MIN <= Total(ledger, id) <= I64_MAX)
    {
      var total := 0;
      for i := 0 to |ledger|
        invariant total == Total(ledger[..i], id)
      {
        assert ledger[..i + 1] == ledger[..i] + [ledger[i]];
        TotalSnoc(ledger[..i], ledger[i], id);
        if ledger[i].paymentId == id { total := total + ledger[i].stroops; }
      }
      assert ledger[..|ledger|] == ledger;
      r := if I64_MIN <= total <= I64_MAX then Some(total) else None;
    }

    method RecordProcessedTx(id: string, hash: string, stroops: int) returns (first: bool)
      modifies this
      ensures first == !Recorded(old(ledger), id, hash)
      ensures View() == Record(old(View()), id, hash, stroops)
    {
      first := !Recorded(ledger, id, hash);
      if first { ledger := ledger + [Credit(id, hash, stroops)]; }
    }

    method UpdatePaymentStatus(id: string, status: Status, hash: string, paid: string) returns (updated: bool)
      modifies this
      ensures updated == Updatable(old(View()), id)
      ensures View() == UpdateStatus(old(View()), id, status, hash, paid)
    {
      updated := id in payments && Watchable(payments[id]);
      if updated {
        payments := payments[id := payments[id].(status := status, txHash := Some(hash), paidAmount := Some(paid))];
      }
    }

    /** `None` when the amount is not an amount, or the id or the memo is taken; the amount is stored in canonical form. */
    method CreatePayment(id: string, merchantId: string, destination: string, memo: string, amount: string, asset: string,
                         assetIssuer: Option<string>, now: int, ttlSecs: int) returns (r: Option<Payment>)
      modifies this`payments
      ensures r.None? <==> Parse(amount).None? || id in old(payments) || exists i :: i in old(payments) && old(payments)[i].memo == memo
      ensures r.None? ==> payments == old(payments)
      ensures r.Some? ==>
                && payments == old(payments)[id := r.value] && IsNewIntent(old(View()), r.value)
                && Parse(r.value.amount) == Parse(amount) && Canonical(r.value.amount) == Some(r.value.amount)
                && r.value.id == id && r.value.merchantId == merchantId && r.value.destinationAddress == destination
                && r.value.memo == memo && r.value.asset == asset && r.value.assetIssuer == assetIssuer
                && r.value.createdAt == now && r.value.expiresAt == now + ttlSecs
    {
      hide Parse, Print;
      var canonical := Canonical(amount);
      if canonical.None? { return None; }
      if id in payments || exists i :: i in payments && payments[i].memo == memo { return None; }
      CanonicalIsFixpoint(amount);
      var p := Payment(id, merchantId, destination, memo, canonical.value, asset, assetIssuer, Pending, None, None, now, now + ttlSecs);
      payments := payments[id := p];
      r := Some(p);
    }

    /** Any of the oldest rows in `ids`. */
    method Oldest(ids: set<string>) returns (oldest: string)
      requires ids != {} && ids <= payments.Keys
      ensures oldest in ids && forall o :: o in ids ==> payments[oldest].createdAt <= payments[o].createdAt
    {
      oldest :| oldest in ids;
      var rest := ids - {oldest};
      while rest != {}
        invariant rest <= ids && oldest in ids
        invariant forall o :: o in ids && o !in rest ==> payments[oldest].createdAt <= payments[o].createdAt
      {
        var id :| id in rest;
        if payments[id].createdAt < payments[oldest].createdAt { oldest := id; }
        rest := rest - {id};
      }
    }

    /** `UPDATE ... WHERE id IN (SELECT ... ORDER BY created_at LIMIT batch) RETURNING`: one statement. */
    method ExpireOverdue(now: int, batch: nat) returns (order: seq<string>)
      modifies this
      ensures NoRepeats(order) && OldestOverdue(old(View()), now, batch, Elements(order))
      ensures View() == Expire(old(View()), Elements(order))
      ensures SweptWhenDue(old(payments), payments, now, batch, order)
    {
      hide OverdueIds, Elements, NoRepeats, OldestFirst;
      OverdueExist(View(), now);
      order := OldestIds(OverdueIds(View(), now), batch);
      OldestIs(View(), now, batch, order);
      SweepIsDue(View(), now, batch, order);
      payments := map id | id in payments :: if id in Elements(order) then payments[id].(status := Expired) else payments[id];
    }

    /** `ORDER BY created_at LIMIT batch` */
    method OldestIds(ids: set<string>, batch: nat) returns (order: seq<string>)
      requires ids <= payments.Keys
      ensures NoRepeats(order) && Elements(order) <= ids && |Elements(order)| == Min(batch, |ids|)
      ensures OldestFirst(payments, Elements(order), ids - Elements(order))
    {
      hide Elements, NoRepeats;
      var rest := ids;
      order := [];
      NoElements();
      while |order| < batch && rest != {}
        invariant NoRepeats(order) && Elements(order) !! rest && Elements(order) + rest == ids && |Elements(order)| == |order| <= batch
        invariant OldestFirst(payments, Elements(order), rest)
        decreases |rest|
      {
        var id := Oldest(rest);
        ElementsSnoc(order, id);
        order, rest := order + [id], rest - {id};
      }
      assert ids - Elements(order) == rest;
      assert |ids| == |Elements(order)| + |rest|;
    }

    /** The loop in `migrate` over the rows that store a transaction and an amount. */
    method Backfill()
      modifies this
      ensures payments == old(payments)
      ensures Backfilled(old(View()), ledger)
    {
      hide Parse;
      ghost var before := View();
      var todo := payments.Keys;
      while todo != {}
        invariant payments == before.payments && todo <= payments.Keys
        invariant |before.ledger| <= |ledger| && ledger[..|before.ledger|] == before.ledger
        invariant forall i :: |before.ledger| <= i < |ledger| ==> Inserted(before, ledger[i])
        invariant forall id :: id in payments && id !in todo ==> Covers(ledger, LegacyCredit(payments[id]))
        invariant NoDoubleCredit(before.ledger) ==> NoDoubleCredit(ledger)
      {
        var id :| id in todo;
        var c := LegacyCredit(payments[id]);
        if c.Some? && !Recorded(ledger, c.value.paymentId, c.value.txHash) {
          NotRecordedBefore(before.ledger, ledger, c.value.paymentId, c.value.txHash);
          assert Inserted(before, c.value);
          CoversLater(before.payments, ledger, c.value);
          ledger := ledger + [c.value];
          assert ledger[|ledger| - 1] == c.value;
        }
        todo := todo - {id};
      }
    }
  }

  /** On the fields: which rows a sweep changes, and how. */
  ghost predicate SweptWhenDue(before: map<string, Payment>, after: map<string, Payment>, now: int, batch: nat, order: seq<string>) {
    && after.Keys == before.Keys && |order| <= batch
    && (forall id :: id in order ==>
          && id in before && (before[id].status == Pending || before[id].status == Underpaid) && before[id].expiresAt <= now
          && after[id] == before[id].(status := Expired))
    && (forall id :: id in before && id !in order ==> after[id] == before[id])
    && (forall i, o :: i in order && i in before && o in before && o !in order && before[o].expiresAt <= now ==>
          before[o].status == Completed || before[o].status == Expired || before[i].createdAt <= before[o].createdAt)
    && (|order| < batch ==> forall id :: id in after ==>
          after[id].status == Completed || after[id].status == Expired || after[id].expiresAt > now)
  }

  lemma {:induction false} DistinctCount(order: seq<string>)
    requires NoRepeats(order)
    ensures |Elements(order)| == |order|
  {
    if order == [] {
      NoElements();
    } else {
      var init, last := order[..|order| - 1], order[|order| - 1];
      DistinctCount(init);
      assert order == init + [last];
      ElementsSnoc(init, last);
    }
  }

  lemma SweepIsDue(db: Tables, now: int, batch: nat, order: seq<string>)
    requires NoRepeats(order) && OldestOverdue(db, now, batch, Elements(order))
    ensures SweptWhenDue(db.payments, Expire(db, Elements(order)).payments, now, batch, order)
  {
    hide NoRepeats;
    DistinctCount(order);
    assert forall id :: id in order <==> id in Elements(order);
    var due := OverdueIds(db, now);
    if |order| < batch { SameSize(Elements(order), due); }
  }

  lemma SameSize(part: set<string>, all: set<string>)
    requires part <= all && |part| == |all|
    ensures part == all
  {
    assert all == part + (all - part);
  }

  predicate OldestFirst(payments: map<string, Payment>, chosen: set<string>, others: set<string>)
    requires chosen <= payments.Keys && others <= payments.Keys
  {
    forall i, o :: i in chosen && o in others ==> payments[i].createdAt <= payments[o].createdAt
  }

  lemma OldestIs(db: Tables, now: int, batch: nat, order: seq<string>)
    requires Elements(order) <= OverdueIds(db, now) && |Elements(order)| == Min(batch, |OverdueIds(db, now)|)
    requires OldestFirst(db.payments, Elements(order), OverdueIds(db, now) - Elements(order))
    ensures OldestOverdue(db, now, batch, Elements(order))
  {
  }

  lemma OverdueExist(db: Tables, now: int)
    ensures OverdueIds(db, now) <= db.payments.Keys
  {
  }

  lemma NoElements()
    ensures NoRepeats([]) && Elements([]) == {}
  {
  }

  lemma ElementsSnoc(order: seq<string>, id: string)
    requires NoRepeats(order) && id !in Elements(order)
    ensures Elements(order + [id]) == Elements(order) + {id} && NoRepeats(order + [id])
    ensures |Elements(order + [id])| == |Elements(order)| + 1
  {
    assert forall k :: 0 <= k < |order| ==> order[k] in Elements(order);
    assert Elements(order + [id]) == Elements(order) + {id};
  }

  predicate Covers(ledger: seq<Credit>, c: Option<Credit>) {
    c.Some? ==> Recorded(ledger, c.value.paymentId, c.value.txHash)
  }

  lemma CoversLater(payments: map<string, Payment>, ledger: seq<Credit>, c: Credit)
    ensures forall id :: id in payments && Covers(ledger, LegacyCredit(payments[id])) ==> Covers(ledger + [c], LegacyCredit(payments[id]))
  {
    hide LegacyCredit;
    forall id | id in payments && Covers(ledger, LegacyCredit(payments[id])) ensures Covers(ledger + [c], LegacyCredit(payments[id])) {
      var l := LegacyCredit(payments[id]);
      if l.Some? {
        var k :| 0 <= k < |ledger| && ledger[k].paymentId == l.value.paymentId && ledger[k].txHash == l.value.txHash;
        assert (ledger + [c])[k] == ledger[k];
      }
    }
  }

  lemma NotRecordedBefore(before: seq<Credit>, ledger: seq<Credit>, id: string, hash: string)
    requires |before| <= |ledger| && ledger[..|before|] == before && !Recorded(ledger, id, hash)
    ensures !Recorded(before, id, hash)
  {
    forall k | 0 <= k < |before| ensures before[k].paymentId != id || before[k].txHash != hash {
      assert ledger[k] == ledger[..|before|][k];
    }
  }
}
