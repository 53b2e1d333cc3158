/** The expiry sweeper. */
module Expiry {
  import opened Common
  import opened Money
  import opened Db
  import opened Horizon
  import opened Settlement

  /** One sweep: exactly the `Sweep` action of the interleaved system, with its notifications in the order of the rows. */
  method SweepOnce(db: Database, now: int, batch: nat) returns (expired: nat, sent: seq<Payload>, ghost order: seq<string>)
    modifies db
    ensures NoRepeats(order) && OldestOverdue(old(db.View()), now, batch, Elements(order))
    ensures db.View() == Expire(old(db.View()), Elements(order))
    ensures expired == |order| && |sent| == |order| && forall id :: id in order ==> id in old(db.payments)
    ensures sent == ExpiredPayloads(old(db.View()), order)
    ensures SweptWhenDue(old(db.payments), db.payments, now, batch, order)
    ensures forall i :: 0 <= i < |sent| && order[i] in db.payments ==>
              sent[i].event == ExpiredEvent && sent[i].status == Expired && sent[i].paymentId == db.payments[order[i]].id && sent[i].delta == None
  {
    hide ExpiredPayload, SweptWhenDue;
    ghost var before := db.View();
    var ids := db.ExpireOverdue(now, batch);
    var rows := db.payments;
    order, sent := ids, [];
    forall id | id in ids ensures id in before.payments && id in rows && rows[id] == before.payments[id].(status := Expired) {
      assert id in Elements(ids);
      assert rows == Expire(before, Elements(ids)).payments;
    }
    for i := 0 to |ids|
      invariant db.View() == Expire(before, Elements(ids))
      invariant |sent| == i && sent == ExpiredPayloads(before, ids[..i])
      invariant forall k :: 0 <= k < i ==> ids[k] in rows && sent[k] == ExpiredPayload(rows[ids[k]])
    {
      assert ids[..i + 1][..i] == ids[..i] && ids[i] in ids;
      SameNotice(before.payments[ids[i]]);
      sent := sent + [ExpiredPayload(rows[ids[i]])];
    }
    assert ids[..|ids|] == ids;
    expired := |ids|;
    forall k | 0 <= k < |sent|
      ensures sent[k].event == ExpiredEvent && sent[k].status == Expired && sent[k].paymentId == rows[ids[k]].id && sent[k].delta == None
    {
      ExpiredPayloadIs(rows[ids[k]]);
    }
  }

  /** The notification is built from the swept row, which differs from the row before in its status only. */
  lemma SameNotice(p: Payment)
    ensures ExpiredPayload(p.(status := Expired)) == ExpiredPayload(p)
  {
  }

  lemma ExpiredPayloadIs(p: Payment)
    ensures var n := ExpiredPayload(p); n.event == ExpiredEvent && n.status == Expired && n.paymentId == p.id && n.delta == None
  {
    hide Canonical;
  }
}
