/** Batched pruning of old deliveries and idempotency keys. */
module Retention {
  import opened Common
  import Redrive

  datatype Delivery = Delivery(status: Redrive.DeliveryStatus, acknowledged: bool, payload: string, createdAt: int)

  /** The two tables; an idempotency key is represented by its creation time. */
  datatype Store = Store(deliveries: map<string, Delivery>, keys: map<string, int>)

  /** The three batched statements. */
  datatype Batch = PruneDeliveries | CompactFailed | PruneKeys

  const PRUNE_BATCH: nat := 500
  const MAX_PER_CYCLE: nat := 50_000

  predicate Prunable(d: Delivery, cutoff: int) {
    (d.status.Delivered? || (d.status.Failed? && d.acknowledged)) && d.createdAt < cutoff
  }

  predicate Compactable(d: Delivery, cutoff: int) {
    d.status.Failed? && !d.acknowledged && d.payload != "" && d.createdAt < cutoff
  }

  function Eligible(s: Store, b: Batch, cutoff: int): set<string> {
    match b
    case PruneDeliveries => set id | id in s.deliveries && Prunable(s.deliveries[id], cutoff)
    case CompactFailed => set id | id in s.deliveries && Compactable(s.deliveries[id], cutoff)
    case PruneKeys => set id | id in s.keys && s.keys[id] < cutoff
  }

  function Tombstone(d: Delivery): Delivery { d.(payload := "") }

  /** The tables after statement `b` has hit the rows `ids`. */
  function Hit(s: Store, b: Batch, ids: set<string>): Store {
    match b
    case PruneDeliveries => s.(deliveries := s.deliveries - ids)
    case CompactFailed =>
      s.(deliveries := map id | id in s.deliveries :: if id in ids then Tombstone(s.deliveries[id]) else s.deliveries[id])
    case PruneKeys => s.(keys := s.keys - ids)
  }

  lemma HitNothing(s: Store, b: Batch)
    ensures Hit(s, b, {}) == s
  {
  }

  /** Batches add up, and what is hit is no longer eligible. */
  lemma HitTwice(s: Store, b: Batch, one: set<string>, two: set<string>, cutoff: int)
    ensures Hit(Hit(s, b, one), b, two) == Hit(s, b, one + two)
    ensures Eligible(Hit(s, b, one), b, cutoff) == Eligible(s, b, cutoff) - one
  {
  }

  /** How many rows a drain gets to: whole batches until the cap is reached, at least one. */
  function Reach(cap: nat): nat { if cap == 0 then PRUNE_BATCH else (cap + PRUNE_BATCH - 1) / PRUNE_BATCH * PRUNE_BATCH }

  lemma ReachOfCycle()
    ensures Reach(MAX_PER_CYCLE) == 50_000
  {
  }

  lemma CardinalityOfRest(all: set<string>, part: set<string>)
    requires part <= all
    ensures |all - part| == |all| - |part|
  {
    assert all == part + (all - part);
  }

  class Tables {
    var deliveries: map<string, Delivery>
    var keys: map<string, int>

    function View(): Store reads this { Store(deliveries, keys) }

    constructor (deliveries: map<string, Delivery>, keys: map<string, int>)
      ensures View() == Store(deliveries, keys)
    {
      this.deliveries, this.keys := deliveries, keys;
    }

    /** `SELECT rowid ... LIMIT`: any `limit` of the rows. */
    method Limited(rows: set<string>, limit: nat) returns (ids: set<string>)
      ensures ids <= rows && |ids| == Min(limit, |rows|)
    {
      ids := {};
      var rest := rows;
      while |ids| < limit && rest != {}
        invariant ids !! rest && ids + rest == rows && |ids| <= limit
        decreases |rest|
      {
        var id :| id in rest;
        ids, rest := ids + {id}, rest - {id};
      }
      if rest == {} {
        assert ids == rows;
      } else {
        assert |rows| == |ids| + |rest|;
      }
    }

    method RunBatch(b: Batch, cutoff: int) returns (hit: set<string>)
      modifies this
      ensures hit <= Eligible(old(View()), b, cutoff) && |hit| == Min(PRUNE_BATCH, |Eligible(old(View()), b, cutoff)|)
      ensures View() == Hit(old(View()), b, hit)
    {
      hit := Limited(Eligible(View(), b, cutoff), PRUNE_BATCH);
      match b {
        case PruneDeliveries => deliveries := deliveries - hit;
        case CompactFailed => deliveries := map id | id in deliveries :: if id in hit then Tombstone(deliveries[id]) else deliveries[id];
        case PruneKeys => keys := keys - hit;
      }
    }

    /** Repeat a batch until it comes back short or the cap is reached: it hits exactly as many rows as it can reach. */
    method Drain(b: Batch, cap: nat, cutoff: int) returns (total: nat, ghost hit: set<string>)
      modifies this
      ensures hit <= Eligible(old(View()), b, cutoff) && total == |hit| == Min(|Eligible(old(View()), b, cutoff)|, Reach(cap))
      ensures View() == Hit(old(View()), b, hit)
      ensures Eligible(View(), b, cutoff) == Eligible(old(View()), b, cutoff) - hit
    {
      hide Eligible, Hit;
      ghost var before := View();
      ghost var all := Eligible(before, b, cutoff);
      HitNothing(before, b);
      total, hit := 0, {};
      ghost var rounds := 0;
      while true
        invariant total == |hit| == PRUNE_BATCH * rounds && hit <= all && View() == Hit(before, b, hit)
        invariant Eligible(View(), b, cutoff) == all - hit
        invariant rounds > 0 ==> total < cap
        decreases |all - hit|
      {
        var batch := RunBatch(b, cutoff);
        CardinalityOfRest(all, hit);
        HitTwice(before, b, hit, batch, cutoff);
        HitTwice(before, b, hit + batch, {}, cutoff);
        assert |hit + batch| == |hit| + |batch| by { assert hit !! batch; }
        ghost var was := hit;
        total, hit := total + |batch|, hit + batch;
        if |batch| < PRUNE_BATCH || total >= cap {
          ReachIs(cap, rounds, |all|, total);
          return;
        }
        CardinalityOfRest(all, hit);
        rounds := rounds + 1;
      }
    }

    /** The part of a cycle that concerns deliveries: old finished ones go, old unread failures are compacted. */
    method PruneDeliveriesOnce(cutoff: int) returns (pruned: nat, compacted: nat)
      modifies this
      ensures compacted == Min(|Eligible(old(View()), CompactFailed, cutoff)|, 50_000)
      ensures pruned == Min(|Eligible(old(View()), PruneDeliveries, cutoff)|, 50_000)
      ensures |old(deliveries)| == |deliveries| + pruned && EvidenceKept(old(deliveries), deliveries, cutoff)
      ensures |Changed(old(deliveries), deliveries)| == compacted
      ensures pruned < 50_000 && compacted < 50_000 ==> NothingLeft(deliveries, cutoff)
      ensures keys == old(keys)
    {
      hide Eligible, EvidenceKept, Hit, SubRows, Reach, Changed, NothingLeft;
      ReachOfCycle();
      ghost var before := View();
      ghost var hit, stones;
      pruned, hit := Drain(PruneDeliveries, MAX_PER_CYCLE, cutoff);
      ghost var between := View();
      PruneEffect(before, hit, cutoff);
      SameCompactable(before, hit, cutoff);
      compacted, stones := Drain(CompactFailed, MAX_PER_CYCLE, cutoff);
      CompactEffect(before, between, stones, cutoff);
      if pruned < MAX_PER_CYCLE && compacted < MAX_PER_CYCLE {
        AllHit(Eligible(before, PruneDeliveries, cutoff), hit);
        AllHit(Eligible(between, CompactFailed, cutoff), stones);
        LeavesNothing(between, stones, cutoff);
      }
    }

    /** One cycle: a retention of zero days or less switches its table off. */
    method PruneOnce(deliveryDays: int, keyDays: int, deliveryCutoff: int, keyCutoff: int)
      returns (pruned: nat, compacted: nat, keysPruned: nat)
      modifies this
      ensures compacted == if deliveryDays > 0 then Min(|Eligible(old(View()), CompactFailed, deliveryCutoff)|, 50_000) else 0
      ensures pruned == if deliveryDays > 0 then Min(|Eligible(old(View()), PruneDeliveries, deliveryCutoff)|, 50_000) else 0
      ensures keysPruned == if keyDays > 0 then Min(|Eligible(old(View()), PruneKeys, keyCutoff)|, 50_000) else 0
      ensures |old(deliveries)| == |deliveries| + pruned && |old(keys)| == |keys| + keysPruned
      ensures deliveryDays > 0 ==> EvidenceKept(old(deliveries), deliveries, deliveryCutoff)
      ensures |Changed(old(deliveries), deliveries)| == compacted
      ensures deliveryDays > 0 && pruned < 50_000 && compacted < 50_000 ==> NothingLeft(deliveries, deliveryCutoff)
      ensures keyDays > 0 && keysPruned < 50_000 ==> forall id :: id in keys ==> keys[id] >= keyCutoff
      ensures keyDays <= 0 ==> keys == old(keys)
      ensures deliveryDays <= 0 ==> deliveries == old(deliveries)
      ensures KeysKept(old(keys), keys, keyCutoff)
    {
      hide Eligible, EvidenceKept, Hit, KeysKept, Reach, Changed, NothingLeft;
      ReachOfCycle();
      pruned, compacted, keysPruned := 0, 0, 0;
      NothingChanged(deliveries);
      if deliveryDays > 0 { pruned, compacted := PruneDeliveriesOnce(deliveryCutoff); }
      KeysAsBefore(keys, keyCutoff);
      if keyDays > 0 {
        ghost var before := View();
        ghost var gone;
        keysPruned, gone := Drain(PruneKeys, MAX_PER_CYCLE, keyCutoff);
        KeysEffect(before, gone, keyCutoff);
        SameKeysEligible(old(View()), before, keyCutoff);
        if keysPruned < MAX_PER_CYCLE {
          AllHit(Eligible(before, PruneKeys, keyCutoff), gone);
          NoOldKeys(View(), keyCutoff);
        }
      }
    }
  }

  /** A delivery that is pending, or failed and unacknowledged, or recent, is still there; only an old unread failure
      may have lost its payload. Everything that is there was there before. */
  predicate EvidenceKept(before: map<string, Delivery>, after: map<string, Delivery>, cutoff: int) {
    && (forall id :: id in before && id !in after ==>
          (before[id].status.Delivered? || (before[id].status.Failed? && before[id].acknowledged)) && before[id].createdAt < cutoff)
    && (forall id :: id in after ==>
          && id in before
          && (after[id] == before[id]
              || (before[id].status.Failed? && !before[id].acknowledged && before[id].createdAt < cutoff
                  && after[id] == before[id].(payload := ""))))
  }

  /** No delivery is left that the cycle is there to remove, and none with a payload that it is there to empty. */
  predicate NothingLeft(after: map<string, Delivery>, cutoff: int) {
    forall id :: id in after && after[id].createdAt < cutoff ==>
      after[id].status.Pending? || (after[id].status.Failed? && !after[id].acknowledged && after[id].payload == "")
  }

  /** The rows that are still there, but not as they were. */
  function Changed(before: map<string, Delivery>, after: map<string, Delivery>): set<string> {
    set id | id in after && id in before && after[id] != before[id]
  }

  lemma NothingChanged(rows: map<string, Delivery>)
    ensures Changed(rows, rows) == {}
  {
  }

  predicate SubRows(a: map<string, Delivery>, b: map<string, Delivery>) { forall id :: id in a ==> id in b && a[id] == b[id] }

  predicate KeysKept(before: map<string, int>, after: map<string, int>, cutoff: int) {
    && (forall id :: id in before && before[id] >= cutoff ==> id in after)
    && (forall id :: id in after ==> id in before && after[id] == before[id])
  }

  /** Pruning takes no row that compaction is for. */
  lemma SameCompactable(s: Store, hit: set<string>, cutoff: int)
    requires hit <= Eligible(s, PruneDeliveries, cutoff)
    ensures Eligible(Hit(s, PruneDeliveries, hit), CompactFailed, cutoff) == Eligible(s, CompactFailed, cutoff)
  {
  }

  lemma PruneEffect(s: Store, hit: set<string>, cutoff: int)
    requires hit <= Eligible(s, PruneDeliveries, cutoff)
    ensures Hit(s, PruneDeliveries, hit).keys == s.keys
    ensures |s.deliveries| == |Hit(s, PruneDeliveries, hit).deliveries| + |hit|
    ensures EvidenceKept(s.deliveries, Hit(s, PruneDeliveries, hit).deliveries, cutoff)
    ensures SubRows(Hit(s, PruneDeliveries, hit).deliveries, s.deliveries)
  {
    RemovedCount(s.deliveries, hit);
  }

  lemma CompactEffect(s: Store, between: Store, stones: set<string>, cutoff: int)
    requires EvidenceKept(s.deliveries, between.deliveries, cutoff) && stones <= Eligible(between, CompactFailed, cutoff)
    requires SubRows(between.deliveries, s.deliveries)
    ensures Hit(between, CompactFailed, stones).keys == between.keys
    ensures |Hit(between, CompactFailed, stones).deliveries| == |between.deliveries|
    ensures EvidenceKept(s.deliveries, Hit(between, CompactFailed, stones).deliveries, cutoff)
    ensures Changed(s.deliveries, Hit(between, CompactFailed, stones).deliveries) == stones
  {
    assert Hit(between, CompactFailed, stones).deliveries.Keys == between.deliveries.Keys;
    SameCount(Hit(between, CompactFailed, stones).deliveries, between.deliveries);
  }

  lemma KeysEffect(s: Store, gone: set<string>, cutoff: int)
    requires gone <= Eligible(s, PruneKeys, cutoff)
    ensures Hit(s, PruneKeys, gone).deliveries == s.deliveries
    ensures |s.keys| == |Hit(s, PruneKeys, gone).keys| + |gone| && KeysKept(s.keys, Hit(s, PruneKeys, gone).keys, cutoff)
  {
    RemovedCount(s.keys, gone);
  }

  lemma AllHit(all: set<string>, hit: set<string>)
    requires hit <= all && |hit| == |all|
    ensures all - hit == {}
  {
    CardinalityOfRest(all, hit);
  }

  lemma LeavesNothing(between: Store, stones: set<string>, cutoff: int)
    requires Eligible(between, PruneDeliveries, cutoff) == {}
    requires Eligible(Hit(between, CompactFailed, stones), CompactFailed, cutoff) == {}
    ensures NothingLeft(Hit(between, CompactFailed, stones).deliveries, cutoff)
  {
    var after := Hit(between, CompactFailed, stones).deliveries;
    forall id | id in after && after[id].createdAt < cutoff
      ensures after[id].status.Pending? || (after[id].status.Failed? && !after[id].acknowledged && after[id].payload == "")
    {
      assert id !in Eligible(between, PruneDeliveries, cutoff);
      assert id !in Eligible(Hit(between, CompactFailed, stones), CompactFailed, cutoff);
    }
  }

  lemma NoOldKeys(s: Store, cutoff: int)
    requires Eligible(s, PruneKeys, cutoff) == {}
    ensures forall id :: id in s.keys ==> s.keys[id] >= cutoff
  {
    forall id | id in s.keys ensures s.keys[id] >= cutoff { assert id !in Eligible(s, PruneKeys, cutoff); }
  }

  lemma KeysAsBefore(keys: map<string, int>, cutoff: int)
    ensures KeysKept(keys, keys, cutoff)
  {
  }

  lemma SameKeysEligible(s: Store, t: Store, cutoff: int)
    requires s.keys == t.keys
    ensures Eligible(s, PruneKeys, cutoff) == Eligible(t, PruneKeys, cutoff)
  {
  }

  lemma RemovedCount<T>(m: map<string, T>, ids: set<string>)
    requires ids <= m.Keys
    ensures |m| == |m - ids| + |ids|
  {
    assert (m - ids).Keys == m.Keys - ids;
    CardinalityOfRest(m.Keys, ids);
    SameCount(m, m);
    assert |m - ids| == |(m - ids).Keys| && |m| == |m.Keys|;
  }

  lemma SameCount<S, T>(m: map<string, S>, n: map<string, T>)
    requires m.Keys == n.Keys
    ensures |m| == |n|
  {
    assert |m| == |m.Keys| && |n| == |n.Keys|;
  }

  /** The loop stops after whole batches at the first count that reaches the cap, or with everything done. */
  lemma ReachIs(cap: nat, rounds: nat, all: nat, total: nat)
    requires PRUNE_BATCH * rounds <= all && total == PRUNE_BATCH * rounds + Min(PRUNE_BATCH, all - PRUNE_BATCH * rounds)
    requires (rounds > 0 ==> PRUNE_BATCH * rounds < cap) && (total < PRUNE_BATCH * (rounds + 1) || total >= cap)
    ensures total == Min(all, Reach(cap))
  {
  }
}
