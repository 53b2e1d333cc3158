/** The poller: one cycle, and one cycle after another. */
module Poller {
  import opened Common
  import opened Db
  import opened Horizon
  import opened Settlement

  const PAGE_LIMIT: nat := 200
  const MAX_PAGES_PER_CYCLE: nat := 25

  /** The account's payments, oldest first. The paging token of the record at `i` is `i + 1`, so "after cursor `c`"
      is `chain[c..]`; a record may come without its token. */
  datatype Entry = Entry(hp: HorizonPayment, tokened: bool)

  predicate AllTokened(chain: seq<Entry>) { forall i :: 0 <= i < |chain| ==> chain[i].tokened }

  function PageEnd(chain: seq<Entry>, cursor: nat): nat { Min(cursor + PAGE_LIMIT, |chain|) }

  /** The token of the latest payment, if there is one. */
  function Latest(chain: seq<Entry>): Option<nat> {
    if chain != [] && chain[|chain| - 1].tokened then Some(|chain|) else None
  }

  // ----- one cycle -----

  function Payments(entries: seq<Entry>): seq<HorizonPayment> {
    seq(|entries|, i requires 0 <= i < |entries| => entries[i].hp)
  }

  /** The tables after reconciling payments one after the other; `clock` gives the time of each call. */
  ghost function ReconcileAll(db: Tables, clock: nat -> int, records: seq<HorizonPayment>): Tables {
    if records == [] then db
    else
      var n := |records| - 1;
      RunAlone(ReconcileAll(db, clock, records[..n]), clock(n), Looking(records[n])).db
  }

  ghost function CountSettled(db: Tables, clock: nat -> int, records: seq<HorizonPayment>): nat {
    if records == [] then 0
    else
      var n := |records| - 1;
      CountSettled(db, clock, records[..n])
      + (if RunAlone(ReconcileAll(db, clock, records[..n]), clock(n), Looking(records[n])).proc == Done(true) then 1 else 0)
  }

  lemma {:induction false} RunAloneConsistent(db: Tables, now: int, proc: Proc)
    requires Consistent(db) && ProcOk(db, proc)
    ensures Consistent(RunAlone(db, now, proc).db)
    decreases Rank(proc)
  {
    hide Consistent, ProcOk, Effect, Continue, Committed;
    if !Finished(proc) {
      EffectGrows(db, proc);
      ContinueOk(db, now, proc);
      RankDecreases(db, now, proc);
      RunAloneConsistent(Effect(db, proc), now, Continue(db, now, proc));
    }
  }

  lemma RankDecreases(db: Tables, now: int, proc: Proc)
    requires !Finished(proc)
    ensures Rank(Continue(db, now, proc)) < Rank(proc)
  {
    hide Verify, Decide, FindPending, SumStroops, Recorded;
  }

  lemma OneMore(db: Tables, clock: nat -> int, records: seq<HorizonPayment>, hp: HorizonPayment)
    requires Consistent(ReconcileAll(db, clock, records))
    ensures ReconcileAll(db, clock, records + [hp]) == RunAlone(ReconcileAll(db, clock, records), clock(|records|), Looking(hp)).db
    ensures CountSettled(db, clock, records + [hp]) == CountSettled(db, clock, records)
              + (if RunAlone(ReconcileAll(db, clock, records), clock(|records|), Looking(hp)).proc == Done(true) then 1 else 0)
    ensures Consistent(ReconcileAll(db, clock, records + [hp]))
  {
    hide Consistent, RunAlone;
    assert (records + [hp])[..|records|] == records;
    LookingOk(ReconcileAll(db, clock, records), hp);
    RunAloneConsistent(ReconcileAll(db, clock, records), clock(|records|), Looking(hp));
  }

  lemma PaymentsSnoc(chain: seq<Entry>, from: nat, at: nat)
    requires from <= at < |chain|
    ensures Payments(chain[from..at + 1]) == Payments(chain[from..at]) + [chain[at].hp]
  {
  }

  /** Where a cycle starts paging. */
  function Start(cursor: Option<nat>, chain: seq<Entry>): nat {
    if cursor.Some? then cursor.value else if Latest(chain).Some? then Latest(chain).value else 0
  }

  class HorizonPoller {
    /** The persisted cursor. */
    var cursor: Option<nat>
    const db: Database

    constructor (db: Database)
      ensures cursor == None && this.db == db
    {
      cursor, this.db := None, db;
    }

    method StartingCursor(chain: seq<Entry>) returns (start: nat)
      modifies this`cursor
      ensures start == Start(old(cursor), chain)
      ensures cursor == if old(cursor).Some? then old(cursor) else Latest(chain)
      ensures old(cursor).Some? ==> start == old(cursor).value
      ensures old(cursor).None? && chain != [] && chain[|chain| - 1].tokened ==> start == |chain| && cursor == Some(|chain|)
      ensures old(cursor).None? && (chain == [] || !chain[|chain| - 1].tokened) ==> start == 0 && cursor == None
    {
      if cursor.Some? { return cursor.value; }
      var latest := Latest(chain);
      if latest.Some? {
        cursor := latest;
        return latest.value;
      }
      return 0;
    }

    /** One cycle. Horizon answers the first `answers` page requests and fails the next one: then the result is `None`. */
    method PollOnce(chain: seq<Entry>, clock: nat -> int, answers: nat)
      returns (settled: Option<nat>, pages: nat, handled: seq<HorizonPayment>)
      requires Consistent(db.View()) && (cursor.Some? ==> cursor.value <= |chain|)
      modifies this`cursor, db
      ensures Consistent(db.View()) && db.View() == ReconcileAll(old(db.View()), clock, handled)
      ensures settled.Some? ==> settled.value == CountSettled(old(db.View()), clock, handled)
      ensures cursor.Some? ==> Start(old(cursor), chain) <= cursor.value <= |chain|
      ensures old(cursor).Some? || settled.Some? ==> cursor.Some?
      ensures pages <= MAX_PAGES_PER_CYCLE && (settled.None? ==> pages == answers < MAX_PAGES_PER_CYCLE)
      ensures AllTokened(chain) ==>
                handled == Payments(chain[Start(old(cursor), chain)..if cursor.Some? then cursor.value else Start(old(cursor), chain)])
      ensures AllTokened(chain) && settled.Some? ==>
                && cursor.value == Start(old(cursor), chain) + Min(|chain| - Start(old(cursor), chain), 5000)
                && pages == Min(25, (|chain| - Start(old(cursor), chain)) / 200 + 1)
      ensures old(cursor).Some? ==> Start(old(cursor), chain) == old(cursor).value
      // A first cycle over an account with history hands nothing on: it starts after the latest payment.
      ensures old(cursor).None? && AllTokened(chain) && chain != [] ==> handled == [] && cursor == Some(|chain|)
    {
      hide Consistent, Recorded, RunAlone, CountSettled, ReconcileAll;
      ghost var before := db.View();
      assert ReconcileAll(before, clock, []) == before && CountSettled(before, clock, []) == 0 by { NothingYet(before, clock); }
      var start := StartingCursor(chain);
      var at, count := start, 0;
      pages, handled := 0, [];
      while true
        invariant start <= at <= |chain| && pages < MAX_PAGES_PER_CYCLE && pages <= answers
        invariant cursor.Some? ==> cursor.value == at
        invariant old(cursor).Some? || pages > 0 ==> cursor.Some?
        invariant pages == 0 ==> at == start
        invariant AllTokened(chain) && chain != [] ==> cursor.Some?
        invariant Consistent(db.View()) && db.View() == ReconcileAll(before, clock, handled) && count == CountSettled(before, clock, handled)
        invariant AllTokened(chain) ==> handled == Payments(chain[start..at]) && at == start + PAGE_LIMIT * pages
        decreases MAX_PAGES_PER_CYCLE - pages
      {
        if pages >= answers { return None, pages, handled; }
        var end := PageEnd(chain, at);
        var next, more;
        var reread;
        next, more, reread := HandlePage(chain, at, end, clock, before, handled, count);
        if AllTokened(chain) { PaymentsConcat(chain, start, at, end); }
        pages := pages + 1;
        var full := end - at == PAGE_LIMIT;
        at, count, handled := next, more, reread;
        cursor := Some(at);
        if !full { break; }
        if pages >= MAX_PAGES_PER_CYCLE { break; }
      }
      settled := Some(count);
    }

    /** `cycles` cycles on tokened records, with Horizon answering throughout: each gets 5000 records further, so they
        catch up with the backlog if and only if it has at most 5000 records for each of them. */
    method PollCycles(chain: seq<Entry>, clocks: nat -> nat -> int, cycles: nat) returns (handled: seq<HorizonPayment>)
      requires Consistent(db.View()) && (cursor.Some? ==> cursor.value <= |chain|) && AllTokened(chain)
      modifies this`cursor, db
      ensures Consistent(db.View())
      ensures cycles == 0 ==> cursor == old(cursor) && handled == []
      ensures var start := Start(old(cursor), chain);
              cycles > 0 ==>
                && cursor == Some(start + Min(|chain| - start, 5000 * cycles))
                && handled == Payments(chain[start..cursor.value])
                && (cursor.value == |chain| <==> |chain| - start <= 5000 * cycles)
    {
      hide Consistent, ReconcileAll, CountSettled;
      ghost var start := Start(cursor, chain);
      StartInRange(cursor, chain);
      handled := [];
      for i := 0 to cycles
        invariant Consistent(db.View())
        invariant i == 0 ==> cursor == old(cursor) && handled == []
        invariant i > 0 ==> cursor == Some(start + Min(|chain| - start, 5000 * i)) && handled == Payments(chain[start..cursor.value])
      {
        ghost var from := Start(cursor, chain);
        var _, _, more := PollOnce(chain, clocks(i), MAX_PAGES_PER_CYCLE);
        if i > 0 { PaymentsConcat(chain, start, from, cursor.value); }
        handled := handled + more;
      }
    }

    /** Reconcile a page's records in order, and move the cursor along their tokens. */
    method HandlePage(chain: seq<Entry>, from: nat, end: nat, clock: nat -> int,
                      ghost before: Tables, handled: seq<HorizonPayment>, count: nat)
      returns (at: nat, settled: nat, all: seq<HorizonPayment>)
      requires from <= end <= |chain| && Consistent(db.View())
      requires db.View() == ReconcileAll(before, clock, handled) && count == CountSettled(before, clock, handled)
      modifies db
      ensures Consistent(db.View()) && db.View() == ReconcileAll(before, clock, all) && settled == CountSettled(before, clock, all)
      ensures all == handled + Payments(chain[from..end])
      ensures from <= at <= end && (AllTokened(chain) ==> at == end)
      ensures forall i :: at <= i < end ==> !chain[i].tokened
      ensures at == from || chain[at - 1].tokened
    {
      hide Consistent, Recorded, RunAlone, CountSettled, ReconcileAll;
      at, settled, all := from, count, handled;
      assert all == handled + Payments(chain[from..from]);
      for i := from to end
        invariant from <= at <= i && (AllTokened(chain) ==> at == i)
        invariant forall k :: at <= k < i ==> !chain[k].tokened
        invariant at == from || chain[at - 1].tokened
        invariant Consistent(db.View()) && db.View() == ReconcileAll(before, clock, all) && settled == CountSettled(before, clock, all)
        invariant all == handled + Payments(chain[from..i])
      {
        if chain[i].tokened { at := i + 1; }
        OneMore(before, clock, all, chain[i].hp);
        PaymentsSnoc(chain, from, i);
        ConcatAssociates(handled, Payments(chain[from..i]), [chain[i].hp]);
        var result, _ := ReconcilePayment(db, clock(|all|), chain[i].hp);
        if result == Some(true) { settled := settled + 1; }
        all := all + [chain[i].hp];
      }
    }
  }

  lemma NothingYet(db: Tables, clock: nat -> int)
    ensures ReconcileAll(db, clock, []) == db && CountSettled(db, clock, []) == 0
  {
  }

  lemma PaymentsConcat(chain: seq<Entry>, a: nat, b: nat, c: nat)
    requires a <= b <= c <= |chain|
    ensures Payments(chain[a..b]) + Payments(chain[b..c]) == Payments(chain[a..c])
  {
  }

  lemma StartInRange(cursor: Option<nat>, chain: seq<Entry>)
    requires cursor.Some? ==> cursor.value <= |chain|
    ensures Start(cursor, chain) <= |chain|
  {
  }
}
