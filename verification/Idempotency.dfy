/** Same-key creates, interleaved one statement at a time. */
module Idempotency {
  import opened Common

  datatype Scope = Scope(merchant: string, key: string)

  /** Where a keyed `create` stands: which statement it issues next, or how it ended. */
  datatype Request =
    | LookingUp(k: Scope)
    | Checking(k: Scope, id: string)
    | Deleting(k: Scope)
    | Reserving(k: Scope)
    | Rereading(k: Scope, id: string)
    | Waiting(k: Scope, id: string, tries: nat)
    | Minting(k: Scope, id: string)
    | Answered(k: Scope, id: string)
    | Refused(k: Scope)
    | Died(k: Scope)

  const MAX_TRIES := 50

  /** `scopeOf` remembers for which key each payment id was drawn, and `dead` the ids whose request died before minting. */
  datatype State = State(
    keys: map<Scope, string>, payments: set<string>, requests: map<nat, Request>, scopeOf: map<string, Scope>, dead: set<string>)

  datatype Action = Arrive(r: nat, k: Scope) | Go(r: nat, draw: string) | Die(r: nat) | Prune(k: Scope)

  predicate Over(q: Request) { q.Answered? || q.Refused? || q.Died? }

  /** The id that a request has drawn and may still mint. */
  predicate Holds(q: Request, id: string) { (q.Rereading? || q.Minting?) && q.id == id }

  predicate Enabled(s: State, a: Action) {
    match a
    case Arrive(r, _) => r !in s.requests
    case Go(r, draw) => r in s.requests && !Over(s.requests[r]) && draw !in s.scopeOf
    case Die(r) => r in s.requests && !Over(s.requests[r])
    case Prune(_) => true
  }

  /** The request after its next statement. */
  function Moved(s: State, q: Request, draw: string): Request {
    match q
    case LookingUp(k) => if k in s.keys then Checking(k, s.keys[k]) else Reserving(k)
    case Checking(k, id) => if id in s.payments then Answered(k, id) else Deleting(k)
    case Deleting(k) => Reserving(k)
    case Reserving(k) => Rereading(k, draw)
    case Rereading(k, id) =>
      var stored := if k in s.keys then s.keys[k] else id;
      if stored == id then Minting(k, id) else Waiting(k, stored, 0)
    case Waiting(k, id, tries) =>
      if id in s.payments then Answered(k, id) else if tries + 1 == MAX_TRIES then Refused(k) else Waiting(k, id, tries + 1)
    case Minting(k, id) => Answered(k, id)
    case _ => q
  }

  function Apply(s: State, a: Action): State
    requires Enabled(s, a)
  {
    match a
    case Arrive(r, k) => s.(requests := s.requests[r := LookingUp(k)])
    case Go(r, draw) =>
      var q := s.requests[r];
      var s' := s.(requests := s.requests[r := Moved(s, q, draw)]);
      (match q
       case Deleting(k) => s'.(keys := s.keys - {k})
       case Reserving(k) =>
         s'.(keys := if k in s.keys then s.keys else s.keys[k := draw], scopeOf := s.scopeOf[draw := k])
       case Minting(k, id) => s'.(payments := s.payments + {id})
       case _ => s')
    case Die(r) =>
      var q := s.requests[r];
      s.(requests := s.requests[r := Died(q.k)], dead := if q.Rereading? || q.Minting? then s.dead + {q.id} else s.dead)
    case Prune(k) => s.(keys := s.keys - {k})
  }

  /** The key whose mapping an action removes, if there is one to remove. */
  function Removes(s: State, a: Action): Option<Scope> {
    match a
    case Go(r, _) => if r in s.requests && s.requests[r].Deleting? && s.requests[r].k in s.keys then Some(s.requests[r].k) else None
    case Prune(k) => if k in s.keys then Some(k) else None
    case _ => None
  }

  /** A mapping may go only when its request has died, and not while another is between its insert and its re-read. */
  predicate Clean(s: State, a: Action) {
    Removes(s, a).Some? ==>
      && s.keys[Removes(s, a).value] in s.dead
      && forall o :: o in s.requests && s.requests[o].Rereading? ==> s.requests[o].k != Removes(s, a).value
  }

  ghost predicate Initial(s: State) { s == State(map[], {}, map[], map[], {}) }

  ghost predicate Next(s: State, s': State) { exists a: Action :: Enabled(s, a) && s' == Apply(s, a) }

  ghost predicate NextCleanly(s: State, s': State) { exists a: Action :: Enabled(s, a) && Clean(s, a) && s' == Apply(s, a) }

  ghost predicate IsCleanRun(run: seq<State>) {
    run != [] && Initial(run[0]) && forall i :: 0 <= i < |run| - 1 ==> NextCleanly(run[i], run[i + 1])
  }

  // ----- the invariant -----

  predicate DrawnFor(s: State, id: string, k: Scope) { id in s.scopeOf && s.scopeOf[id] == k }

  predicate Mapped(s: State, k: Scope, id: string) { k in s.keys && s.keys[k] == id }

  /** A holder's id is its own: nobody else holds it, and it is neither minted nor dead. */
  ghost predicate OwnId(s: State, r: nat)
    requires r in s.requests
  {
    var q := s.requests[r];
    q.Rereading? || q.Minting? ==>
      && DrawnFor(s, q.id, q.k) && q.id !in s.payments && q.id !in s.dead
      && forall o :: o in s.requests && Holds(s.requests[o], q.id) ==> o == r
  }

  predicate RequestOk(s: State, q: Request) {
    match q
    case Checking(k, id) => DrawnFor(s, id, k)
    case Rereading(k, id) => k in s.keys
    case Waiting(k, id, _) => DrawnFor(s, id, k) && (Mapped(s, k, id) || id in s.dead)
    case Minting(k, id) => Mapped(s, k, id)
    case Answered(k, id) => id in s.payments && DrawnFor(s, id, k)
    case Refused(k) => s.dead == {} ==> k in s.keys
    case _ => true
  }

  ghost predicate RequestsInv(s: State) { forall r :: r in s.requests ==> OwnId(s, r) && RequestOk(s, s.requests[r]) }

  predicate KeysInv(s: State) { forall k :: k in s.keys ==> DrawnFor(s, s.keys[k], k) }

  predicate PaymentsInv(s: State) { forall id :: id in s.payments ==> id in s.scopeOf && Mapped(s, s.scopeOf[id], id) }

  predicate DeadInv(s: State) { forall id :: id in s.dead ==> id in s.scopeOf && id !in s.payments }

  ghost predicate Held(s: State, id: string) { exists r :: r in s.requests && Holds(s.requests[r], id) }

  /** A mapping without a payment is being worked on, unless its request died. */
  ghost predicate HeldInv(s: State) {
    forall k :: k in s.keys && s.keys[k] !in s.payments && s.keys[k] !in s.dead ==> Held(s, s.keys[k])
  }

  ghost predicate Inv(s: State) { RequestsInv(s) && KeysInv(s) && PaymentsInv(s) && DeadInv(s) && HeldInv(s) }

  lemma TablesKept(s: State, a: Action)
    requires Inv(s) && Enabled(s, a) && Clean(s, a)
    ensures KeysInv(Apply(s, a)) && DeadInv(Apply(s, a))
  {
    hide HeldInv;
    if a.Go? || a.Die? { assert OwnId(s, a.r) && RequestOk(s, s.requests[a.r]); }
  }

  lemma PaymentsKept(s: State, a: Action)
    requires Inv(s) && Enabled(s, a) && Clean(s, a)
    ensures PaymentsInv(Apply(s, a))
  {
    hide HeldInv;
    if a.Go? || a.Die? { assert OwnId(s, a.r) && RequestOk(s, s.requests[a.r]); }
  }

  predicate Acts(a: Action, r: nat) { (a.Arrive? || a.Go? || a.Die?) && a.r == r }

  lemma OwnIdOfOther(s: State, a: Action, r: nat)
    requires Inv(s) && Enabled(s, a) && Clean(s, a) && r in s.requests && !Acts(a, r)
    ensures OwnId(Apply(s, a), r)
  {
    hide HeldInv, KeysInv, PaymentsInv, DeadInv;
    assert OwnId(s, r);
    if a.Go? || a.Die? { assert OwnId(s, a.r); }
  }

  lemma OwnIdOfActor(s: State, a: Action, r: nat)
    requires Inv(s) && Enabled(s, a) && Clean(s, a) && r in Apply(s, a).requests && Acts(a, r)
    ensures OwnId(Apply(s, a), r)
  {
    hide HeldInv, KeysInv, RequestOk;
    if r in s.requests { assert OwnId(s, r); }
  }

  lemma OkOfOther(s: State, a: Action, r: nat)
    requires Inv(s) && Enabled(s, a) && Clean(s, a) && r in s.requests && !Acts(a, r)
    ensures RequestOk(Apply(s, a), s.requests[r])
  {
    hide HeldInv, KeysInv, PaymentsInv;
    assert OwnId(s, r) && RequestOk(s, s.requests[r]);
  }

  lemma OkOfActor(s: State, a: Action, r: nat)
    requires Inv(s) && Enabled(s, a) && Clean(s, a) && r in Apply(s, a).requests && Acts(a, r)
    ensures RequestOk(Apply(s, a), Apply(s, a).requests[r])
  {
    hide HeldInv, PaymentsInv;
    if r in s.requests { assert OwnId(s, r) && RequestOk(s, s.requests[r]); }
  }

  lemma RequestKept(s: State, a: Action, r: nat)
    requires Inv(s) && Enabled(s, a) && Clean(s, a) && r in Apply(s, a).requests
    ensures OwnId(Apply(s, a), r) && RequestOk(Apply(s, a), Apply(s, a).requests[r])
  {
    hide Inv, Clean, OwnId, RequestOk, Moved;
    if Acts(a, r) {
      OwnIdOfActor(s, a, r);
      OkOfActor(s, a, r);
    } else {
      assert r in s.requests && Apply(s, a).requests[r] == s.requests[r];
      OwnIdOfOther(s, a, r);
      OkOfOther(s, a, r);
    }
  }

  lemma HeldKept(s: State, a: Action)
    requires Inv(s) && Enabled(s, a) && Clean(s, a)
    ensures HeldInv(Apply(s, a))
  {
    var s' := Apply(s, a);
    if a.Go? || a.Die? { assert OwnId(s, a.r) && RequestOk(s, s.requests[a.r]); }
    forall k | k in s'.keys && s'.keys[k] !in s'.payments && s'.keys[k] !in s'.dead ensures Held(s', s'.keys[k]) {
      var id := s'.keys[k];
      if Mapped(s, k, id) {
        assert Held(s, id);
        var r :| r in s.requests && Holds(s.requests[r], id);
        assert OwnId(s, r) && RequestOk(s, s.requests[r]);
        assert Holds(s'.requests[r], id);
      } else {
        assert Holds(s'.requests[a.r], id);
      }
    }
  }

  lemma InvKept(s: State, a: Action)
    requires Inv(s) && Enabled(s, a) && Clean(s, a)
    ensures Inv(Apply(s, a))
  {
    TablesKept(s, a);
    PaymentsKept(s, a);
    HeldKept(s, a);
    hide Apply, Clean, Enabled, KeysInv, PaymentsInv, DeadInv, HeldInv, OwnId, RequestOk;
    forall r | r in Apply(s, a).requests ensures OwnId(Apply(s, a), r) && RequestOk(Apply(s, a), Apply(s, a).requests[r]) {
      RequestKept(s, a, r);
    }
  }

  lemma {:induction false} InvHolds(run: seq<State>, i: nat)
    requires IsCleanRun(run) && i < |run|
    ensures Inv(run[i])
  {
    if i > 0 {
      InvHolds(run, i - 1);
      hide Inv, Enabled, Apply, Clean;
      assert NextCleanly(run[i - 1], run[i - 1 + 1]);
      var a: Action :| Enabled(run[i - 1], a) && Clean(run[i - 1], a) && run[i] == Apply(run[i - 1], a);
      InvKept(run[i - 1], a);
    }
  }

  // ----- what clean runs guarantee -----

  /** A key mints at most one payment, even over crashes and recoveries. */
  lemma AtMostOnePayment(run: seq<State>, i: nat, a: string, b: string)
    requires IsCleanRun(run) && i < |run| && a in run[i].payments && b in run[i].payments
    ensures a in run[i].scopeOf && b in run[i].scopeOf
    ensures run[i].scopeOf[a] == run[i].scopeOf[b] ==> a == b
  {
    InvHolds(run, i);
    hide IsCleanRun, RequestsInv, HeldInv, KeysInv, DeadInv;
  }

  /** Every successful answer for a key carries that one payment's id. */
  lemma AnswersAgree(run: seq<State>, i: nat, r: nat, o: nat)
    requires IsCleanRun(run) && i < |run| && r in run[i].requests && o in run[i].requests
    requires run[i].requests[r].Answered? && run[i].requests[o].Answered? && run[i].requests[r].k == run[i].requests[o].k
    ensures run[i].requests[r].id == run[i].requests[o].id && run[i].requests[r].id in run[i].payments
  {
    InvHolds(run, i);
    hide IsCleanRun, HeldInv, KeysInv, DeadInv, OwnId;
    assert RequestOk(run[i], run[i].requests[r]) && RequestOk(run[i], run[i].requests[o]);
  }

  ghost predicate AllOver(s: State) { forall r :: r in s.requests ==> Over(s.requests[r]) }

  /** When nobody has died and all is over, a key that anyone used has its payment: exactly one. */
  lemma ExactlyOnePayment(run: seq<State>, i: nat, r: nat) returns (id: string)
    requires IsCleanRun(run) && i < |run| && AllOver(run[i]) && run[i].dead == {}
    requires r in run[i].requests && !run[i].requests[r].Died?
    ensures id in run[i].payments && DrawnFor(run[i], id, run[i].requests[r].k)
    ensures forall o :: o in run[i].payments && DrawnFor(run[i], o, run[i].requests[r].k) ==> o == id
  {
    InvHolds(run, i);
    hide IsCleanRun, OwnId;
    var s, q := run[i], run[i].requests[r];
    assert RequestOk(s, q);
    if q.Answered? {
      id := q.id;
    } else {
      id := s.keys[q.k];
      NobodyHolds(s, id);
    }
  }

  lemma NobodyHolds(s: State, id: string)
    requires AllOver(s)
    ensures !Held(s, id)
  {
  }

  // ----- an unclean removal can mint twice -----

  function Last(run: seq<State>): State
    requires run != []
  {
    run[|run| - 1]
  }

  /** A path: a state, and each next one by a clean action. */
  ghost predicate IsCleanPath(path: seq<State>) {
    path != [] && forall i :: 0 <= i < |path| - 1 ==> NextCleanly(path[i], path[i + 1])
  }

  /** Two payments of one key. */
  predicate TwoOf(s: State, k: Scope) {
    exists a, b :: a in s.payments && b in s.payments && a != b && DrawnFor(s, a, k) && DrawnFor(s, b, k)
  }

  lemma PathExtends(path: seq<State>, a: Action) returns (more: seq<State>)
    requires IsCleanPath(path) && path != [] && Enabled(Last(path), a) && Clean(Last(path), a)
    ensures IsCleanPath(more) && more != [] && path <= more && Last(more) == Apply(Last(path), a)
  {
    hide Enabled, Apply, Clean;
    more := path + [Apply(Last(path), a)];
    forall i | 0 <= i < |more| - 1 ensures NextCleanly(more[i], more[i + 1]) {
      if i < |path| - 1 { assert NextCleanly(path[i], path[i + 1]); }
    }
  }

  lemma {:induction false} LongerThanAll(ids: set<string>) returns (s: string)
    ensures forall id :: id in ids ==> |id| < |s|
  {
    if ids == {} {
      s := "x";
    } else {
      var id :| id in ids;
      var t := LongerThanAll(ids - {id});
      s := t + id + "x";
    }
  }

  lemma DrawNew(s: State) returns (id: string)
    ensures id !in s.scopeOf
  {
    id := LongerThanAll(s.scopeOf.Keys);
  }

  lemma {:induction false} LargerThanAll(rs: set<nat>) returns (r: nat)
    ensures forall o :: o in rs ==> o < r
  {
    if rs == {} {
      r := 0;
    } else {
      var o :| o in rs;
      var t := LargerThanAll(rs - {o});
      r := t + o + 1;
      assert forall p :: p in rs ==> p == o || p in rs - {o};
    }
  }

  /** Somebody other than `r` has a payment for the key, or is on the way to one once there is no mapping. */
  ghost predicate OneOnTheWay(s: State, k: Scope, r: nat) {
    || (exists a :: a in s.payments && DrawnFor(s, a, k))
    || (exists o :: o in s.requests && o != r && OnTheWay(s, o, k))
  }

  predicate OnTheWay(s: State, o: nat, k: Scope)
    requires o in s.requests
  {
    (s.requests[o].Rereading? || s.requests[o].Minting?) && s.requests[o].k == k && DrawnFor(s, s.requests[o].id, k)
  }

  /** An unclean removal leaves somebody with a payment, or on the way to one, and the key without a mapping. */
  lemma UncleanLeavesOne(s: State, a: Action, r: nat)
    requires Inv(s) && Enabled(s, a) && !Clean(s, a) && (a.Go? ==> a.r == r) && (a.Prune? ==> r !in s.requests)
    ensures Removes(s, a).Some? && Removes(s, a).value !in Apply(s, a).keys && OneOnTheWay(Apply(s, a), Removes(s, a).value, r)
  {
    hide OnTheWay, RequestOk;
    var k := Removes(s, a).value;
    var id := s.keys[k];
    var s' := Apply(s, a);
    if id in s.payments {
      assert id in s'.payments && DrawnFor(s', id, k);
    } else if id !in s.dead {
      assert Held(s, id);
      var o :| o in s.requests && Holds(s.requests[o], id);
      assert OwnId(s, o);
      HolderIsOnTheWay(s, s', o, k);
    } else {
      var o :| o in s.requests && s.requests[o].Rereading? && s.requests[o].k == k;
      assert OwnId(s, o);
      HolderIsOnTheWay(s, s', o, k);
    }
  }

  lemma HolderIsOnTheWay(s: State, s': State, o: nat, k: Scope)
    requires o in s.requests && (s.requests[o].Rereading? || s.requests[o].Minting?) && DrawnFor(s, s.requests[o].id, k)
    requires s.requests[o].k == k && s'.scopeOf == s.scopeOf && o in s'.requests && s'.requests[o] == s.requests[o]
    ensures OnTheWay(s', o, k)
  {
  }

  /** With no mapping, whoever is on the way gets to its payment, and nothing else changes. */
  lemma FirstMints(path: seq<State>, k: Scope, r: nat) returns (more: seq<State>, a: string)
    requires IsCleanPath(path) && path != [] && k !in Last(path).keys && OneOnTheWay(Last(path), k, r)
    requires r in Last(path).requests
    ensures IsCleanPath(more) && more != [] && path <= more && k !in Last(more).keys && a in Last(more).payments && DrawnFor(Last(more), a, k)
    ensures r in Last(more).requests && Last(more).requests[r] == Last(path).requests[r]
  {
    hide IsCleanPath;
    var s := Last(path);
    more := path;
    if exists id :: id in s.payments && DrawnFor(s, id, k) {
      a :| a in s.payments && DrawnFor(s, a, k);
    } else {
      var o :| o in s.requests && o != r && OnTheWay(s, o, k);
      a := s.requests[o].id;
      var other := DrawNew(s);
      if s.requests[o].Rereading? { more := PathExtends(more, Go(o, other)); }
      assert Last(more).requests[o] == Minting(k, a);
      more := PathExtends(more, Go(o, other));
    }
  }

  /** And a request that is about to reserve reserves, and mints another. */
  lemma SecondMints(path: seq<State>, k: Scope, r: nat, a: string) returns (more: seq<State>)
    requires IsCleanPath(path) && path != [] && k !in Last(path).keys && a in Last(path).payments && DrawnFor(Last(path), a, k)
    requires r in Last(path).requests && Last(path).requests[r] == Reserving(k)
    ensures IsCleanPath(more) && more != [] && path <= more && TwoOf(Last(more), k)
  {
    hide IsCleanPath;
    var b := DrawNew(Last(path));
    more := PathExtends(path, Go(r, b));
    assert Last(more).requests[r] == Rereading(k, b) && Last(more).keys[k] == b;
    var other := DrawNew(Last(more));
    more := PathExtends(more, Go(r, other));
    assert Last(more).requests[r] == Minting(k, b);
    more := PathExtends(more, Go(r, other));
    assert b in Last(more).payments && DrawnFor(Last(more), b, k) && DrawnFor(Last(more), a, k);
  }

  /** A new request that finds no mapping is about to reserve. */
  lemma Arrives(path: seq<State>, k: Scope, r: nat) returns (more: seq<State>)
    requires IsCleanPath(path) && path != [] && k !in Last(path).keys && r !in Last(path).requests && OneOnTheWay(Last(path), k, r)
    ensures IsCleanPath(more) && more != [] && path <= more && k !in Last(more).keys && OneOnTheWay(Last(more), k, r)
    ensures r in Last(more).requests && Last(more).requests[r] == Reserving(k)
  {
    hide IsCleanPath;
    more := PathExtends(path, Arrive(r, k));
    var other := DrawNew(Last(more));
    more := PathExtends(more, Go(r, other));
    StillOnTheWay(Last(path), Last(more), k, r);
  }

  lemma StillOnTheWay(s: State, s': State, k: Scope, r: nat)
    requires OneOnTheWay(s, k, r) && s'.payments == s.payments && s'.scopeOf == s.scopeOf
    requires forall o :: o in s.requests && o != r ==> o in s'.requests && s'.requests[o] == s.requests[o]
    ensures OneOnTheWay(s', k, r)
  {
    if !exists a :: a in s.payments && DrawnFor(s, a, k) {
      var o :| o in s.requests && o != r && OnTheWay(s, o, k);
      assert OnTheWay(s', o, k);
    } else {
      var a :| a in s.payments && DrawnFor(s, a, k);
      assert DrawnFor(s', a, k);
    }
  }

  /** From every state that clean runs reach, every unclean removal of a mapping has a clean continuation in which the
      key gets two payments. */
  lemma UncleanRemovalMintsTwice(s: State, a: Action) returns (path: seq<State>)
    requires Inv(s) && Enabled(s, a) && !Clean(s, a)
    ensures Removes(s, a).Some?
    ensures IsCleanPath(path) && path != [] && path[0] == Apply(s, a) && TwoOf(Last(path), Removes(s, a).value)
  {
    hide IsCleanPath, OneOnTheWay, Inv, TwoOf;
    var k := Removes(s, a).value;
    path := [Apply(s, a)];
    assert IsCleanPath(path) by { OneState(Apply(s, a)); }
    var r: nat;
    if a.Go? {
      r := a.r;
      UncleanLeavesOne(s, a, r);
    } else {
      r := LargerThanAll(s.requests.Keys);
      UncleanLeavesOne(s, a, r);
      path := Arrives(path, k, r);
    }
    var first;
    path, first := FirstMints(path, k, r);
    path := SecondMints(path, k, r, first);
  }

  lemma OneState(s: State)
    ensures IsCleanPath([s])
  {
  }

  lemma {:induction false} CleanPathKeepsInv(path: seq<State>, i: nat)
    requires IsCleanPath(path) && Inv(path[0]) && i < |path|
    ensures Inv(path[i])
  {
    hide Inv, Enabled, Apply, Clean;
    if i > 0 {
      CleanPathKeepsInv(path, i - 1);
      assert NextCleanly(path[i - 1], path[i - 1 + 1]);
      var a: Action :| Enabled(path[i - 1], a) && Clean(path[i - 1], a) && path[i] == Apply(path[i - 1], a);
      InvKept(path[i - 1], a);
    }
  }

  lemma InvHasNoTwo(s: State, k: Scope)
    requires Inv(s)
    ensures !TwoOf(s, k)
  {
    hide RequestsInv, HeldInv, KeysInv, DeadInv;
  }

  ghost predicate LeadsToTwo(s: State, k: Scope) {
    exists path :: IsCleanPath(path) && path != [] && path[0] == s && TwoOf(Last(path), k)
  }

  /** So a removal opens the way to a second payment of some key if and only if it is not clean. */
  lemma RemovalMintsTwiceIff(s: State, a: Action)
    requires Inv(s) && Enabled(s, a)
    ensures (exists k :: LeadsToTwo(Apply(s, a), k)) <==> !Clean(s, a)
  {
    hide Inv, IsCleanPath, TwoOf, Clean, Enabled, Apply;
    if Clean(s, a) {
      InvKept(s, a);
      forall k ensures !LeadsToTwo(Apply(s, a), k) {
        if LeadsToTwo(Apply(s, a), k) {
          var path :| IsCleanPath(path) && path != [] && path[0] == Apply(s, a) && TwoOf(Last(path), k);
          CleanPathKeepsInv(path, |path| - 1);
          InvHasNoTwo(Last(path), k);
        }
      }
    } else {
      var path := UncleanRemovalMintsTwice(s, a);
      assert LeadsToTwo(Apply(s, a), Removes(s, a).value);
    }
  }

  // ----- waiting for the winner -----

  /** The request after `n` more statements of its own, in a state that does not change. */
  function MovedTimes(s: State, q: Request, draw: string, n: nat): Request {
    if n == 0 then q else Moved(s, MovedTimes(s, q, draw, n - 1), draw)
  }

  /** A request that lost the race looks for the winner's payment 50 times, and gives up after that. */
  lemma {:induction false} WaitsFiftyTimes(s: State, k: Scope, id: string, draw: string, n: nat)
    requires id !in s.payments
    ensures MovedTimes(s, Waiting(k, id, 0), draw, n) == if n < 50 then Waiting(k, id, n) else Refused(k)
  {
    if n > 0 { WaitsFiftyTimes(s, k, id, draw, n - 1); }
  }

  // ----- when a run is clean -----

  /** No request looks its key up between another's reservation and its insert, and nothing is pruned. */
  predicate Quiet(s: State, a: Action) {
    match a
    case Go(r, _) => r in s.requests && s.requests[r].LookingUp? && s.requests[r].k in s.keys ==> s.keys[s.requests[r].k] in s.payments
    case Die(_) => false
    case Prune(_) => false
    case _ => true
  }

  ghost predicate NextQuietly(s: State, s': State) { exists a: Action :: Enabled(s, a) && Quiet(s, a) && s' == Apply(s, a) }

  ghost predicate IsQuietRun(run: seq<State>) {
    run != [] && Initial(run[0]) && forall i :: 0 <= i < |run| - 1 ==> NextQuietly(run[i], run[i + 1])
  }

  predicate NothingStale(s: State) {
    s.dead == {} && forall r :: r in s.requests ==> !s.requests[r].Deleting? && (s.requests[r].Checking? ==> s.requests[r].id in s.payments)
  }

  lemma NothingStaleKept(s: State, a: Action)
    requires NothingStale(s) && Enabled(s, a) && Quiet(s, a)
    ensures NothingStale(Apply(s, a)) && Clean(s, a)
  {
  }

  lemma {:induction false} NothingStaleHolds(run: seq<State>, i: nat)
    requires IsQuietRun(run) && i < |run|
    ensures NothingStale(run[i])
  {
    if i > 0 {
      NothingStaleHolds(run, i - 1);
      hide NothingStale, Enabled, Apply, Quiet;
      assert NextQuietly(run[i - 1], run[i - 1 + 1]);
      var a: Action :| Enabled(run[i - 1], a) && Quiet(run[i - 1], a) && run[i] == Apply(run[i - 1], a);
      NothingStaleKept(run[i - 1], a);
    }
  }

  /** Such a run is clean, and no request in it dies: so all of the above applies to it. */
  lemma QuietRunIsClean(run: seq<State>)
    requires IsQuietRun(run)
    ensures IsCleanRun(run) && forall i :: 0 <= i < |run| ==> run[i].dead == {}
  {
    hide Initial, Enabled, Apply, Quiet, Clean;
    forall i | 0 <= i < |run| ensures run[i].dead == {} { NothingStaleHolds(run, i); }
    forall i | 0 <= i < |run| - 1 ensures NextCleanly(run[i], run[i + 1]) {
      NothingStaleHolds(run, i);
      assert NextQuietly(run[i], run[i + 1]);
      var a: Action :| Enabled(run[i], a) && Quiet(run[i], a) && run[i + 1] == Apply(run[i], a);
      NothingStaleKept(run[i], a);
    }
  }

  // ----- without the hypothesis -----

  ghost predicate IsAnyRun(run: seq<State>) {
    run != [] && Initial(run[0]) && forall i :: 0 <= i < |run| - 1 ==> Next(run[i], run[i + 1])
  }

  lemma RunExtends(run: seq<State>, a: Action) returns (more: seq<State>)
    requires IsAnyRun(run) && Enabled(Last(run), a)
    ensures IsAnyRun(more) && more != [] && Last(more) == Apply(Last(run), a)
  {
    hide Enabled, Apply, Initial;
    more := run + [Apply(Last(run), a)];
    forall i | 0 <= i < |more| - 1 ensures Next(more[i], more[i + 1]) {
      if i < |run| - 1 { assert Next(run[i], run[i + 1]); }
    }
  }

  lemma StartRun() returns (run: seq<State>)
    ensures IsAnyRun(run) && run != [] && Last(run) == State(map[], {}, map[], map[], {})
  {
    run := [State(map[], {}, map[], map[], {})];
  }

  /** The first request reserves; the second has looked the key up and is about to delete the mapping. */
  lemma FirstHalf(k: Scope, a: string, other: string) returns (run: seq<State>)
    requires a != other
    ensures IsAnyRun(run) && run != []
    ensures Last(run) == State(map[k := a], {}, map[0 := Rereading(k, a), 1 := Deleting(k)], map[a := k], {})
  {
    hide IsAnyRun;
    run := StartRun();
    run := RunExtends(run, Arrive(0, k));
    run := RunExtends(run, Go(0, other));
    assert Last(run) == State(map[], {}, map[0 := Reserving(k)], map[], {});
    run := RunExtends(run, Go(0, a));
    assert Last(run) == State(map[k := a], {}, map[0 := Rereading(k, a)], map[a := k], {});
    run := RunExtends(run, Arrive(1, k));
    run := RunExtends(run, Go(1, other));
    assert Last(run) == State(map[k := a], {}, map[0 := Rereading(k, a), 1 := Checking(k, a)], map[a := k], {});
    run := RunExtends(run, Go(1, other));
  }

  /** The first request has re-read its own reservation; then the second deletes it. */
  lemma ThenDeletes(run0: seq<State>, k: Scope, a: string, other: string) returns (run: seq<State>)
    requires a != other && IsAnyRun(run0) && run0 != []
    requires Last(run0) == State(map[k := a], {}, map[0 := Rereading(k, a), 1 := Deleting(k)], map[a := k], {})
    ensures IsAnyRun(run) && run != []
    ensures Last(run) == State(map[], {}, map[0 := Minting(k, a), 1 := Reserving(k)], map[a := k], {})
  {
    hide IsAnyRun;
    run := RunExtends(run0, Go(0, other));
    assert Last(run) == State(map[k := a], {}, map[0 := Minting(k, a), 1 := Deleting(k)], map[a := k], {});
    run := RunExtends(run, Go(1, other));
  }

  lemma ThenMints(run0: seq<State>, k: Scope, a: string, other: string) returns (run: seq<State>)
    requires a != other && IsAnyRun(run0) && run0 != []
    requires Last(run0) == State(map[], {}, map[0 := Minting(k, a), 1 := Reserving(k)], map[a := k], {})
    ensures IsAnyRun(run) && run != []
    ensures Last(run) == State(map[], {a}, map[0 := Answered(k, a), 1 := Reserving(k)], map[a := k], {})
  {
    hide IsAnyRun;
    run := RunExtends(run0, Go(0, other));
  }

  /** Two requests, nobody dying: the second looks the key up between the first's reservation and its insert,
      takes the mapping for stale, deletes it, and both mint a payment. */
  lemma LookupInBetweenMintsTwice(k: Scope, a: string, b: string) returns (run: seq<State>)
    requires a != b
    ensures IsAnyRun(run) && run != [] && Last(run) == State(
      map[k := b], {a, b}, map[0 := Answered(k, a), 1 := Answered(k, b)], map[a := k, b := k], {})
  {
    hide IsAnyRun;
    var other := a + b + "x";
    assert |other| > |a| && |other| > |b|;
    run := FirstHalf(k, a, other);
    run := ThenDeletes(run, k, a, other);
    run := ThenMints(run, k, a, other);
    run := RunExtends(run, Go(1, b));
    assert Last(run) == State(map[k := b], {a}, map[0 := Answered(k, a), 1 := Rereading(k, b)], map[a := k, b := k], {});
    run := RunExtends(run, Go(1, other));
    run := RunExtends(run, Go(1, other));
  }
}
