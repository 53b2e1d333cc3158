/** The redrive worker: which deliveries a pass picks up, and what many passes add up to. */
module Redrive {
  import opened Common
  import opened Webhooks

  datatype DeliveryStatus = Pending | Delivered | Failed

  datatype Delivery = Delivery(status: DeliveryStatus, attempts: nat, lastAttempt: Option<int>, createdAt: int)

  /** `inlineSecs` is the longest that an inline delivery takes. */
  datatype Config = Config(maxAttempts: nat, graceSecs: int, initialSecs: int, maxSecs: int, jitterSecs: nat, inlineSecs: nat)

  /** `COALESCE(last_attempt, created_at)` */
  function IdleSince(d: Delivery): int { if d.lastAttempt.Some? then d.lastAttempt.value else d.createdAt }

  function Backoff(c: Config, attempts: nat): int
    requires attempts > 0
  {
    Min(c.initialSecs * Pow2(Min(attempts - 1, 32)), c.maxSecs)
  }

  /** How long a row must have been idle, before jitter. */
  function Window(c: Config, attempts: nat): int {
    if attempts == 0 then c.graceSecs else Max(c.graceSecs, Backoff(c, attempts))
  }

  predicate Eligible(c: Config, d: Delivery, jitter: nat, now: int) {
    && (d.status == Pending || d.status == Failed) && d.attempts < c.maxAttempts
    && IdleSince(d) + Window(c, d.attempts) + jitter <= now
  }

  lemma MulMonotone(x: int, f: nat, g: nat)
    requires f <= g
    ensures x >= 0 ==> x * f <= x * g
    ensures x < 0 ==> x * f <= 0
  {
    if x >= 0 { MulGrows(x, f, g); }
  }

  /** The window never shrinks as attempts grow, and never falls below the grace period. */
  lemma WindowNeverShrinks(c: Config, attempts: nat)
    requires c.graceSecs >= 0
    ensures c.graceSecs <= Window(c, attempts) <= Window(c, attempts + 1)
  {
    if attempts > 0 {
      Pow2Grows(Min(attempts - 1, 32), Min(attempts, 32));
      MulMonotone(c.initialSecs, Pow2(Min(attempts - 1, 32)), Pow2(Min(attempts, 32)));
      MulMonotone(c.initialSecs, Pow2(Min(attempts, 32)), Pow2(Min(attempts, 32)));
    }
    hide Pow2;
  }

  lemma {:induction false} WindowGrows(c: Config, a: nat, b: nat)
    requires c.graceSecs >= 0 && a <= b
    ensures Window(c, a) <= Window(c, b)
  {
    hide Window;
    if a < b {
      WindowGrows(c, a, b - 1);
      WindowNeverShrinks(c, b - 1);
    }
  }

  /** The window before the first redrive is the grace period; from one attempt on the backoff starts at `initialSecs` and
      doubles up to `maxSecs`, for 32 doublings, but never below the grace period. */
  lemma WindowDoubles(c: Config, attempts: nat)
    requires c.initialSecs >= 0 && c.maxSecs >= 0
    ensures Window(c, 0) == c.graceSecs && Window(c, 1) == Max(c.graceSecs, Min(c.initialSecs, c.maxSecs))
    ensures attempts >= 1 ==> Window(c, attempts) == Max(c.graceSecs, Backoff(c, attempts))
    ensures 1 <= attempts <= 32 ==> Backoff(c, attempts + 1) == Min(2 * Backoff(c, attempts), c.maxSecs)
    ensures attempts >= 33 ==> Backoff(c, attempts + 1) == Backoff(c, attempts)
  {
    assert Pow2(0) == 1;
    if 1 <= attempts <= 32 {
      assert Pow2(attempts) == 2 * Pow2(attempts - 1);
      Half(c.initialSecs, Pow2(attempts - 1));
    }
    hide Pow2;
  }

  /** On the fields: a row is eligible when it is not delivered, has attempts left, and has been idle since its last attempt,
      or since it was recorded, for its window and the jitter. */
  lemma EligibleIff(c: Config, d: Delivery, jitter: nat, now: int)
    ensures Eligible(c, d, jitter, now) <==>
              && d.status != Delivered && d.attempts < c.maxAttempts
              && (d.lastAttempt.Some? ==> d.lastAttempt.value + Window(c, d.attempts) + jitter <= now)
              && (d.lastAttempt.None? ==> d.createdAt + Window(c, d.attempts) + jitter <= now)
  {
    hide Window;
  }

  // ----- passes -----

  /** One HTTP request of a redrive: when it was sent, and the attempts its row had before. */
  datatype Sent = Sent(id: string, at: int, attempts: nat)

  /** `inline` holds the rows whose inline delivery is running, and `pass` the rows that the pass listed at `passAt` has
      still to handle, as they were read. */
  datatype State = State(
    rows: map<string, Delivery>, inline: set<string>, pass: map<string, Delivery>, passAt: int, clock: int, log: seq<Sent>)

  datatype Answer = Blocked | Success | Failure

  datatype Action =
    | Record(id: string)
    | InlineEnds(id: string, status: DeliveryStatus, attempts: nat)
    | InlineDies(id: string)
    | ListRows(jitter: map<string, nat>)
    | RedriveOne(id: string, sentAt: int, answer: Answer)
    | Requeue(ids: set<string>)
    | Tick(now: int)

  predicate Enabled(c: Config, s: State, a: Action) {
    match a
    case Record(id) => id !in s.rows
    case InlineEnds(id, _, _) => id in s.rows && id in s.inline
    case InlineDies(id) => id in s.inline
    case ListRows(jitter) => s.pass == map[] && forall id :: id in s.rows ==> id in jitter && jitter[id] <= c.jitterSecs
    case RedriveOne(id, sentAt, _) => id in s.pass && id in s.rows && s.passAt <= sentAt <= s.clock
    case Requeue(ids) => true
    case Tick(now) => s.clock <= now && forall id :: id in s.inline && id in s.rows ==> now <= s.rows[id].createdAt + c.inlineSecs
  }

  /** The row that `redrive_one` writes. */
  function Redriven(c: Config, d: Delivery, row: Delivery, answer: Answer, now: int): Delivery {
    match answer
    case Blocked => row.(status := Failed, attempts := d.attempts, lastAttempt := Some(now))
    case Success => row.(status := Delivered, attempts := d.attempts + 1, lastAttempt := Some(now))
    case Failure =>
      row.(status := if d.attempts + 1 >= c.maxAttempts then Failed else Pending, attempts := d.attempts + 1, lastAttempt := Some(now))
  }

  function Requeued(row: Delivery): Delivery {
    if row.status == Failed then row.(status := Pending, attempts := 0) else row
  }

  function Apply(c: Config, s: State, a: Action): State
    requires Enabled(c, s, a)
  {
    match a
    case Record(id) => s.(rows := s.rows[id := Delivery(Pending, 0, None, s.clock)], inline := s.inline + {id})
    case InlineEnds(id, status, attempts) =>
      s.(rows := s.rows[id := s.rows[id].(status := status, attempts := attempts, lastAttempt := Some(s.clock))],
         inline := s.inline - {id})
    case InlineDies(id) => s.(inline := s.inline - {id})
    case ListRows(jitter) =>
      s.(pass := map id | id in s.rows && Eligible(c, s.rows[id], jitter[id], s.clock) :: s.rows[id], passAt := s.clock)
    case RedriveOne(id, sentAt, answer) =>
      s.(rows := s.rows[id := Redriven(c, s.pass[id], s.rows[id], answer, s.clock)], pass := s.pass - {id},
         log := if answer.Blocked? then s.log else s.log + [Sent(id, sentAt, s.pass[id].attempts)])
    case Requeue(ids) => s.(rows := map id | id in s.rows :: if id in ids then Requeued(s.rows[id]) else s.rows[id])
    case Tick(now) => s.(clock := now)
  }

  /** A worker starts on whatever the table holds. */
  predicate Initial(s: State) { s.pass == map[] && s.log == [] && s.inline == {} }

  ghost predicate Next(c: Config, s: State, s': State) { exists a: Action :: Enabled(c, s, a) && s' == Apply(c, s, a) }

  ghost predicate IsRun(c: Config, run: seq<State>) {
    run != [] && Initial(run[0]) && forall i :: 0 <= i < |run| - 1 ==> Next(c, run[i], run[i + 1])
  }

  // ----- the invariant -----

  /** When a row was listed, the window since every request for it was over. */
  predicate PassOk(c: Config, s: State) {
    forall id :: id in s.pass ==>
      && id in s.rows && s.pass[id].attempts < c.maxAttempts && s.passAt <= s.clock
      && forall e :: e in s.log && e.id == id ==> e.at + Window(c, s.pass[id].attempts) <= s.passAt
  }

  /** No request was sent after the attempt that its row remembers. */
  predicate LogOk(s: State) {
    forall e :: e in s.log ==>
      e.id in s.rows && s.rows[e.id].lastAttempt.Some? && e.at <= s.rows[e.id].lastAttempt.value <= s.clock
  }

  /** Each request came a full window after every earlier one for its row. */
  ghost predicate Spaced(c: Config, log: seq<Sent>) {
    forall i, j :: 0 <= i < j < |log| && log[i].id == log[j].id ==> log[i].at + Window(c, log[j].attempts) <= log[j].at
  }

  ghost predicate Inv(c: Config, s: State) { PassOk(c, s) && LogOk(s) && Spaced(c, s.log) }

  lemma SpacedSnoc(c: Config, log: seq<Sent>, e: Sent)
    requires Spaced(c, log) && forall o :: o in log && o.id == e.id ==> o.at + Window(c, e.attempts) <= e.at
    ensures Spaced(c, log + [e])
  {
    hide Window;
    forall i, j | 0 <= i < j < |log + [e]| && (log + [e])[i].id == (log + [e])[j].id
      ensures (log + [e])[i].at + Window(c, (log + [e])[j].attempts) <= (log + [e])[j].at
    {
      assert (log + [e])[i] in log;
    }
  }

  lemma InvKept(c: Config, s: State, a: Action)
    requires Inv(c, s) && Enabled(c, s, a)
    ensures Inv(c, Apply(c, s, a))
  {
    hide Window, Spaced;
    if a.RedriveOne? && !a.answer.Blocked? {
      SpacedSnoc(c, s.log, Sent(a.id, a.sentAt, s.pass[a.id].attempts));
    }
  }

  lemma {:induction false} InvHolds(c: Config, run: seq<State>, i: nat)
    requires IsRun(c, run) && i < |run|
    ensures Inv(c, run[i])
  {
    if i > 0 {
      InvHolds(c, run, i - 1);
      hide Inv, Enabled, Apply;
      assert Next(c, run[i - 1], run[i - 1 + 1]);
      var a: Action :| Enabled(c, run[i - 1], a) && run[i] == Apply(c, run[i - 1], a);
      InvKept(c, run[i - 1], a);
    } else {
      hide Window;
    }
  }

  // ----- what one redrive and one requeue write -----

  /** On the fields: a success ends `Delivered`, a failure ends `Failed` exactly when it was the last attempt and else leaves
      the row `Pending`, and both use up one attempt; a blocked target ends `Failed` and uses up none. The time is recorded
      in every case, and no other row changes. */
  lemma RedriveWrites(c: Config, s: State, id: string, sentAt: int, answer: Answer)
    requires Enabled(c, s, RedriveOne(id, sentAt, answer))
    ensures var s' := Apply(c, s, RedriveOne(id, sentAt, answer));
            && id in s'.rows && id !in s'.pass && s'.rows[id].lastAttempt == Some(s.clock) && s'.rows[id].createdAt == s.rows[id].createdAt
            && (answer.Success? ==> s'.rows[id].status == Delivered && s'.rows[id].attempts == s.pass[id].attempts + 1)
            && (answer.Failure? && s.pass[id].attempts + 1 >= c.maxAttempts ==>
                  s'.rows[id].status == Failed && s'.rows[id].attempts == s.pass[id].attempts + 1)
            && (answer.Failure? && s.pass[id].attempts + 1 < c.maxAttempts ==>
                  s'.rows[id].status == Pending && s'.rows[id].attempts == s.pass[id].attempts + 1)
            && (answer.Blocked? ==> s'.rows[id].status == Failed && s'.rows[id].attempts == s.pass[id].attempts)
            && (s'.log == if answer.Blocked? then s.log else s.log + [Sent(id, sentAt, s.pass[id].attempts)])
            && forall o :: o in s.rows && o != id ==> o in s'.rows && s'.rows[o] == s.rows[o]
  {
  }

  /** On the fields: a bulk requeue gives the failed rows it names all their attempts back, and changes nothing else. */
  lemma RequeueWrites(c: Config, s: State, ids: set<string>, id: string)
    requires id in s.rows
    ensures var s' := Apply(c, s, Requeue(ids));
            && id in s'.rows
            && (id in ids && s.rows[id].status == Failed ==>
                  s'.rows[id].status == Pending && s'.rows[id].attempts == 0
                  && (id !in s.pass ==> Left(c, s', id) == c.maxAttempts))
            && (id !in ids || s.rows[id].status != Failed ==> s'.rows[id] == s.rows[id])
  {
  }

  /** A pass lists exactly the rows that are eligible with their jitter. */
  lemma PassLists(c: Config, s: State, jitter: map<string, nat>, id: string)
    requires Enabled(c, s, ListRows(jitter))
    ensures id in Apply(c, s, ListRows(jitter)).pass <==> id in s.rows && Eligible(c, s.rows[id], jitter[id], s.clock)
    ensures id in Apply(c, s, ListRows(jitter)).pass ==> Apply(c, s, ListRows(jitter)).pass[id] == s.rows[id]
  {
    hide Eligible;
  }

  /** A redrive that succeeds is the last thing that happens to its row in any run. */
  lemma {:induction false} SuccessIsFinal(c: Config, run: seq<State>, i: nat, j: nat, id: string, sentAt: int)
    requires IsRun(c, run) && i < j < |run| && Enabled(c, run[i], RedriveOne(id, sentAt, Success))
    requires run[i + 1] == Apply(c, run[i], RedriveOne(id, sentAt, Success)) && id !in run[i].inline
    ensures id in run[j].rows && run[j].rows[id] == run[i + 1].rows[id] && run[j].rows[id].status == Delivered
    ensures id !in run[j].pass && id !in run[j].inline
    decreases j - i
  {
    hide Enabled, Apply, Redriven;
    RedriveWrites(c, run[i], id, sentAt, Success);
    if j == i + 1 {
      RedriveKeepsInline(c, run[i], id, sentAt);
    } else {
      SuccessIsFinal(c, run, i, j - 1, id, sentAt);
      assert Next(c, run[j - 1], run[j - 1 + 1]);
      var a: Action :| Enabled(c, run[j - 1], a) && run[j] == Apply(c, run[j - 1], a);
      DeliveredIsFinal(c, run[j - 1], a, id);
    }
  }

  lemma RedriveKeepsInline(c: Config, s: State, id: string, sentAt: int)
    requires Enabled(c, s, RedriveOne(id, sentAt, Success))
    ensures Apply(c, s, RedriveOne(id, sentAt, Success)).inline == s.inline
  {
  }

  // ----- spacing -----

  /** Any two redrives of a row are at least the window apart that the later one's attempts call for,
      whatever the jitter, and so at least the grace period. */
  lemma RedrivesAreSpaced(c: Config, run: seq<State>, n: nat, i: nat, j: nat)
    requires IsRun(c, run) && n < |run| && i < j < |run[n].log| && run[n].log[i].id == run[n].log[j].id && c.graceSecs >= 0
    ensures run[n].log[i].at + Window(c, run[n].log[j].attempts) <= run[n].log[j].at
    ensures run[n].log[i].at + c.graceSecs <= run[n].log[j].at
  {
    hide IsRun, Window;
    InvHolds(c, run, n);
    WindowNeverShrinks(c, run[n].log[j].attempts);
  }

  // ----- counting -----

  function Sends(log: seq<Sent>, id: string): nat {
    if log == [] then 0 else Sends(log[..|log| - 1], id) + (if log[|log| - 1].id == id then 1 else 0)
  }

  /** The requests that a row may still see: from the attempts read by the pass that is handling it, else from its own. */
  function Left(c: Config, s: State, id: string): int {
    if id in s.pass then c.maxAttempts - s.pass[id].attempts
    else if id in s.rows then c.maxAttempts - s.rows[id].attempts
    else 0
  }

  /** Steps other than a bulk requeue of the row, its inline delivery's own result, and the recording of it. */
  predicate LeavesAlone(a: Action, id: string) { !(a.Requeue? && id in a.ids) && !(a.InlineEnds? && a.id == id) && !(a.Record? && a.id == id) }

  /** Every request uses up exactly one, and nothing else does. */
  lemma RequestUsesOne(c: Config, s: State, a: Action, id: string)
    requires Enabled(c, s, a) && LeavesAlone(a, id)
    ensures Sends(Apply(c, s, a).log, id) + Left(c, Apply(c, s, a), id) == Sends(s.log, id) + Left(c, s, id)
  {
    if a.RedriveOne? && !a.answer.Blocked? {
      var e := Sent(a.id, a.sentAt, s.pass[a.id].attempts);
      assert (s.log + [e])[..|s.log|] == s.log;
    }
    hide Sends, Window;
  }

  lemma MinimumLeft(c: Config, s: State, a: Action, id: string)
    requires Inv(c, s) && Enabled(c, s, a) && LeavesAlone(a, id)
    ensures Left(c, Apply(c, s, a), id) >= Min(0, Left(c, s, id))
  {
    hide Window;
  }

  ghost predicate NextAlone(c: Config, s: State, s': State, id: string) {
    exists a: Action :: Enabled(c, s, a) && LeavesAlone(a, id) && s' == Apply(c, s, a)
  }

  ghost predicate Undisturbed(c: Config, run: seq<State>, i: nat, j: nat, id: string)
    requires j < |run|
  {
    forall k :: i <= k < j ==> NextAlone(c, run[k], run[k + 1], id)
  }

  /** Between two bulk requeues of it a row gets at most as many HTTP redrives as it has attempts left: each one uses up
      exactly one, a redrive that the target check blocks uses up none. */
  lemma {:induction false} AttemptsAreConserved(c: Config, run: seq<State>, i: nat, j: nat, id: string)
    requires IsRun(c, run) && i <= j < |run| && Undisturbed(c, run, i, j, id)
    ensures Sends(run[j].log, id) - Sends(run[i].log, id) == Left(c, run[i], id) - Left(c, run[j], id)
    ensures Left(c, run[j], id) >= Min(0, Left(c, run[i], id))
    ensures Sends(run[j].log, id) - Sends(run[i].log, id) <= Max(0, Left(c, run[i], id))
    decreases j - i
  {
    hide Inv, Enabled, Apply, LeavesAlone, Left, Sends, IsRun;
    if i < j {
      AttemptsAreConserved(c, run, i, j - 1, id);
      InvHolds(c, run, j - 1);
      assert NextAlone(c, run[j - 1], run[j - 1 + 1], id);
      var a: Action :| Enabled(c, run[j - 1], a) && LeavesAlone(a, id) && run[j] == Apply(c, run[j - 1], a);
      RequestUsesOne(c, run[j - 1], a, id);
      MinimumLeft(c, run[j - 1], a, id);
    }
  }

  /** A delivered row is not touched again. */
  lemma DeliveredIsFinal(c: Config, s: State, a: Action, id: string)
    requires Enabled(c, s, a) && id in s.rows && id !in s.pass && id !in s.inline && s.rows[id].status == Delivered
    ensures id in Apply(c, s, a).rows && id !in Apply(c, s, a).pass && Apply(c, s, a).rows[id] == s.rows[id]
    ensures id !in Apply(c, s, a).inline
  {
    hide Window;
  }

  /** A blocked row keeps its attempts: it is picked up again in every later pass that finds its window over. */
  lemma BlockedComesBack(c: Config, s: State, id: string, sentAt: int, now: int, jitter: nat)
    requires PassOk(c, s) && Enabled(c, s, RedriveOne(id, sentAt, Blocked))
    requires now >= s.clock + Window(c, s.pass[id].attempts) + jitter
    ensures Eligible(c, Apply(c, s, RedriveOne(id, sentAt, Blocked)).rows[id], jitter, now)
  {
    hide Window;
  }

  // ----- inline deliveries and passes -----

  /** A row whose inline delivery is running is as it was recorded, and its time is not over. */
  predicate InlineOk(c: Config, s: State) {
    forall id :: id in s.inline ==>
      && id in s.rows && s.rows[id] == Delivery(Pending, 0, None, s.rows[id].createdAt)
      && s.clock <= s.rows[id].createdAt + c.inlineSecs
  }

  predicate Apart(s: State) { forall id :: id in s.inline ==> id !in s.pass }

  lemma ApartKept(c: Config, s: State, a: Action)
    requires c.inlineSecs < c.graceSecs && PassOk(c, s) && InlineOk(c, s) && Apart(s) && Enabled(c, s, a)
    ensures InlineOk(c, Apply(c, s, a)) && Apart(Apply(c, s, a))
  {
    hide Backoff;
  }

  lemma {:induction false} StaysApart(c: Config, run: seq<State>, i: nat)
    requires IsRun(c, run) && c.inlineSecs < c.graceSecs && i < |run|
    ensures InlineOk(c, run[i]) && Apart(run[i])
  {
    if i > 0 {
      StaysApart(c, run, i - 1);
      InvHolds(c, run, i - 1);
      hide InlineOk, Apart, Enabled, Apply, PassOk;
      assert Next(c, run[i - 1], run[i - 1 + 1]);
      var a: Action :| Enabled(c, run[i - 1], a) && run[i] == Apply(c, run[i - 1], a);
      ApartKept(c, run[i - 1], a);
    }
  }

  ghost predicate NeverSentTwiceAtOnce(c: Config) {
    forall run, i: nat :: IsRun(c, run) && i < |run| ==> Apart(run[i])
  }

  /** At the instant at which a delivery that takes as long as the grace period must end, a pass may list its row. */
  lemma TightGraceMeets(c: Config) returns (run: seq<State>)
    requires c.maxAttempts > 0 && 0 <= c.graceSecs <= c.inlineSecs
    ensures IsRun(c, run) && |run| == 4 && !Apart(run[3])
  {
    var s0 := State(map[], {}, map[], 0, 0, []);
    var s1 := Apply(c, s0, Record("d"));
    var s2 := Apply(c, s1, Tick(c.graceSecs));
    assert Enabled(c, s2, ListRows(map["d" := 0]));
    var s3 := Apply(c, s2, ListRows(map["d" := 0]));
    run := [s0, s1, s2, s3];
    assert Next(c, s0, s1) && Next(c, s1, s2) && Next(c, s2, s3);
    assert "d" in s3.inline && "d" in s3.pass;
  }

  /** No pass ever lists a row whose inline delivery is still running if and only if a delivery takes less than the grace
      period. (The start-up check also accepts a budget equal to it, which leaves one instant.) */
  lemma NeverSentTwiceAtOnceIff(c: Config)
    requires c.maxAttempts > 0 && c.graceSecs >= 0
    ensures NeverSentTwiceAtOnce(c) <==> c.inlineSecs < c.graceSecs
  {
    hide Apart, IsRun;
    if c.inlineSecs < c.graceSecs {
      forall run, i: nat | IsRun(c, run) && i < |run| ensures Apart(run[i]) { StaysApart(c, run, i); }
    } else {
      var run := TightGraceMeets(c);
      assert IsRun(c, run) && 3 < |run|;
    }
  }
}
