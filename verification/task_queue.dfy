/** The task queue that entrypoint/main.py and worker/worker.py share through the
    `tasks` table, as a state machine: every database transaction of every process
    is one step, and steps of different processes interleave freely. */
module TaskQueue {
  import opened Collections

  type Uid = nat

  /** Pending, running, done: the column `state`. */
  datatype Status = PD | R | D

  datatype Row = Row(status: Status, createdAt: int)

  /** Where the single worker process stands between two of its transactions. */
  datatype Worker =
    | Down
    | Idle
    | Selected(uid: Uid)
    | Processing(uid: Uid)
    | Recovering(seen: set<Uid>)
    | Cleaning(seen: set<Uid>)

  /** `cancelling` holds the tasks whose disconnected handler has read them as PD and
      has not issued its delete yet. `submitted` and `claims` are histories: every
      uid ever inserted, and the successful claims in order. */
  datatype State = State(
    rows: map<Uid, Row>,
    worker: Worker,
    cancelling: set<Uid>,
    submitted: set<Uid>,
    claims: seq<Uid>,
    newest: int)

  /** One transaction. `ok` tells whether the database accepted the commit; an update by
      the worker of a row that is gone fails whatever `ok` says, all of it, while a
      delete of rows that are gone does not. */
  datatype Event =
    | Submit(uid: Uid, at: int)
    | CancelRead(uid: Uid)
    | CancelDelete(uid: Uid, ok: bool)
    | AdminDelete(uids: set<Uid>)
    | Select(uid: Uid)
    | Claim(ok: bool)
    | Finish(ok: bool)
    | Crash
    | RecoverRead(ok: bool)
    | RecoverCommit(ok: bool)
    | CleanupRead(cutoff: int)
    | CleanupCommit(ok: bool)

  predicate Has(s: State, u: Uid, st: Status) { u in s.rows && s.rows[u].status == st }

  predicate OldestPending(s: State, u: Uid) {
    && Has(s, u, PD)
    && forall v :: v in s.rows && s.rows[v].status == PD ==> s.rows[u].createdAt <= s.rows[v].createdAt
  }

  predicate Enabled(s: State, e: Event) {
    match e
    case Submit(u, _) => u !in s.submitted
    case CancelRead(_) => true
    case CancelDelete(u, _) => u in s.cancelling
    case AdminDelete(_) => true
    case Select(u) => s.worker == Idle && OldestPending(s, u)
    case Claim(_) => s.worker.Selected?
    case Finish(_) => s.worker.Processing?
    case Crash => true
    case RecoverRead(_) => s.worker == Down
    case RecoverCommit(_) => s.worker.Recovering?
    case CleanupRead(_) => s.worker == Idle
    case CleanupCommit(_) => s.worker.Cleaning?
  }

  function WithStatus(rows: map<Uid, Row>, us: set<Uid>, st: Status): (r: map<Uid, Row>)
    ensures r.Keys == rows.Keys
  {
    map u | u in rows :: if u in us then rows[u].(status := st) else rows[u]
  }

  function Next(s: State, e: Event): State
    requires Enabled(s, e)
  {
    match e
    case Submit(u, at) =>
      s.(rows := s.rows[u := Row(PD, at)], submitted := s.submitted + {u}, newest := at)
    case CancelRead(u) =>
      if Has(s, u, PD) then s.(cancelling := s.cancelling + {u}) else s
    case CancelDelete(u, ok) =>
      s.(rows := if ok then s.rows - {u} else s.rows, cancelling := s.cancelling - {u})
    case AdminDelete(us) => s.(rows := s.rows - us)
    case Select(u) => s.(worker := Selected(u))
    case Claim(ok) =>
      var u := s.worker.uid;
      if ok && u in s.rows then
        s.(rows := WithStatus(s.rows, {u}, R), worker := Processing(u), claims := s.claims + [u])
      else s.(worker := Idle)
    case Finish(ok) =>
      s.(rows := if ok then WithStatus(s.rows, {s.worker.uid}, D) else s.rows, worker := Idle)
    case Crash => s.(worker := Down)
    case RecoverRead(ok) =>
      s.(worker := if ok then Recovering(set u | u in s.rows && s.rows[u].status == R) else Idle)
    case RecoverCommit(ok) =>
      s.(rows := if ok && s.worker.seen <= s.rows.Keys then WithStatus(s.rows, s.worker.seen, D) else s.rows,
         worker := Idle)
    case CleanupRead(cutoff) =>
      s.(worker := Cleaning(set u | u in s.rows && s.rows[u].createdAt < cutoff))
    case CleanupCommit(ok) =>
      s.(rows := if ok then s.rows - s.worker.seen else s.rows, worker := Idle)
  }

  predicate Initial(s: State) {
    s.rows == map[] && s.worker == Down && s.cancelling == {} && s.submitted == {} && s.claims == []
  }

  // ----- Runs -------------------------------------------------------------------

  /** es can happen in this order, starting from s. */
  ghost predicate IsRun(s: State, es: seq<Event>)
    decreases |es|
  {
    es == [] || (Enabled(s, es[0]) && IsRun(Next(s, es[0]), es[1..]))
  }

  ghost function After(s: State, es: seq<Event>): State
    requires IsRun(s, es)
    decreases |es|
  {
    if es == [] then s else After(Next(s, es[0]), es[1..])
  }

  lemma {:induction false} RunConcat(s: State, es: seq<Event>, fs: seq<Event>)
    requires IsRun(s, es) && IsRun(After(s, es), fs)
    ensures IsRun(s, es + fs) && After(s, es + fs) == After(After(s, es), fs)
    decreases |es|
  {
    hide Enabled, Next;
    if es == [] {
      assert es + fs == fs;
    } else {
      assert (es + fs)[0] == es[0] && (es + fs)[1..] == es[1..] + fs;
      RunConcat(Next(s, es[0]), es[1..], fs);
    }
  }

  // ----- What every step keeps --------------------------------------------------

  ghost predicate Inv(s: State) {
    && (forall u :: u in s.rows ==> u in s.submitted)
    && (forall u :: u in s.claims ==> u in s.submitted)
    && (forall u :: u in s.rows ==> (s.rows[u].status == PD <==> u !in s.claims))
    && (s.worker.Selected? ==> s.worker.uid in s.submitted && s.worker.uid !in s.claims)
    && (s.worker.Processing? ==> s.worker.uid in s.claims)
    && (s.worker.Recovering? ==> forall u :: u in s.worker.seen ==> u in s.claims)
    && NoDuplicates(s.claims)
  }

  lemma NextKeepsInv(s: State, e: Event)
    requires Inv(s) && Enabled(s, e)
    ensures Inv(Next(s, e))
  {
    if e.Claim? && e.ok && s.worker.uid in s.rows {
      var t := Next(s, e);
      assert forall u :: u in t.claims <==> u in s.claims || u == s.worker.uid;
    }
  }

  function Rank(st: Status): nat { match st case PD => 0 case R => 1 case D => 2 }

  /** What a later state may say about a uid that the earlier one knows. */
  ghost predicate Progress(s: State, t: State) {
    && s.submitted <= t.submitted
    && s.claims <= t.claims
    && (forall u :: u in t.rows && u in s.submitted ==> u in s.rows)
    && (forall u :: u in s.rows ==> u in s.submitted)
    && (forall u :: u in t.rows && u in s.rows ==>
          && t.rows[u].createdAt == s.rows[u].createdAt
          && Rank(s.rows[u].status) <= Rank(t.rows[u].status))
  }

  lemma NextProgresses(s: State, e: Event)
    requires Inv(s) && Enabled(s, e)
    ensures Progress(s, Next(s, e))
    ensures forall u :: u in s.rows && u in Next(s, e).rows ==>
      Rank(Next(s, e).rows[u].status) <= Rank(s.rows[u].status) + 1
    ensures forall u :: u in Next(s, e).rows && u !in s.submitted ==> Next(s, e).rows[u].status == PD
  {}

  lemma {:induction false} RunKeeps(s: State, es: seq<Event>)
    requires Inv(s) && IsRun(s, es)
    ensures Inv(After(s, es)) && Progress(s, After(s, es))
    decreases |es|
  {
    hide Enabled, Next, Inv, Progress;
    if es == [] {
      ProgressReflexive(s);
    } else {
      NextKeepsInv(s, es[0]);
      NextProgresses(s, es[0]);
      RunKeeps(Next(s, es[0]), es[1..]);
      ProgressChains(s, Next(s, es[0]), After(s, es));
    }
  }

  lemma ProgressReflexive(s: State)
    requires Inv(s)
    ensures Progress(s, s)
  {}

  lemma ProgressChains(s: State, m: State, t: State)
    requires Progress(s, m) && Progress(m, t)
    ensures Progress(s, t)
  {
    forall u | u in t.rows && u in s.submitted ensures u in s.rows {
      assert u in m.submitted && u in m.rows;
    }
    forall u | u in t.rows && u in s.rows
      ensures t.rows[u].createdAt == s.rows[u].createdAt
      ensures Rank(s.rows[u].status) <= Rank(t.rows[u].status)
    {
      assert u in s.submitted ==> u in m.rows;
    }
  }

  ghost predicate Reachable(s: State) {
    exists s0, es :: Initial(s0) && IsRun(s0, es) && After(s0, es) == s
  }

  lemma ReachableInv(s: State)
    requires Reachable(s)
    ensures Inv(s)
  {
    var s0, es :| Initial(s0) && IsRun(s0, es) && After(s0, es) == s;
    RunKeeps(s0, es);
  }

  // ----- Life of one task ---------------------------------------------------------

  /** Whatever the other processes do: a task that is gone stays gone, its state only
      moves forward and through R, a finished task stays finished, and no task is
      claimed twice. */
  lemma TaskLifeCycle(s: State, es: seq<Event>, u: Uid)
    requires Reachable(s) && IsRun(s, es) && u in s.submitted
    ensures var t := After(s, es);
      && (u !in s.rows ==> u !in t.rows)
      && (u in s.rows && u in t.rows ==> Rank(s.rows[u].status) <= Rank(t.rows[u].status))
      && (Has(s, u, D) && u in t.rows ==> Has(t, u, D))
      && NoDuplicates(t.claims)
      && s.claims <= t.claims
      && (u in s.claims ==> u !in t.claims[|s.claims|..])
      && (Has(s, u, PD) && Has(t, u, D) ==> Sometime(x => Has(x, u, R), s, es))
  {
    ReachableInv(s);
    RunKeeps(s, es);
    if Has(s, u, PD) && Has(After(s, es), u, D) { RunsBeforeDone(s, es, u); }
    if u in s.claims { ClaimedOnce(s.claims, After(s, es).claims, u); }
  }

  /** P holds in s or after some event of the run. */
  ghost predicate Sometime(P: State -> bool, s: State, es: seq<Event>)
    requires IsRun(s, es)
    decreases |es|
  {
    P(s) || (es != [] && Sometime(P, Next(s, es[0]), es[1..]))
  }

  /** No task goes from pending to done without having run. */
  lemma {:induction false} RunsBeforeDone(s: State, es: seq<Event>, u: Uid)
    requires Inv(s) && IsRun(s, es) && Has(s, u, PD) && Has(After(s, es), u, D)
    ensures Sometime(x => Has(x, u, R), s, es)
    decreases |es|
  {
    var n := Next(s, es[0]);
    NextKeepsInv(s, es[0]);
    NextProgresses(s, es[0]);
    RunKeeps(n, es[1..]);
    assert u in n.rows by {
      assert u in n.submitted;
    }
    hide Enabled, Next, Inv;
    if Has(n, u, PD) {
      RunsBeforeDone(n, es[1..], u);
    } else {
      assert Has(n, u, R);
      var P := (x: State) => Has(x, u, R);
      assert P(n) && Sometime(P, n, es[1..]);
    }
  }

  lemma ClaimedOnce(a: seq<Uid>, b: seq<Uid>, u: Uid)
    requires a <= b && NoDuplicates(b) && u in a
    ensures u !in b[|a|..]
  {
    var i :| 0 <= i < |a| && a[i] == u;
    forall j | |a| <= j < |b| ensures b[j] != u {
      assert b[i] == u;
    }
  }

  // ----- The cancel race ------------------------------------------------------------

  /** A handler deletes its row after having read it as PD, without looking again. The
      row it deletes is still pending exactly if the worker claimed it at no time
      between the read and the delete. */
  lemma CancelDeletesPendingIff(s: State, es: seq<Event>, u: Uid)
    requires Reachable(s) && Has(s, u, PD) && IsRun(s, [CancelRead(u)] + es)
    requires u in After(s, [CancelRead(u)] + es).rows
    ensures var t := After(s, [CancelRead(u)] + es);
      s.claims <= t.claims && (Has(t, u, PD) <==> u !in t.claims[|s.claims|..])
  {
    hide Next, Enabled, Inv, Reachable, IsRun, After;
    ReachableInv(s);
    RunKeeps(s, [CancelRead(u)] + es);
    PendingIffUnclaimed(s, After(s, [CancelRead(u)] + es), u);
  }

  lemma PendingIffUnclaimed(s: State, t: State, u: Uid)
    requires Inv(s) && Inv(t) && Has(s, u, PD) && u in t.rows && s.claims <= t.claims
    ensures Has(t, u, PD) <==> u !in t.claims[|s.claims|..]
  {
    assert t.claims == s.claims + t.claims[|s.claims|..];
  }

  /** Only a task that was pending at some moment of the run comes to be cancelled. */
  lemma {:induction false} CancelledWasPending(s: State, es: seq<Event>, u: Uid)
    requires IsRun(s, es) && u !in s.cancelling && u in After(s, es).cancelling
    ensures Sometime(x => Has(x, u, PD), s, es)
    decreases |es|
  {
    var n := Next(s, es[0]);
    if !Has(s, u, PD) {
      assert u !in n.cancelling;
      hide Enabled, Next;
      CancelledWasPending(n, es[1..], u);
    }
  }

  /** Clients, administrators and crashes come whenever they like. */
  lemma AnyTime(s: State, u: Uid, us: set<Uid>, at: int)
    ensures Enabled(s, CancelRead(u)) && Enabled(s, AdminDelete(us)) && Enabled(s, Crash)
    ensures u !in s.submitted ==> Enabled(s, Submit(u, at))
    ensures Has(s, u, PD) ==> Enabled(Next(s, CancelRead(u)), CancelDelete(u, true))
  {}

  lemma Step(s: State, e: Event) returns (t: State)
    requires Reachable(s) && Enabled(s, e)
    ensures t == Next(s, e) && Reachable(t)
  {
    t := Next(s, e);
    var s0, es :| Initial(s0) && IsRun(s0, es) && After(s0, es) == s;
    hide Enabled, Next;
    assert [e][1..] == [] && IsRun(t, []) && After(t, []) == t;
    assert IsRun(s, [e]) && After(s, [e]) == t;
    RunConcat(s0, es, [e]);
  }

  /** A queue with the tasks 1 and 2 pending and the worker idle. */
  lemma TwoPending() returns (s: State)
    ensures Reachable(s)
    ensures s == State(map[1 := Row(PD, 1), 2 := Row(PD, 2)], Idle, {}, {1, 2}, [], 2)
  {
    s := State(map[], Down, {}, {}, [], 0);
    assert IsRun(s, []) && After(s, []) == s;
    s := Step(s, RecoverRead(true));
    s := Step(s, RecoverCommit(true));
    assert s.rows == map[];
    s := Step(s, Submit(1, 1));
    s := Step(s, Submit(2, 2));
  }

  /** So a cancel can delete the row of a task that is being transmitted. */
  lemma CancelCanDeleteRunning() returns (s: State, u: Uid)
    ensures Reachable(s) && Has(s, u, R) && Enabled(s, CancelDelete(u, true))
    ensures u !in Next(s, CancelDelete(u, true)).rows
  {
    u := 1;
    s := TwoPending();
    s := Step(s, CancelRead(1));
    s := Step(s, Select(1));
    s := Step(s, Claim(true));
  }

  // ----- One task on the air ----------------------------------------------------------

  ghost predicate AtMostOneRunning(s: State) {
    forall u, v :: Has(s, u, R) && Has(s, v, R) ==> u == v
  }

  ghost predicate RunningAccounted(s: State) {
    && AtMostOneRunning(s)
    && (s.worker.Processing? ==> forall u :: Has(s, u, R) ==> u == s.worker.uid)
    && (s.worker.Idle? || s.worker.Selected? || s.worker.Cleaning? ==> forall u :: !Has(s, u, R))
    && (s.worker.Recovering? ==>
          && (forall u :: Has(s, u, R) ==> u in s.worker.seen)
          && (forall u, v :: u in s.worker.seen && v in s.worker.seen ==> u == v))
  }

  /** A transaction that leaves no task behind in R: one that would take the row from R
      succeeds, unless there is nothing in R for it to take. */
  ghost predicate Harmless(s: State, e: Event)
    requires Enabled(s, e)
  {
    match e
    case Finish(ok) => ok || !Has(s, s.worker.uid, R)
    case RecoverRead(ok) => ok || forall u :: !Has(s, u, R)
    case RecoverCommit(ok) =>
      (ok && s.worker.seen <= s.rows.Keys) || forall u :: u in s.worker.seen ==> !Has(s, u, R)
    case _ => true
  }

  /** Exactly the harmless transactions keep every running task accounted for. */
  lemma NextKeepsAccount(s: State, e: Event)
    requires Enabled(s, e) && RunningAccounted(s)
    ensures RunningAccounted(Next(s, e)) <==> Harmless(s, e)
  {
    var t := Next(s, e);
    if e.Claim? && t != s.(worker := Idle) {
      assert forall u :: Has(t, u, R) ==> u == s.worker.uid || Has(s, u, R);
    } else {
      assert forall u :: Has(t, u, R) ==> Has(s, u, R);
      if e.RecoverRead? {
        assert e.ok ==> forall u :: u in t.worker.seen ==> Has(s, u, R);
      }
      if !Harmless(s, e) {
        assert t.rows == s.rows && t.worker == Idle;
        var u :| Has(s, u, R) && (e.Finish? ==> u == s.worker.uid);
        assert Has(t, u, R);
      }
    }
  }

  ghost predicate AllHarmless(s: State, es: seq<Event>)
    requires IsRun(s, es)
    decreases |es|
  {
    es == [] || (Harmless(s, es[0]) && AllHarmless(Next(s, es[0]), es[1..]))
  }

  /** P holds in s and after every event of the run. */
  ghost predicate Throughout(P: State -> bool, s: State, es: seq<Event>)
    requires IsRun(s, es)
    decreases |es|
  {
    P(s) && (es == [] || Throughout(P, Next(s, es[0]), es[1..]))
  }

  /** Over a run every running task stays accounted for exactly if every transaction was
      harmless. */
  lemma {:induction false} AccountedIff(s: State, es: seq<Event>)
    requires RunningAccounted(s) && IsRun(s, es)
    ensures Throughout(RunningAccounted, s, es) <==> AllHarmless(s, es)
    decreases |es|
  {
    hide Enabled, Next, Harmless, RunningAccounted;
    if es != [] {
      NextKeepsAccount(s, es[0]);
      if Harmless(s, es[0]) {
        AccountedIff(Next(s, es[0]), es[1..]);
      } else {
        assert !RunningAccounted(Next(s, es[0]));
      }
    }
  }

  /** And then at most one row is ever in state R. */
  lemma {:induction false} OneTaskOnTheAir(s: State, es: seq<Event>)
    requires RunningAccounted(s) && IsRun(s, es) && AllHarmless(s, es)
    ensures Throughout(AtMostOneRunning, s, es)
    decreases |es|
  {
    hide Enabled, Next, RunningAccounted, Harmless, AtMostOneRunning;
    AccountIsBound(s);
    if es != [] {
      NextKeepsAccount(s, es[0]);
      OneTaskOnTheAir(Next(s, es[0]), es[1..]);
    }
  }

  /** No claim succeeds while another row is in R. */
  ghost predicate ClaimsOneByOne(s: State, es: seq<Event>)
    requires IsRun(s, es)
    decreases |es|
  {
    es == [] || (&& (ClaimSucceeds(s, es[0]) ==> forall u :: Has(s, u, R) ==> u == s.worker.uid)
                 && ClaimsOneByOne(Next(s, es[0]), es[1..]))
  }

  /** A second row in R appears exactly with a claim that succeeds over a running one. */
  lemma {:induction false} SecondTaskIff(s: State, es: seq<Event>)
    requires AtMostOneRunning(s) && IsRun(s, es)
    ensures Throughout(AtMostOneRunning, s, es) <==> ClaimsOneByOne(s, es)
    decreases |es|
  {
    if es != [] {
      NextRunning(s, es[0]);
      hide Enabled, Next, AtMostOneRunning, ClaimSucceeds;
      if AtMostOneRunning(Next(s, es[0])) {
        SecondTaskIff(Next(s, es[0]), es[1..]);
      }
    }
  }

  lemma NextRunning(s: State, e: Event)
    requires Enabled(s, e) && AtMostOneRunning(s)
    ensures AtMostOneRunning(Next(s, e)) <==> (ClaimSucceeds(s, e) ==> forall u :: Has(s, u, R) ==> u == s.worker.uid)
  {
    var t := Next(s, e);
    if ClaimSucceeds(s, e) {
      assert Has(t, s.worker.uid, R);
      assert forall u :: u != s.worker.uid ==> (Has(t, u, R) <==> Has(s, u, R));
    } else {
      assert forall u :: Has(t, u, R) ==> Has(s, u, R);
    }
  }

  /** Rows that are gone do no harm: whatever clients, administrators and clean-up delete
      and wherever the worker crashes, only a failing database can leave a task behind. */
  lemma {:induction false} MissingRowsAreHarmless(s: State, es: seq<Event>)
    requires RunningAccounted(s) && IsRun(s, es)
    requires Claim(false) !in es && Finish(false) !in es && RecoverRead(false) !in es && RecoverCommit(false) !in es
    ensures AllHarmless(s, es)
    decreases |es|
  {
    if es != [] {
      assert es[0] in es;
      assert Harmless(s, es[0]) by {
        if es[0].RecoverCommit? && !(s.worker.seen <= s.rows.Keys) {
          var u :| u in s.worker.seen && u !in s.rows;
        }
      }
      NextKeepsAccount(s, es[0]);
      assert forall e :: e in es[1..] ==> e in es;
      hide Enabled, Next, RunningAccounted, Harmless;
      MissingRowsAreHarmless(Next(s, es[0]), es[1..]);
    }
  }

  lemma AccountIsBound(s: State)
    requires RunningAccounted(s)
    ensures AtMostOneRunning(s)
  {}

  lemma OneTaskOnTheAirFromStart(s0: State, es: seq<Event>)
    requires Initial(s0) && IsRun(s0, es)
    requires Claim(false) !in es && Finish(false) !in es && RecoverRead(false) !in es && RecoverCommit(false) !in es
    ensures Throughout(AtMostOneRunning, s0, es)
  {
    MissingRowsAreHarmless(s0, es);
    OneTaskOnTheAir(s0, es);
  }

  /** The condition is needed: one failing finish commit leaves a row in R behind,
      and the worker goes on to claim the next task. */
  lemma FailedFinishLeavesTwoRunning() returns (s: State)
    ensures Reachable(s) && s.rows == map[1 := Row(R, 1), 2 := Row(R, 2)]
  {
    s := TwoPending();
    s := Step(s, Select(1));
    s := Step(s, Claim(true));
    s := Step(s, Finish(false));
    assert s.rows == map[1 := Row(R, 1), 2 := Row(PD, 2)];
    s := Step(s, Select(2));
    s := Step(s, Claim(true));
  }

  // ----- First come, first served -------------------------------------------------------

  /** created_at stamps increase from submit to submit. */
  ghost predicate OnTime(s: State, es: seq<Event>)
    requires IsRun(s, es)
    decreases |es|
  {
    es == [] || ((es[0].Submit? ==> es[0].at > s.newest) && OnTime(Next(s, es[0]), es[1..]))
  }

  ghost predicate InOrder(s: State) {
    && (forall u :: u in s.rows ==> s.rows[u].createdAt <= s.newest)
    && (forall u, v :: u in s.rows && v in s.rows && u != v ==> s.rows[u].createdAt != s.rows[v].createdAt)
    && (forall u, v :: u in s.rows && v in s.rows && s.rows[u].status != PD && s.rows[v].status == PD ==>
          s.rows[u].createdAt < s.rows[v].createdAt)
    && (s.worker.Selected? && s.worker.uid in s.rows ==> OldestPending(s, s.worker.uid))
  }

  /** Rows may have gone, but those left kept their stamp and whether they are pending. */
  ghost predicate RowsShrink(s: State, t: State) {
    && s.newest == t.newest
    && forall u :: u in t.rows ==>
         && u in s.rows && t.rows[u].createdAt == s.rows[u].createdAt
         && (t.rows[u].status == PD <==> s.rows[u].status == PD)
  }

  predicate ClaimSucceeds(s: State, e: Event) { e.Claim? && e.ok && s.worker.Selected? && s.worker.uid in s.rows }

  lemma NextShrinks(s: State, e: Event)
    requires Inv(s) && Enabled(s, e) && !e.Submit? && !ClaimSucceeds(s, e)
    ensures RowsShrink(s, Next(s, e)) && Next(s, e).claims == s.claims
    ensures Next(s, e).worker.Selected? ==>
      (e.Select? && OldestPending(s, Next(s, e).worker.uid)) || s.worker == Next(s, e).worker
  {}

  lemma ShrinkKeepsOrder(s: State, t: State)
    requires InOrder(s) && RowsShrink(s, t)
    requires t.worker.Selected? ==> s.worker == t.worker || OldestPending(s, t.worker.uid)
    ensures InOrder(t)
  {}

  lemma SubmitKeepsOrder(s: State, u: Uid, at: int)
    requires Inv(s) && InOrder(s) && Enabled(s, Submit(u, at)) && at > s.newest
    ensures InOrder(Next(s, Submit(u, at)))
  {}

  lemma ClaimKeepsOrder(s: State)
    requires InOrder(s) && Enabled(s, Claim(true)) && s.worker.uid in s.rows
    ensures InOrder(Next(s, Claim(true)))
  {}

  lemma NextKeepsOrder(s: State, e: Event)
    requires Inv(s) && InOrder(s) && Enabled(s, e) && (e.Submit? ==> e.at > s.newest)
    ensures InOrder(Next(s, e))
  {
    if e.Submit? {
      SubmitKeepsOrder(s, e.uid, e.at);
    } else if ClaimSucceeds(s, e) {
      ClaimKeepsOrder(s);
    } else {
      hide InOrder, Inv, Next, RowsShrink, OldestPending;
      NextShrinks(s, e);
      ShrinkKeepsOrder(s, Next(s, e));
    }
  }

  lemma {:induction false} RunKeepsOrder(s: State, es: seq<Event>)
    requires Inv(s) && InOrder(s) && IsRun(s, es) && OnTime(s, es)
    ensures InOrder(After(s, es))
    decreases |es|
  {
    hide Enabled, Next, Inv, InOrder;
    if es != [] {
      NextKeepsInv(s, es[0]);
      NextKeepsOrder(s, es[0]);
      RunKeepsOrder(Next(s, es[0]), es[1..]);
    }
  }

  /** The pending tasks submitted before `at`: `queue_position` is their number. */
  function Ahead(s: State, at: int): set<Uid> {
    set v | v in s.rows && s.rows[v].status == PD && s.rows[v].createdAt < at
  }

  function Position(s: State, u: Uid): nat
    requires u in s.rows
  {
    |Ahead(s, s.rows[u].createdAt)|
  }

  /** The task that a claim commit puts on the air is the oldest pending one at that
      moment, not only when it was selected. */
  lemma ClaimsTheOldest(s0: State, es: seq<Event>)
    requires Initial(s0) && IsRun(s0, es) && OnTime(s0, es)
    requires var s := After(s0, es); s.worker.Selected? && s.worker.uid in s.rows
    ensures var s := After(s0, es); Ahead(s, s.rows[s.worker.uid].createdAt) == {}
  {
    RunKeeps(s0, es);
    RunKeepsOrder(s0, es);
  }

  /** Once a task runs or is done, its queue position is 0. */
  lemma PositionZeroOnceClaimed(s: State, u: Uid)
    requires InOrder(s) && u in s.rows && s.rows[u].status != PD
    ensures Position(s, u) == 0
  {
    assert Ahead(s, s.rows[u].createdAt) == {};
  }

  /** The next task to be claimed is the pending one at position 0. */
  lemma PositionZeroIffOldest(s: State, u: Uid)
    requires Has(s, u, PD)
    ensures Position(s, u) == 0 <==> OldestPending(s, u)
  {
    if Position(s, u) != 0 {
      var v :| v in Ahead(s, s.rows[u].createdAt);
    } else {
      forall v | Has(s, v, PD) ensures s.rows[u].createdAt <= s.rows[v].createdAt {
        assert v !in Ahead(s, s.rows[u].createdAt);
      }
    }
  }

  function Pending(s: State): set<Uid> { set u | u in s.rows && s.rows[u].status == PD }

  /** And the positions of the pending tasks are 0, 1, 2, ... in the order of submission:
      they ascend, and stay below the number of pending tasks. */
  lemma PositionsAscend(s: State, u: Uid, v: Uid)
    requires Has(s, u, PD) && Has(s, v, PD)
    ensures s.rows[u].createdAt < s.rows[v].createdAt ==> Position(s, u) < Position(s, v)
    ensures Position(s, v) < |Pending(s)|
  {
    var a, b := Ahead(s, s.rows[u].createdAt), Ahead(s, s.rows[v].createdAt);
    if s.rows[u].createdAt < s.rows[v].createdAt {
      SubsetSize(a + {u}, b);
      assert |a + {u}| == |a| + 1;
    }
    SubsetSize(b + {v}, Pending(s));
    assert |b + {v}| == |b| + 1;
  }

  lemma SubsetSize<T>(a: set<T>, b: set<T>)
    requires a <= b
    ensures |a| <= |b|
  {
    assert b == a + (b - a);
  }

  lemma ShrinkAhead(s: State, t: State, at: int)
    requires RowsShrink(s, t)
    ensures Ahead(t, at) <= Ahead(s, at)
  {}

  lemma ClaimAhead(s: State, u: Uid)
    requires InOrder(s) && Enabled(s, Claim(true)) && s.worker.uid in s.rows && u in s.rows
    ensures var t, v, at := Next(s, Claim(true)), s.worker.uid, s.rows[u].createdAt;
      && t.claims == s.claims + [v] && u in t.rows && t.rows[u].createdAt == at
      && Ahead(t, at) == Ahead(s, at) - {v}
      && (t.rows[u].status == PD ==> v in Ahead(s, at))
  {}

  lemma SubmitAhead(s: State, u: Uid, at: int, a: int)
    requires Enabled(s, Submit(u, at)) && Inv(s) && a <= s.newest < at
    ensures Ahead(Next(s, Submit(u, at)), a) == Ahead(s, a)
  {}

  lemma OneStepAhead(s: State, e: Event, u: Uid)
    requires Inv(s) && InOrder(s) && Enabled(s, e) && (e.Submit? ==> e.at > s.newest)
    requires u in s.rows && u in Next(s, e).rows
    ensures var t := Next(s, e);
      && Position(t, u) <= Position(s, u)
      && (t.rows[u].status == PD ==> Position(t, u) + |t.claims| <= Position(s, u) + |s.claims|)
  {
    var t, at := Next(s, e), s.rows[u].createdAt;
    NextProgresses(s, e);
    if e.Submit? {
      SubmitAhead(s, e.uid, e.at, at);
    } else if ClaimSucceeds(s, e) {
      ClaimAhead(s, u);
      SubsetSize(Ahead(t, at), Ahead(s, at));
    } else {
      NextShrinks(s, e);
      ShrinkAhead(s, t, at);
      SubsetSize(Ahead(t, at), Ahead(s, at));
    }
  }

  /** Overtaking is bounded: as long as a task at position p is pending, its position
      falls by at least one with every successful claim, so after p + 1 claims it
      has been claimed or removed. The position never grows, and the status never
      goes back; a claimed task shows position 0. */
  lemma {:induction false} QueueAdvances(s: State, es: seq<Event>, u: Uid)
    requires Inv(s) && InOrder(s) && IsRun(s, es) && OnTime(s, es)
    requires u in s.rows && u in After(s, es).rows
    ensures var t := After(s, es);
      && Position(t, u) <= Position(s, u)
      && Rank(s.rows[u].status) <= Rank(t.rows[u].status)
      && (t.rows[u].status == PD ==> Position(t, u) + (|t.claims| - |s.claims|) <= Position(s, u))
      && (t.rows[u].status != PD ==> Position(t, u) == 0)
    decreases |es|
  {
    hide Enabled, Next, Inv, InOrder, Position;
    RunKeepsOrder(s, es);
    RunKeeps(s, es);
    if es == [] {
      if s.rows[u].status != PD { PositionZeroOnceClaimed(s, u); }
    } else {
      var n := Next(s, es[0]);
      NextKeepsInv(s, es[0]);
      NextProgresses(s, es[0]);
      NextKeepsOrder(s, es[0]);
      RunKeeps(n, es[1..]);
      InvSubmitted(s, u);
      OneStepAhead(s, es[0], u);
      QueueAdvances(n, es[1..], u);
    }
  }

  lemma InvSubmitted(s: State, u: Uid)
    requires Inv(s) && u in s.rows
    ensures u in s.submitted
  {}

  /** First come, first served, from an empty queue on: after p + 1 further claims a
      task that was at position p is not pending any more; and whatever a client has
      been shown of its task at one time and is shown later, the position has not
      grown, the status has not gone back, and a claimed task is at position 0. */
  lemma FirstComeFirstServed(s0: State, es: seq<Event>, fs: seq<Event>, u: Uid)
    requires Initial(s0) && IsRun(s0, es) && OnTime(s0, es)
    requires IsRun(After(s0, es), fs) && OnTime(After(s0, es), fs)
    requires u in After(s0, es).rows
    ensures var s, t := After(s0, es), After(After(s0, es), fs);
      && (|t.claims| > |s.claims| + Position(s, u) ==> !Has(t, u, PD))
      && (u in t.rows ==>
            && Position(t, u) <= Position(s, u)
            && Rank(s.rows[u].status) <= Rank(t.rows[u].status)
            && (t.rows[u].status != PD ==> Position(t, u) == 0))
  {
    RunKeeps(s0, es);
    RunKeepsOrder(s0, es);
    if u in After(After(s0, es), fs).rows { QueueAdvances(After(s0, es), fs, u); }
  }
}
