/** The programs that run against the task table: the worker's poll, recovery and
    cleanup (worker/worker.py) and the cancel and status loops of the connection
    handler (entrypoint/main.py). Between two of its transactions every other
    process may run any number of its own. */
module TaskProcesses {
  import opened Collections
  import opened TaskQueue

  /** Steps of connection handlers and administrators. */
  predicate ByClient(e: Event) { e.Submit? || e.CancelRead? || e.CancelDelete? || e.AdminDelete? }

  predicate NotCancelOf(e: Event, u: Uid) { !(e.CancelDelete? && e.uid == u) }

  /** What client steps leave alone: the worker, its claims, and the rows that remain. */
  lemma {:induction false} ClientsKeep(s: State, es: seq<Event>)
    requires Inv(s) && IsRun(s, es) && forall e :: e in es ==> ByClient(e)
    ensures var t := After(s, es);
      && t.worker == s.worker && t.claims == s.claims && s.submitted <= t.submitted
      && forall u :: u in t.rows && u in s.submitted ==> u in s.rows && t.rows[u] == s.rows[u]
    decreases |es|
  {
    if es != [] {
      NextKeepsInv(s, es[0]);
      ClientStepKeeps(s, es[0]);
      hide Enabled, Next, Inv;
      ClientsKeep(Next(s, es[0]), es[1..]);
    }
  }

  /** A deletion of u that the database accepts. */
  predicate Deletes(e: Event, u: Uid) {
    (e.CancelDelete? && e.uid == u && e.ok) || (e.AdminDelete? && u in e.uids)
  }

  predicate DeletedBy(es: seq<Event>, u: Uid) { exists e :: e in es && Deletes(e, u) }

  /** Of the rows that were there, clients leave exactly those that they do not delete. */
  lemma {:induction false} ClientsDelete(s: State, es: seq<Event>, u: Uid)
    requires Inv(s) && IsRun(s, es) && (forall e :: e in es ==> ByClient(e)) && u in s.rows
    ensures u in After(s, es).rows <==> !DeletedBy(es, u)
    decreases |es|
  {
    if es != [] {
      var n, rest := Next(s, es[0]), es[1..];
      assert ByClient(es[0]) && u in s.submitted && forall e :: e in es <==> e == es[0] || e in rest;
      NextKeepsInv(s, es[0]);
      ClientsKeep(n, rest);
      assert u in n.rows <==> !Deletes(es[0], u);
      hide Enabled, Next, Inv, Deletes, ByClient;
      if u in n.rows { ClientsDelete(n, rest, u); }
    }
  }

  lemma ClientStepKeeps(s: State, e: Event)
    requires Inv(s) && Enabled(s, e) && ByClient(e)
    ensures var t := Next(s, e);
      && t.worker == s.worker && t.claims == s.claims && s.submitted <= t.submitted
      && forall u :: u in t.rows && u in s.submitted ==> u in s.rows && t.rows[u] == s.rows[u]
  {}

  /** As long as u's own handler has not issued its delete, it may still do so. */
  lemma {:induction false} CancelStaysPossible(s: State, es: seq<Event>, u: Uid)
    requires IsRun(s, es) && u in s.cancelling
    requires forall e :: e in es ==> NotCancelOf(e, u)
    ensures u in After(s, es).cancelling
    decreases |es|
  {
    if es != [] {
      assert es[0] in es && u in Next(s, es[0]).cancelling;
      CancelStaysPossible(Next(s, es[0]), es[1..], u);
    }
  }

  lemma SingleStep(s: State, e: Event)
    requires Enabled(s, e) && (e.Submit? ==> e.at > s.newest)
    ensures IsRun(s, [e]) && OnTime(s, [e]) && After(s, [e]) == Next(s, e)
  {
    hide Enabled, Next;
    var t := Next(s, e);
    assert [e][0] == e && [e][1..] == [];
    assert IsRun(t, []) && After(t, []) == t && OnTime(t, []);
  }

  lemma {:induction false} OnTimeConcat(s: State, es: seq<Event>, fs: seq<Event>)
    requires IsRun(s, es) && OnTime(s, es) && IsRun(After(s, es), fs) && OnTime(After(s, es), fs)
    ensures IsRun(s, es + fs) && OnTime(s, es + fs)
    decreases |es|
  {
    hide Enabled, Next;
    RunConcat(s, es, fs);
    if es == [] {
      assert es + fs == fs;
    } else {
      assert (es + fs)[0] == es[0] && (es + fs)[1..] == es[1..] + fs;
      OnTimeConcat(Next(s, es[0]), es[1..], fs);
    }
  }

  lemma {:induction false} OldestExists(s: State, us: set<Uid>) returns (u: Uid)
    requires us != {} && forall v :: v in us ==> v in s.rows
    ensures u in us && forall v :: v in us ==> s.rows[u].createdAt <= s.rows[v].createdAt
    decreases us
  {
    var w :| w in us;
    if us == {w} {
      u := w;
    } else {
      var v := OldestExists(s, us - {w});
      u := if s.rows[w].createdAt <= s.rows[v].createdAt then w else v;
    }
  }

  class Database {
    var state: State
    ghost const start: State
    ghost var trace: seq<Event>

    /** The table is what the recorded run, begun on an empty table, has left; the
        created_at stamps of the run increase. */
    ghost predicate Valid()
      reads this
    {
      Initial(start) && IsRun(start, trace) && OnTime(start, trace) && After(start, trace) == state
    }

    constructor (newest: int)
      ensures Valid() && trace == [] && state.worker == Down
    {
      var s := State(map[], Down, {}, {}, [], newest);
      state, start, trace := s, s, [];
    }

    lemma ValidFacts()
      requires Valid()
      ensures Inv(state) && InOrder(state)
    {
      RunKeeps(start, trace);
      RunKeepsOrder(start, trace);
    }

    /** One transaction of the process at hand. */
    method Do(e: Event)
      requires Valid() && Enabled(state, e) && (e.Submit? ==> e.at > state.newest)
      modifies this
      ensures Valid() && trace == old(trace) + [e] && state == Next(old(state), e)
    {
      SingleStep(state, e);
      state := Next(state, e);
      RunConcat(start, trace, [e]);
      OnTimeConcat(start, trace, [e]);
      trace := trace + [e];
    }

    /** Clients and administrators run in between. The contract is all a caller may
        rely on: any number of client steps. */
    method ClientsRun()
      requires Valid()
      modifies this
      ensures Valid()
      ensures exists es :: IsRun(old(state), es) && (forall e :: e in es ==> ByClient(e)) &&
                trace == old(trace) + es && state == After(old(state), es)
    {
      assert IsRun(state, []) && After(state, []) == state && trace == trace + [];
    }

    /** Everybody but the handler of u runs in between, on time. */
    method OthersRun(u: Uid)
      requires Valid()
      modifies this
      ensures Valid()
      ensures exists es :: IsRun(old(state), es) && OnTime(old(state), es) &&
                (forall e :: e in es ==> NotCancelOf(e, u)) &&
                trace == old(trace) + es && state == After(old(state), es)
    {
      assert IsRun(state, []) && OnTime(state, []) && After(state, []) == state && trace == trace + [];
    }
  }

  // ----- The worker ---------------------------------------------------------------

  /** ORDER BY created_at, first row. */
  method SelectOldest(s: State) returns (u: Option<Uid>)
    ensures u.None? ==> forall v :: !Has(s, v, PD)
    ensures u.Some? ==> OldestPending(s, u.value)
  {
    var pending := set v | v in s.rows && s.rows[v].status == PD;
    if pending == {} {
      assert forall v :: Has(s, v, PD) ==> v in pending;
      return None;
    }
    ghost var w := OldestExists(s, pending);
    assert OldestPending(s, w);
    var v :| v in pending && OldestPending(s, v);
    return Some(v);
  }

  /** poll_and_process. `claimOk` and `finishOk` say whether the database accepts the
      two commits; an exception counts as "no work", as in the main loop. While the server
      runs and a task is pending, an oldest one, u, is selected. It is claimed exactly if
      the commit is accepted and no client has deleted it since (`before`), and work is
      reported exactly if it then reaches D, which again takes an accepted commit and no
      deletion (`during`). */
  method PollAndProcess(db: Database, running: bool, claimOk: bool, finishOk: bool)
    returns (hadWork: bool, ghost u: Uid, ghost before: seq<Event>, ghost during: seq<Event>)
    requires db.Valid() && db.state.worker == Idle
    modifies db
    ensures db.Valid() && db.state.worker == Idle
    ensures !(running && exists v :: Has(old(db.state), v, PD)) ==> !hadWork && db.trace == old(db.trace)
    ensures running && (exists v :: Has(old(db.state), v, PD)) ==>
      && OldestPending(old(db.state), u)
      && (forall e :: e in before ==> ByClient(e)) && (forall e :: e in during ==> ByClient(e))
      && var claimed := claimOk && !DeletedBy(before, u);
         && db.trace == old(db.trace) + [Select(u)] + before + [Claim(claimOk)]
                        + (if claimed then during + [Finish(finishOk)] else [])
         && db.state.claims == old(db.state).claims + (if claimed then [u] else [])
         && (hadWork <==> claimed && finishOk && !DeletedBy(during, u))
         && (hadWork <==> Has(db.state, u, D))
  {
    hadWork, u, before, during := false, 0, [], [];
    if !running { return; }
    db.ValidFacts();
    var found := SelectOldest(db.state);
    if found.None? { return; }
    u := found.value;
    ghost var s0 := db.state;
    db.Do(Select(found.value));
    ghost var s := db.state;
    db.ValidFacts();
    before := WorkerInterlude(db);
    ClientsDelete(s, before, u);
    hide DeletedBy, Inv, InOrder, ByClient;
    db.Do(Claim(claimOk));
    if db.state.worker == Idle {
      NotDone(s0, s, before, db.state, u, claimOk);
      return;
    }
    hadWork, during := FinishClaimed(db, finishOk);
  }

  lemma NotDone(s0: State, s: State, before: seq<Event>, t: State, u: Uid, claimOk: bool)
    requires Inv(s) && Has(s0, u, PD) && s == s0.(worker := Selected(u))
    requires IsRun(s, before) && forall e :: e in before ==> ByClient(e)
    requires After(s, before).worker == Selected(u) && t == Next(After(s, before), Claim(claimOk)) && t.worker == Idle
    ensures !Has(t, u, D)
  {
    ClientsKeep(s, before);
  }

  /** process_f32 and the finishing commit, after a claim. */
  method FinishClaimed(db: Database, finishOk: bool) returns (done: bool, ghost during: seq<Event>)
    requires db.Valid() && db.state.worker.Processing? && Has(db.state, db.state.worker.uid, R)
    modifies db
    ensures db.Valid() && db.state.worker == Idle
    ensures db.trace == old(db.trace) + during + [Finish(finishOk)] && forall e :: e in during ==> ByClient(e)
    ensures db.state.claims == old(db.state).claims
    ensures var u := old(db.state).worker.uid;
      (done <==> finishOk && !DeletedBy(during, u)) && (done <==> Has(db.state, u, D))
  {
    db.ValidFacts();
    ghost var s := db.state;
    during := WorkerInterlude(db);
    var u := db.state.worker.uid;
    ClientsDelete(s, during, u);
    assert u in db.state.rows ==> db.state.rows[u].status == R;
    hide Inv, InOrder, DeletedBy, ByClient;
    done := finishOk && u in db.state.rows;
    db.Do(Finish(finishOk));
  }

  /** Clients run; the worker's place, the claims and the remaining rows stay. */
  method WorkerInterlude(db: Database) returns (ghost es: seq<Event>)
    requires db.Valid()
    modifies db
    ensures db.Valid() && db.trace == old(db.trace) + es
    ensures IsRun(old(db.state), es) && db.state == After(old(db.state), es) && forall e :: e in es ==> ByClient(e)
    ensures db.state.worker == old(db.state).worker && db.state.claims == old(db.state).claims
    ensures forall u :: u in db.state.rows && u in old(db.state).submitted ==>
      u in old(db.state).rows && db.state.rows[u] == old(db.state).rows[u]
  {
    db.ValidFacts();
    ghost var s := db.state;
    db.ClientsRun();
    es :| && IsRun(s, es) && (forall e :: e in es ==> ByClient(e))
          && db.trace == old(db.trace) + es && db.state == After(s, es);
    ClientsKeep(s, es);
  }

  /** What a worker does in two transactions, with clients in between. */
  ghost predicate TwoSteps(before: seq<Event>, after: seq<Event>, first: Event, clients: seq<Event>, last: Event) {
    after == before + [first] + clients + [last] && forall e :: e in clients ==> ByClient(e)
  }

  /** recover_stale_tasks at worker start. If both statements are accepted, no row is left
      in R, unless clients deleted some, and not all, of the stale rows in between: the
      update of a row that is gone fails the whole commit. */
  method RecoverStaleTasks(db: Database, readOk: bool, commitOk: bool) returns (ghost clients: seq<Event>)
    requires db.Valid() && db.state.worker == Down
    modifies db
    ensures db.Valid() && db.state.worker == Idle && db.state.claims == old(db.state).claims
    ensures !readOk ==> db.trace == old(db.trace) + [RecoverRead(false)] && db.state.rows == old(db.state).rows
    ensures readOk ==> TwoSteps(old(db.trace), db.trace, RecoverRead(true), clients, RecoverCommit(commitOk))
    ensures readOk && commitOk ==>
      ((forall u :: !Has(db.state, u, R)) <==>
        || (forall u :: Has(old(db.state), u, R) ==> u in db.state.rows)
        || (forall u :: Has(old(db.state), u, R) ==> u !in db.state.rows))
  {
    db.ValidFacts();
    ghost var before := db.state;
    db.Do(RecoverRead(readOk));
    if !readOk { return []; }
    ghost var s := db.state;
    db.ValidFacts();
    clients := WorkerInterlude(db);
    db.ValidFacts();
    StaleRows(before, s, clients, commitOk);
    db.Do(RecoverCommit(commitOk));
  }

  /** A run to that: two tasks left behind, and one of them deleted while the worker
      recovers. The other stays in R although the database accepts everything. */
  lemma RecoveryLeavesRunning() returns (s: State)
    ensures Reachable(s) && s.worker == Recovering({1, 2})
    ensures 1 !in s.rows && Has(s, 2, R) && Has(Next(s, RecoverCommit(true)), 2, R)
  {
    s := FailedFinishLeavesTwoRunning();
    hide Reachable;
    s := Step(s, Crash);
    s := Step(s, RecoverRead(true));
    assert s.worker.seen == {1, 2};
    s := Step(s, AdminDelete({1}));
  }

  lemma StaleRows(before: State, s: State, clients: seq<Event>, commitOk: bool)
    requires Inv(before) && before.worker == Down && s == Next(before, RecoverRead(true))
    requires Inv(s) && IsRun(s, clients) && forall e :: e in clients ==> ByClient(e)
    ensures After(s, clients).worker.Recovering?
    ensures commitOk ==>
      var t := Next(After(s, clients), RecoverCommit(true));
      ((forall u :: !Has(t, u, R)) <==>
        || (forall u :: Has(before, u, R) ==> u in t.rows)
        || (forall u :: Has(before, u, R) ==> u !in t.rows))
  {
    ClientsKeep(s, clients);
    RunKeeps(s, clients);
    var m := After(s, clients);
    assert forall u :: Has(m, u, R) ==> Has(before, u, R) by {
      forall u | Has(m, u, R) ensures Has(before, u, R) {
        assert u in m.claims && u in s.claims && u in s.submitted;
      }
    }
    assert forall u :: Has(before, u, R) <==> u in s.worker.seen;
    assert forall u :: Has(before, u, R) && u in m.rows ==> Has(m, u, R) && u in s.submitted;
    var t := Next(m, RecoverCommit(true));
    if s.worker.seen <= m.rows.Keys {
      assert forall u :: !Has(t, u, R);
    } else {
      var gone :| gone in s.worker.seen && gone !in m.rows;
      assert t.rows == m.rows && Has(before, gone, R);
      assert forall u :: Has(t, u, R) <==> Has(m, u, R);
      assert forall u :: Has(t, u, R) <==> Has(before, u, R) && u in t.rows;
    }
  }

  /** cleanup_old_tasks: of the rows that were there, exactly those stay that no client
      deleted and that were not expired when they were read or whose deletion failed. */
  method CleanupOldTasks(db: Database, cutoff: int, commitOk: bool) returns (ghost clients: seq<Event>)
    requires db.Valid() && db.state.worker == Idle
    modifies db
    ensures db.Valid() && db.state.worker == Idle && db.state.claims == old(db.state).claims
    ensures TwoSteps(old(db.trace), db.trace, CleanupRead(cutoff), clients, CleanupCommit(commitOk))
    ensures forall u :: u in old(db.state).rows ==>
      (u in db.state.rows <==>
        !DeletedBy(clients, u) && (commitOk ==> old(db.state).rows[u].createdAt >= cutoff))
    ensures forall u :: u in db.state.rows && u in old(db.state).submitted ==>
      u in old(db.state).rows && db.state.rows[u] == old(db.state).rows[u]
  {
    db.ValidFacts();
    ghost var before := db.state;
    db.Do(CleanupRead(cutoff));
    ghost var s := db.state;
    db.ValidFacts();
    clients := WorkerInterlude(db);
    forall u | u in before.rows ensures u in db.state.rows <==> !DeletedBy(clients, u) {
      ClientsDelete(s, clients, u);
    }
    hide DeletedBy, Inv, InOrder;
    db.Do(CleanupCommit(commitOk));
  }

  // ----- The connection handler -----------------------------------------------------

  /** _cancel_pending_task. If it removes a row, that row is still pending exactly if
      the worker did not claim the task after the handler had read it. */
  method CancelPendingTask(db: Database, u: Uid, ok: bool) returns (removed: Option<Row>, ghost others: seq<Event>)
    requires db.Valid() && u in db.state.submitted
    modifies db
    ensures db.Valid() && old(db.state).claims <= db.state.claims
    ensures !Has(old(db.state), u, PD) ==> removed.None? && db.trace == old(db.trace)
    ensures Has(old(db.state), u, PD) ==>
      && db.trace == old(db.trace) + [CancelRead(u)] + others + [CancelDelete(u, ok)]
      && (forall e :: e in others ==> NotCancelOf(e, u)) && (ok ==> u !in db.state.rows)
      && u !in db.state.cancelling
    ensures Has(old(db.state), u, PD) ==>
      && IsRun(old(db.state), [CancelRead(u)]) && IsRun(After(old(db.state), [CancelRead(u)]), others)
      && var m := After(After(old(db.state), [CancelRead(u)]), others);
         removed == if ok && u in m.rows then Some(m.rows[u]) else None
    ensures removed.Some? ==>
      (removed.value.status == PD <==> u !in db.state.claims[|old(db.state).claims|..])
  {
    db.ValidFacts();
    if !Has(db.state, u, PD) { return None, []; }
    ghost var s := db.state;
    SingleStep(s, CancelRead(u));
    db.Do(CancelRead(u));
    ghost var r := db.state;
    db.OthersRun(u);
    ghost var es :| IsRun(r, es) && (forall e :: e in es ==> NotCancelOf(e, u)) &&
                    db.trace == old(db.trace) + [CancelRead(u)] + es && db.state == After(r, es);
    others := es;
    CancelStaysPossible(r, es, u);
    NextKeepsInv(s, CancelRead(u));
    RunKeeps(r, es);
    db.ValidFacts();
    assert db.state.claims == s.claims + db.state.claims[|s.claims|..];
    removed := if ok && u in db.state.rows then Some(db.state.rows[u]) else None;
    db.Do(CancelDelete(u, ok));
  }

  datatype Shown = Shown(status: Status, position: nat)

  /** A status stream no client can be surprised by: the status never goes back, the
      position never grows, and a task that was claimed is at position 0. */
  ghost predicate Monotone(shown: seq<Shown>) {
    && (forall i, j :: 0 <= i < j < |shown| ==>
          Rank(shown[i].status) <= Rank(shown[j].status) && shown[i].position >= shown[j].position)
    && (forall i :: 0 <= i < |shown| ==> shown[i].status != PD ==> shown[i].position == 0)
  }

  /** t is a state that others than the handler of u can reach from s. */
  ghost predicate ReachedByOthers(s: State, t: State, u: Uid) {
    exists es :: IsRun(s, es) && OnTime(s, es) && (forall e :: e in es ==> NotCancelOf(e, u)) && After(s, es) == t
  }

  /** Message i tells status and position in the i-th of these states, each reached from
      the one before. */
  ghost predicate Tells(shown: seq<Shown>, states: seq<State>, u: Uid) {
    && |shown| <= |states|
    && (forall i :: 0 <= i < |shown| ==>
          u in states[i].rows && shown[i] == Shown(states[i].rows[u].status, Position(states[i], u)))
    && (forall i :: 0 <= i < |states| - 1 ==> ReachedByOthers(states[i], states[i + 1], u))
  }

  /** From the submission on, for a client that stays connected for `polls` rounds: the
      message that the task is queued, and one for every round of the status loop, telling
      what the table then says. It ends when the task is done or its row is gone. */
  method WatchTask(db: Database, u: Uid, at: int, polls: nat) returns (shown: seq<Shown>, ghost states: seq<State>)
    requires db.Valid() && u !in db.state.submitted && at > db.state.newest
    modifies db
    ensures db.Valid() && Monotone(shown)
    ensures states != [] && states[0] == Next(old(db.state), Submit(u, at)) && db.state == states[|states| - 1]
    ensures Tells(shown, states, u) && shown != []
    ensures if u in db.state.rows
      then |states| == |shown| && (|shown| == polls + 1 || shown[|shown| - 1].status == D)
      else |states| == |shown| + 1 && |shown| <= polls
    ensures forall i :: 0 <= i < |shown| && shown[i].status == D ==> i == |shown| - 1
  {
    Fresh(db.state, u, at);
    db.Do(Submit(u, at));
    shown, states := [Shown(PD, Position(db.state, u))], [db.state];
    First(shown, db.state, u);
    hide *;
    for n := 0 to polls
      invariant db.Valid() && u in db.state.rows && Monotone(shown)
      invariant |shown| == |states| == n + 1 && Tells(shown, states, u)
      invariant shown[n] == Shown(db.state.rows[u].status, Position(db.state, u))
      invariant states[0] == old(Next(db.state, Submit(u, at))) && states[n] == db.state
      invariant forall i :: 0 <= i < |shown| ==> shown[i].status != D
    {
      ghost var s := db.state;
      var now := Poll(db, u);
      TellsMore(shown, states, u, now, db.state);
      states := states + [db.state];
      if now.None? { return; }
      StreamGrows(shown, now.value);
      shown := shown + [now.value];
      if now.value.status == D { return; }
    }
  }

  lemma Fresh(s: State, u: Uid, at: int)
    requires u !in s.submitted
    ensures Enabled(s, Submit(u, at)) && Has(Next(s, Submit(u, at)), u, PD)
  {}

  lemma First(shown: seq<Shown>, s: State, u: Uid)
    requires Has(s, u, PD) && shown == [Shown(PD, Position(s, u))]
    ensures u in s.rows && s.rows[u].status == PD && Monotone(shown) && Tells(shown, [s], u)
  {}

  /** One round: others run, then the row and its position are read. */
  method Poll(db: Database, u: Uid) returns (now: Option<Shown>)
    requires db.Valid() && u in db.state.rows
    modifies db
    ensures db.Valid() && ReachedByOthers(old(db.state), db.state, u)
    ensures now.Some? <==> u in db.state.rows
    ensures now.Some? ==>
      && now.value == Shown(db.state.rows[u].status, Position(db.state, u))
      && Rank(old(db.state.rows[u].status)) <= Rank(now.value.status)
      && now.value.position <= old(Position(db.state, u)) && (now.value.status != PD ==> now.value.position == 0)
  {
    ghost var s := db.state;
    db.ValidFacts();
    hide Inv, InOrder, Position, Next, Initial;
    db.OthersRun(u);
    ghost var es :| && IsRun(s, es) && OnTime(s, es) && (forall e :: e in es ==> NotCancelOf(e, u))
                    && After(s, es) == db.state;
    hide IsRun, OnTime, After;
    if u !in db.state.rows { return None; }
    QueueAdvances(s, es, u);
    now := Some(Shown(db.state.rows[u].status, Position(db.state, u)));
  }

  lemma TellsMore(shown: seq<Shown>, states: seq<State>, u: Uid, now: Option<Shown>, t: State)
    requires |shown| == |states| > 0 && Tells(shown, states, u) && ReachedByOthers(states[|states| - 1], t, u)
    requires now.Some? ==> u in t.rows && now.value == Shown(t.rows[u].status, Position(t, u))
    ensures Tells(shown, states + [t], u) && (now.Some? ==> Tells(shown + [now.value], states + [t], u))
  {
    hide ReachedByOthers, Position;
  }

  lemma StreamGrows(shown: seq<Shown>, now: Shown)
    requires Monotone(shown) && shown != []
    requires Rank(shown[|shown| - 1].status) <= Rank(now.status)
    requires shown[|shown| - 1].position >= now.position
    requires now.status != PD ==> now.position == 0
    ensures Monotone(shown + [now])
  {}
}
