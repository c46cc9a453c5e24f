/** The life of a load: the loads table, the snapshot pointer and the flip transaction,
    as steps that any number of Loader.Run calls, reapers, crashes and the database
    server take in any order. No step looks at the advisory lock, so everything proved
    here holds when the lock is lost. */
module LoadLifecycle {
  import opened Basics
  import opened LoadReport

  type LoadId = int

  datatype Status = Running | Committed | Failed | Aborted

  /** loads.failure_reason */
  datatype Reason = PipelineError | QualityThreshold | FlipBeginTx | FlipFailed | MarkCommittedFailed
                  | CommitFailed | Stale

  datatype LoadRow = LoadRow(status: Status, startedAt: int, reason: Option<Reason>,
                             total: int, failed: int, stats: Option<Report>)

  /** Where one call of Loader.Run stands. A call whose commit reported an error remembers what it had asked
      the server to commit. */
  datatype Phase =
    | Pipeline
    | Gate(report: Report)
    | InTx(report: Report)
    | Flipped(report: Report)
    | Marked(report: Report)
    | Committing(report: Report)
    | Failing(why: Reason, sent: Option<Report>)
    | Succeeded(report: Report)
    | Stopped(why: Reason, sent: Option<Report>)
    | Crashed

  /** The arguments of MarkCommitted. */
  datatype Mark = Mark(total: int, failed: int, stats: Report)

  /** An open flip transaction: what it read from the pointer when it took the pointer row
      lock, the counters it wrote when it took the load row lock, and whether the client
      has asked for the commit. */
  datatype Tx = Tx(flip: Option<Option<LoadId>>, mark: Option<Mark>, commitSent: bool)

  datatype State = State(
    now: int,
    loads: map<LoadId, LoadRow>,
    current: Option<LoadId>,
    previous: Option<LoadId>,
    workers: map<LoadId, Phase>,
    txs: map<LoadId, Tx>)

  datatype Step =
    | Advance(dt: nat)
    | InsertRunning(id: LoadId)
    | InsertUnseen(id: LoadId)
    | PipelineOk(id: LoadId, report: Report)
    | PipelineErr(id: LoadId)
    | GateRejects(id: LoadId)
    | BeginTx(id: LoadId)
    | BeginTxErr(id: LoadId)
    | Flip(id: LoadId)
    | FlipErr(id: LoadId)
    | MarkCommitted(id: LoadId, total: int, failed: int)
    | MarkCommittedErr(id: LoadId)
    | SendCommit(id: LoadId)
    | ServerCommit(id: LoadId)
    | ServerRollback(id: LoadId)
    | CommitOk(id: LoadId)
    | CommitErr(id: LoadId)
    | MarkFailed(id: LoadId)
    | MarkFailedLost(id: LoadId)
    | MarkAborted(asOf: int, staleAfter: nat)
    | Crash(id: LoadId)

  /** The call of Run has returned. */
  predicate Finished(p: Phase) { p.Succeeded? || p.Stopped? }

  ghost predicate Init(s: State) {
    s.loads == map[] && s.current == None && s.previous == None && s.workers == map[] && s.txs == map[]
  }

  predicate At(s: State, id: LoadId) { id in s.workers && id in s.loads }

  /** The row lock of loads[id] is held by an open transaction. */
  ghost predicate RowLocked(s: State, id: LoadId) { id in s.txs && s.txs[id].mark.Some? }

  ghost predicate PointerFree(s: State, id: LoadId) {
    forall x | x in s.txs && x != id :: s.txs[x].flip.None?
  }

  ghost predicate IsStale(s: State, l: LoadId, cutoff: int) {
    l in s.loads && s.loads[l].status == Running && s.loads[l].startedAt < cutoff
  }

  ghost predicate Enabled(s: State, step: Step) {
    match step
    case Advance(_) => true
    case InsertRunning(id) => id !in s.loads
    case InsertUnseen(id) => id !in s.loads
    case PipelineOk(id, r) => At(s, id) && s.workers[id].Pipeline? && WellFormed(r)
    case PipelineErr(id) => At(s, id) && s.workers[id].Pipeline?
    case GateRejects(id) => At(s, id) && s.workers[id].Gate? && !PassesGate(s.workers[id].report)
    case BeginTx(id) => At(s, id) && s.workers[id].Gate? && PassesGate(s.workers[id].report)
    case BeginTxErr(id) => At(s, id) && s.workers[id].Gate? && PassesGate(s.workers[id].report)
    case Flip(id) => At(s, id) && s.workers[id].InTx? && id in s.txs && PointerFree(s, id)
    case FlipErr(id) => At(s, id) && s.workers[id].InTx?
    case MarkCommitted(id, total, failed) =>
      && At(s, id) && s.workers[id].Flipped? && id in s.txs && s.loads[id].status == Running
      && total == TotalLines(s.workers[id].report) && failed == TotalFailed(s.workers[id].report)
    case MarkCommittedErr(id) => At(s, id) && s.workers[id].Flipped?
    case SendCommit(id) => At(s, id) && s.workers[id].Marked?
    case ServerCommit(id) =>
      && At(s, id) && id in s.txs && s.txs[id].commitSent
      && s.txs[id].flip.Some? && s.txs[id].mark.Some?
    case ServerRollback(id) => id in s.txs
    case CommitOk(id) =>
      At(s, id) && s.workers[id].Committing? && id !in s.txs && s.loads[id].status == Committed
    case CommitErr(id) => At(s, id) && s.workers[id].Committing?
    case MarkFailed(id) => At(s, id) && s.workers[id].Failing? && !RowLocked(s, id)
    case MarkFailedLost(id) => At(s, id) && s.workers[id].Failing?
    case MarkAborted(asOf, staleAfter) =>
      asOf <= s.now && forall l | IsStale(s, l, asOf - staleAfter) :: !RowLocked(s, l)
    case Crash(id) => At(s, id) && !Finished(s.workers[id])
  }

  function Go(s: State, id: LoadId, p: Phase): State { s.(workers := s.workers[id := p]) }

  function Apply(s: State, step: Step): State
    requires Enabled(s, step)
  {
    match step
    case Advance(dt) => s.(now := s.now + dt)
    case InsertRunning(id) => Go(s.(loads := s.loads[id := NewRow(s)]), id, Pipeline)
    case InsertUnseen(id) => s.(loads := s.loads[id := NewRow(s)])
    case PipelineOk(id, r) => Go(s, id, Gate(r))
    case PipelineErr(id) => Go(s, id, Failing(PipelineError, None))
    case GateRejects(id) => Go(s, id, Failing(QualityThreshold, None))
    case BeginTx(id) =>
      Go(s.(txs := s.txs[id := Tx(None, None, false)]), id, InTx(s.workers[id].report))
    case BeginTxErr(id) => Go(s, id, Failing(FlipBeginTx, None))
    case Flip(id) =>
      Go(s.(txs := s.txs[id := s.txs[id].(flip := Some(s.current))]), id, Flipped(s.workers[id].report))
    case FlipErr(id) => Go(s, id, Failing(FlipFailed, None))
    case MarkCommitted(id, total, failed) =>
      var r := s.workers[id].report;
      Go(s.(txs := s.txs[id := s.txs[id].(mark := Some(Mark(total, failed, r)))]), id, Marked(r))
    case MarkCommittedErr(id) => Go(s, id, Failing(MarkCommittedFailed, None))
    case SendCommit(id) =>
      var t := if id in s.txs then s.txs[id := s.txs[id].(commitSent := true)] else s.txs;
      Go(s.(txs := t), id, Committing(s.workers[id].report))
    case ServerCommit(id) =>
      var m := s.txs[id].mark.value;
      s.(loads := s.loads[id := s.loads[id].(status := Committed, total := m.total,
      failed := m.failed, stats := Some(m.stats))],
      current := Some(id), previous := s.txs[id].flip.value, txs := s.txs - {id})
    case ServerRollback(id) => s.(txs := s.txs - {id})
    case CommitOk(id) => Go(s, id, Succeeded(s.workers[id].report))
    case CommitErr(id) => Go(s, id, Failing(CommitFailed, Some(s.workers[id].report)))
    case MarkFailed(id) =>
      var p := s.workers[id];
      Go(s.(loads := FailRow(s.loads, id, p.why)), id, Stopped(p.why, p.sent))
    case MarkFailedLost(id) => Go(s, id, Stopped(s.workers[id].why, s.workers[id].sent))
    case MarkAborted(asOf, staleAfter) => s.(loads := AbortStale(s.loads, asOf - staleAfter))
    case Crash(id) => Go(s, id, Crashed)
  }

  function NewRow(s: State): LoadRow { LoadRow(Running, s.now, None, 0, 0, None) }

  /** UPDATE ... SET status = 'failed' WHERE load_id = id AND status = 'running' */
  function FailRow(loads: map<LoadId, LoadRow>, id: LoadId, why: Reason): map<LoadId, LoadRow> {
    if id in loads && loads[id].status == Running
    then loads[id := loads[id].(status := Failed, reason := Some(why))]
    else loads
  }

  /** UPDATE ... SET status = 'aborted' WHERE status = 'running' AND started_at < cutoff */
  function AbortStale(loads: map<LoadId, LoadRow>, cutoff: int): map<LoadId, LoadRow> {
    map l | l in loads ::
      if loads[l].status == Running && loads[l].startedAt < cutoff
      then loads[l].(status := Aborted, reason := Some(Stale))
      else loads[l]
  }

  ghost predicate NextStep(s: State, t: State, step: Step) { Enabled(s, step) && t == Apply(s, step) }

  ghost predicate Next(s: State, t: State) { exists step :: NextStep(s, t, step) }

  ghost predicate IsRun(run: seq<State>) {
    && |run| > 0 && Init(run[0])
    && forall i | 0 <= i < |run| - 1 :: Next(run[i], run[i + 1])
  }

  ghost function Last(run: seq<State>): State requires |run| > 0 { run[|run| - 1] }

  // ---------------------------------------------------------------- the invariant

  /** A committed row carries the counters of a load that passed the gate. */
  ghost predicate SoundRow(row: LoadRow) {
    row.status == Committed ==> row.stats.Some? && SoundMark(Mark(row.total, row.failed, row.stats.value))
  }

  /** A row says failed only for the reason of its own call, which has returned it, and aborted only as stale; any
      other row gives no reason. */
  ghost predicate EndSound(s: State, l: LoadId)
    requires l in s.loads
  {
    match s.loads[l].status
    case Failed =>
      l in s.workers && s.workers[l].Stopped? && s.loads[l].reason == Some(s.workers[l].why)
    case Aborted => s.loads[l].reason == Some(Stale)
    case _ => s.loads[l].reason == None
  }

  ghost predicate EndsSound(s: State) {
    && (forall l | l in s.loads :: EndSound(s, l))
    && (forall w | w in s.workers :: NotStale(s.workers[w]))
  }

  /** No call gives the reaper's reason. */
  ghost predicate NotStale(p: Phase) { (p.Failing? ==> p.why != Stale) && (p.Stopped? ==> p.why != Stale) }

  ghost predicate SoundMark(m: Mark) {
    WellFormed(m.stats) && PassesGate(m.stats) && m.total == TotalLines(m.stats) && m.failed == TotalFailed(m.stats)
  }

  ghost predicate TxFits(tx: Tx, p: Phase) {
    match p
    case Pipeline => false
    case Gate(_) => false
    case InTx(_) => tx == Tx(None, None, false)
    case Flipped(_) => tx.flip.Some? && tx.mark.None? && !tx.commitSent
    case Marked(r) => tx.flip.Some? && tx.mark.Some? && tx.mark.value.stats == r && !tx.commitSent
    case Committing(r) => tx.flip.Some? && tx.mark.Some? && tx.mark.value.stats == r && tx.commitSent
    case Failing(_, sent) => sent.Some? ==> tx.mark.Some? && tx.mark.value.stats == sent.value
    case Succeeded(_) => true
    case Stopped(_, sent) => sent.Some? ==> tx.mark.Some? && tx.mark.value.stats == sent.value
    case Crashed => true
  }

  ghost predicate TxSound(s: State, id: LoadId)
    requires id in s.txs
  {
    var tx := s.txs[id];
    && At(s, id) && TxFits(tx, s.workers[id])
    && (tx.flip.Some? ==> tx.flip.value == s.current)
    && (tx.mark.Some? ==> tx.flip.Some? && s.loads[id].status == Running && SoundMark(tx.mark.value))
    && (tx.commitSent ==> tx.mark.Some?)
  }

  /** The counters that a call has asked the server to commit. */
  function Sent(p: Phase): Option<Report> {
    match p
    case Committing(r) => Some(r)
    case Succeeded(r) => Some(r)
    case Failing(_, sent) => sent
    case Stopped(_, sent) => sent
    case _ => None
  }

  /** What a phase says about the load row: before the commit is sent, and after any failure
      other than that of the commit itself, the load is not committed and cannot become so. */
  ghost predicate PhaseSound(s: State, id: LoadId)
    requires id in s.workers
  {
    var p := s.workers[id];
    && id in s.loads
    && (p.Gate? || p.InTx? || p.Flipped? || p.Marked? ==> WellFormed(p.report))
    && (p.InTx? || p.Flipped? || p.Marked? ==> PassesGate(p.report))
    && (Sent(p).Some? ==> WellFormed(Sent(p).value) && PassesGate(Sent(p).value))
    && (p.Failing? || p.Stopped? ==> (p.sent.Some? <==> p.why == CommitFailed))
    && (p.Succeeded? ==> s.loads[id].status == Committed)
    && (Sent(p).Some? && s.loads[id].status == Committed ==> s.loads[id].stats == Sent(p))
    && (BeforeCommit(p) ==> s.loads[id].status != Committed && (id in s.txs ==> !s.txs[id].commitSent))
  }

  ghost predicate BeforeCommit(p: Phase) {
    || p.Pipeline? || p.Gate? || p.InTx? || p.Flipped? || p.Marked?
    || (p.Failing? && p.why != CommitFailed)
    || (p.Stopped? && p.why != CommitFailed)
  }

  ghost predicate IsCommitted(s: State, l: LoadId) { l in s.loads && s.loads[l].status == Committed }

  ghost predicate Inv(s: State) {
    && (forall l | l in s.loads :: SoundRow(s.loads[l]))
    && (forall w | w in s.workers :: PhaseSound(s, w))
    && (forall x | x in s.txs :: TxSound(s, x))
    && (forall x, y | x in s.txs && y in s.txs && s.txs[x].flip.Some? && s.txs[y].flip.Some? :: x == y)
    && (forall l | l in s.loads && l !in s.workers :: s.loads[l].status != Committed)
    && (s.current.Some? ==> IsCommitted(s, s.current.value))
  }

  /** A step of one worker leaves the tables and every other worker and transaction alone;
      then only that worker's own entry has to be looked at. */
  lemma InvFrame(s: State, t: State, id: LoadId, p: Phase)
    requires Inv(s)
    requires t.loads == s.loads && t.current == s.current && t.workers == s.workers[id := p]
    requires t.txs - {id} == s.txs - {id}
    requires PhaseSound(t, id) && (id in t.txs ==> TxSound(t, id))
    requires id in t.txs && t.txs[id].flip.Some? ==> PointerFree(s, id)
    ensures Inv(t)
  {
    hide PassesGate, WellFormed, TotalLines, TotalFailed;
    forall x | x in t.txs ensures TxSound(t, x) {
      if x != id { assert x in t.txs - {id}; assert TxSound(s, x); }
    }
    forall x, y | x in t.txs && y in t.txs && t.txs[x].flip.Some? && t.txs[y].flip.Some? ensures x == y {
      assert x != id ==> x in t.txs - {id};
      assert y != id ==> y in t.txs - {id};
    }
    forall w | w in t.workers ensures PhaseSound(t, w) {
      if w != id {
        assert PhaseSound(s, w);
        if w in t.txs { assert w in t.txs - {id}; }
      }
    }
  }

  lemma InvClient(s: State, t: State, step: Step)
    requires Inv(s) && NextStep(s, t, step)
    requires
      || step.PipelineOk? || step.PipelineErr? || step.GateRejects? || step.BeginTxErr? || step.FlipErr?
      || step.MarkCommittedErr? || step.CommitOk? || step.CommitErr? || step.MarkFailedLost? || step.Crash?
    ensures Inv(t)
  {
    hide PassesGate, WellFormed, TotalLines, TotalFailed;
    InvFrame(s, t, step.id, t.workers[step.id]);
  }

  lemma InvTx(s: State, t: State, step: Step)
    requires Inv(s) && NextStep(s, t, step)
    requires step.BeginTx? || step.Flip? || step.MarkCommitted? || step.SendCommit?
    ensures Inv(t)
  {
    hide PassesGate, WellFormed, TotalLines, TotalFailed;
    InvFrame(s, t, step.id, t.workers[step.id]);
  }

  lemma InvServer(s: State, t: State, step: Step)
    requires Inv(s) && NextStep(s, t, step)
    requires step.ServerCommit?
    ensures Inv(t)
  {
    hide PassesGate, WellFormed, TotalLines, TotalFailed;
  }

  lemma InvQuiet(s: State, t: State, step: Step)
    requires Inv(s) && NextStep(s, t, step)
    requires step.ServerRollback?
    ensures Inv(t)
  {
    hide PassesGate, WellFormed, TotalLines, TotalFailed;
  }

  ghost predicate GaveUp(s: State, t: State, l: LoadId)
    requires l in s.loads && l in t.loads
  {
    && s.loads[l].status == Running && !RowLocked(s, l)
    && (t.loads[l].status == Failed || t.loads[l].status == Aborted)
  }

  /** A statement that adds running rows, or moves unlocked running rows to failed or aborted. */
  lemma InvRows(s: State, t: State)
    requires Inv(s) && t == s.(loads := t.loads)
    requires forall l | l in s.loads :: l in t.loads && (t.loads[l] == s.loads[l] || GaveUp(s, t, l))
    requires forall l | l in t.loads && l !in s.loads :: t.loads[l].status == Running
    ensures Inv(t)
  {
    hide PassesGate, WellFormed, TotalLines, TotalFailed;
    forall x | x in t.txs ensures TxSound(t, x) {
      assert TxSound(s, x);
    }
    forall w | w in t.workers ensures PhaseSound(t, w) {
      assert PhaseSound(s, w);
    }
  }

  lemma InvInsert(s: State, t: State, id: LoadId)
    requires Inv(s) && NextStep(s, t, InsertRunning(id))
    ensures Inv(t)
  {
    hide PassesGate, WellFormed, TotalLines, TotalFailed;
    var u := s.(loads := t.loads);
    InvRows(s, u);
    InvFrame(u, t, id, Pipeline);
  }

  lemma InvMarkFailed(s: State, t: State, id: LoadId)
    requires Inv(s) && NextStep(s, t, MarkFailed(id))
    ensures Inv(t)
  {
    hide PassesGate, WellFormed, TotalLines, TotalFailed;
    var u := s.(loads := t.loads);
    InvRows(s, u);
    InvFrame(u, t, id, t.workers[id]);
  }

  lemma InvTables(s: State, t: State, step: Step)
    requires Inv(s) && NextStep(s, t, step)
    requires step.Advance? || step.InsertUnseen? || step.MarkAborted?
    ensures Inv(t)
  {
    hide PassesGate, WellFormed, TotalLines, TotalFailed;
    if !step.Advance? { InvRows(s, t); }
  }

  lemma InvStep(s: State, t: State, step: Step)
    requires Inv(s) && NextStep(s, t, step)
    ensures Inv(t)
  {
    hide *;
    match step
    case InsertRunning(id) => InvInsert(s, t, id);
    case ServerCommit(_) => InvServer(s, t, step);
    case ServerRollback(_) => InvQuiet(s, t, step);
    case MarkFailed(id) => InvMarkFailed(s, t, id);
    case Advance(_) => InvTables(s, t, step);
    case InsertUnseen(_) => InvTables(s, t, step);
    case MarkAborted(_, _) => InvTables(s, t, step);
    case BeginTx(_) => InvTx(s, t, step);
    case Flip(_) => InvTx(s, t, step);
    case MarkCommitted(_, _, _) => InvTx(s, t, step);
    case SendCommit(_) => InvTx(s, t, step);
    case PipelineOk(_, _) => InvClient(s, t, step);
    case PipelineErr(_) => InvClient(s, t, step);
    case GateRejects(_) => InvClient(s, t, step);
    case BeginTxErr(_) => InvClient(s, t, step);
    case FlipErr(_) => InvClient(s, t, step);
    case MarkCommittedErr(_) => InvClient(s, t, step);
    case CommitOk(_) => InvClient(s, t, step);
    case CommitErr(_) => InvClient(s, t, step);
    case MarkFailedLost(_) => InvClient(s, t, step);
    case Crash(_) => InvClient(s, t, step);
  }

  lemma {:induction false} InvRun(run: seq<State>, i: nat)
    requires IsRun(run) && i < |run|
    ensures Inv(run[i])
  {
    if i > 0 {
      InvRun(run, i - 1);
      assert Next(run[i - 1], run[i]);
      var step :| NextStep(run[i - 1], run[i], step);
      InvStep(run[i - 1], run[i], step);
    }
  }

  // ---------------------------------------------------------------- how rows change

  /** The row gets another status and reason and stays what it was otherwise. */
  ghost predicate EndedAs(before: LoadRow, after: LoadRow, status: Status, reason: Reason) {
    && before.status == Running && after.status == status && after.reason == Some(reason)
    && after.startedAt == before.startedAt && after.stats == before.stats
    && after.total == before.total && after.failed == before.failed
  }

  ghost predicate OtherRowsStay(s: State, t: State, l: LoadId) {
    && t.loads.Keys == s.loads.Keys && forall m | m in s.loads && m != l :: t.loads[m] == s.loads[m]
  }

  /** The load's own call marks it failed, with the reason that the call returns; no other row changes. */
  ghost predicate FailsItself(s: State, t: State, l: LoadId) {
    && l in s.loads && l in t.loads && l in s.workers && s.workers[l].Failing?
    && l in t.workers && t.workers[l] == Stopped(s.workers[l].why, s.workers[l].sent)
    && EndedAs(s.loads[l], t.loads[l], Failed, s.workers[l].why) && OtherRowsStay(s, t, l)
  }

  /** A reaper pass: every running row that began before the cutoff is aborted, and no other row changes. */
  ghost predicate IsReaped(s: State, t: State, cutoff: int) {
    && t.loads.Keys == s.loads.Keys
    && forall m | m in s.loads ::
         if s.loads[m].status == Running && s.loads[m].startedAt < cutoff
         then EndedAs(s.loads[m], t.loads[m], Aborted, Stale)
         else t.loads[m] == s.loads[m]
  }

  lemma MarkFailedFails(s: State, t: State, id: LoadId)
    requires NextStep(s, t, MarkFailed(id))
    ensures id in s.loads && id in t.loads
    ensures if s.loads[id].status == Running then FailsItself(s, t, id) else t.loads == s.loads
  {
  }

  lemma ReaperReaps(s: State, t: State, asOf: int, staleAfter: nat)
    requires NextStep(s, t, MarkAborted(asOf, staleAfter))
    ensures asOf <= s.now && IsReaped(s, t, asOf - staleAfter) && t.workers == s.workers
  {
  }

  /** A row that is new is running, was started now, and says nothing else yet. */
  ghost predicate IsNewRow(s: State, row: LoadRow) {
    && row.status == Running && row.startedAt == s.now && row.reason == None
    && row.total == 0 && row.failed == 0 && row.stats == None
  }

  /** Whether the call of a load remembers what it sent, or died. */
  ghost predicate SentOrCrashed(s: State, l: LoadId) {
    l in s.workers && (s.workers[l].Crashed? || Sent(s.workers[l]).Some?)
  }

  lemma CommitMoves(s: State, t: State, l: LoadId)
    requires Inv(s) && NextStep(s, t, ServerCommit(l))
    ensures l in s.loads && l in t.loads && s.loads[l].status == Running && t.loads[l].status == Committed
    ensures t.loads[l].reason == s.loads[l].reason && t.loads[l].startedAt == s.loads[l].startedAt
    ensures SentOrCrashed(s, l) && OtherRowsStay(s, t, l)
    ensures !s.workers[l].Crashed? ==> t.loads[l].stats == Sent(s.workers[l])
  {
    hide PassesGate, WellFormed, TotalLines, TotalFailed;
    assert TxSound(s, l) && PhaseSound(s, l);
  }

  // ---------------------------------------------------------------- what holds over every run

  /** l is committed in t and was not in s. */
  ghost predicate Commits(s: State, t: State, l: LoadId) { IsCommitted(t, l) && !IsCommitted(s, l) }

  /** One step moves the pointer to l exactly when it commits l, and then the pointer keeps
      what it showed before. A row that has left running never changes again. */
  ghost predicate Effect(s: State, t: State) {
    && (forall l :: Commits(s, t, l) <==> t.current == Some(l) && s.current != t.current)
    && (t.current != s.current ==> t.current.Some? && t.previous == s.current)
    && (t.current == s.current ==> t.previous == s.previous)
    && (forall l | l in s.loads :: l in t.loads && (s.loads[l].status != Running ==> t.loads[l] == s.loads[l]))
    && (forall w | w in s.workers && Finished(s.workers[w]) :: w in t.workers && t.workers[w] == s.workers[w])
  }

  lemma StepEffect(s: State, t: State, step: Step)
    requires Inv(s) && NextStep(s, t, step)
    ensures Effect(s, t)
  {
    hide Effect;
    if step.ServerCommit? {
      CommitEffect(s, t, step);
    } else {
      QuietEffect(s, t, step);
    }
  }

  lemma CommitEffect(s: State, t: State, step: Step)
    requires Inv(s) && NextStep(s, t, step) && step.ServerCommit?
    ensures Effect(s, t)
  {
    hide PassesGate, WellFormed, TotalLines, TotalFailed, PhaseSound, SoundRow, SoundMark;
    assert TxSound(s, step.id);
  }

  lemma QuietEffect(s: State, t: State, step: Step)
    requires Inv(s) && NextStep(s, t, step) && !step.ServerCommit?
    ensures Effect(s, t)
  {
    hide TxSound, SoundRow, PassesGate, WellFormed, TotalLines, TotalFailed;
    assert forall l :: !Commits(s, t, l);
  }

  lemma EffectInRun(run: seq<State>, i: nat)
    requires IsRun(run) && i + 1 < |run|
    ensures Effect(run[i], run[i + 1]) && Inv(run[i]) && Inv(run[i + 1])
  {
    hide Effect, Inv, NextStep;
    InvRun(run, i);
    InvRun(run, i + 1);
    assert Next(run[i], run[i + 1]);
    var step :| NextStep(run[i], run[i + 1], step);
    StepEffect(run[i], run[i + 1], step);
  }

  /** The values the pointer takes, oldest first. */
  ghost function PointerValues(run: seq<State>): seq<LoadId>
    requires |run| > 0
  {
    if |run| == 1 then []
    else
      var before := run[..|run| - 1];
      var s, t := Last(before), Last(run);
      PointerValues(before) + if t.current != s.current && t.current.Some? then [t.current.value] else []
  }

  /** In every interleaving the pointer takes the committed loads, each once, in the order
      in which they commit: it shows the last one and remembers the one before. Nothing
      that is running, failed or aborted is ever pointed at. */
  lemma {:induction false} PointerFollowsCommits(run: seq<State>)
    requires IsRun(run)
    ensures PointerShows(Last(run), PointerValues(run))
  {
    hide Next, Inv;
    if |run| > 1 {
      var n := |run| - 1;
      var before := run[..n];
      BeforeIsRun(run);
      PointerFollowsCommits(before);
      EffectInRun(run, n - 1);
      PointerMoves(run[n - 1], run[n], PointerValues(before), PointerValues(run));
    }
  }

  lemma BeforeIsRun(run: seq<State>)
    requires IsRun(run) && |run| > 1
    ensures IsRun(run[..|run| - 1])
  {
    hide Next;
    var before := run[..|run| - 1];
    forall i | 0 <= i < |before| - 1 ensures Next(before[i], before[i + 1]) {
      assert Next(run[i], run[i + 1]);
    }
  }

  ghost predicate PointerShows(s: State, p: seq<LoadId>) {
    && NoDuplicates(p)
    && (forall l :: l in p <==> IsCommitted(s, l))
    && s.current == (if |p| > 0 then Some(p[|p| - 1]) else None)
    && s.previous == (if |p| > 1 then Some(p[|p| - 2]) else None)
  }

  lemma PointerMoves(s: State, t: State, p: seq<LoadId>, q: seq<LoadId>)
    requires PointerShows(s, p) && Effect(s, t)
    requires q == p + if t.current != s.current && t.current.Some? then [t.current.value] else []
    ensures PointerShows(t, q)
  {
    forall l ensures l in q <==> IsCommitted(t, l) {
      assert IsCommitted(s, l) ==> IsCommitted(t, l);
      assert Commits(s, t, l) <==> t.current == Some(l) && s.current != t.current;
    }
    if t.current != s.current {
      assert Commits(s, t, t.current.value);
    }
  }

  /** Step by step: the pointer moves to l in the very step in which l commits. */
  lemma MovesAreCommits(run: seq<State>, i: nat, l: LoadId)
    requires IsRun(run) && i + 1 < |run|
    ensures Commits(run[i], run[i + 1], l) <==>
            run[i + 1].current == Some(l) && run[i].current != run[i + 1].current
  {
    EffectInRun(run, i);
  }

  /** A load leaves running at most once: from then on its whole row is frozen, whatever
      late MarkFailed, reaper pass or second commit attempt still reaches it. */
  lemma {:induction false} TerminalForever(run: seq<State>, i: nat, j: nat, l: LoadId)
    requires IsRun(run) && i <= j < |run| && l in run[i].loads
    ensures l in run[j].loads
    ensures run[i].loads[l].status != Running ==> run[j].loads[l] == run[i].loads[l]
    decreases j - i
  {
    hide Next, Inv;
    if i < j {
      TerminalForever(run, i, j - 1, l);
      EffectInRun(run, j - 1);
    }
  }

  /** Every committed load of every run passed the gate and carries the sums of its own counters. */
  lemma CommittedLoadsPassedTheGate(run: seq<State>, i: nat, l: LoadId)
    requires IsRun(run) && i < |run| && IsCommitted(run[i], l)
    ensures var row := run[i].loads[l];
            && row.stats.Some? && WellFormed(row.stats.value)
            && row.total == TotalLines(row.stats.value) && row.failed == TotalFailed(row.stats.value)
            && 100 * row.failed <= row.total
  {
    InvRun(run, i);
    GateInWholeNumbers(run[i].loads[l].stats.value);
  }

  /** What Loader.Run reports is what happened: success only for a committed load, and after
      any error but that of the commit itself the load is never committed, then or later. Behind
      an error of the commit it may be, then or later, and only with the counters that were sent. */
  lemma {:induction false} ReportsAreTrue(run: seq<State>, i: nat, j: nat, id: LoadId)
    requires IsRun(run) && i <= j < |run| && id in run[i].workers && Finished(run[i].workers[id])
    ensures id in run[j].workers && run[j].workers[id] == run[i].workers[id]
    ensures run[i].workers[id].Succeeded? ==>
              IsCommitted(run[j], id) && run[j].loads[id].stats == Some(run[i].workers[id].report)
    ensures BeforeCommit(run[i].workers[id]) ==> !IsCommitted(run[j], id)
    ensures IsCommitted(run[j], id) ==>
              var sent := Sent(run[i].workers[id]);
              sent.Some? && PassesGate(sent.value) && run[j].loads[id].stats == sent
    decreases j - i
  {
    hide Next, WellFormed, PassesGate;
    InvRun(run, j);
    if i < j {
      ReportsAreTrue(run, i, j - 1, id);
      EffectInRun(run, j - 1);
    }
    assert PhaseSound(run[j], id);
  }

  // ---------------------------------------------------------------- how loads end, over every run

  lemma EndsInit(run: seq<State>)
    requires IsRun(run)
    ensures EndsSound(run[0])
  {
  }

  lemma OtherSteps(s: State, t: State, step: Step)
    requires Inv(s) && NextStep(s, t, step) && !step.MarkFailed? && !step.MarkAborted? && !step.ServerCommit?
    ensures forall l | l in s.loads :: l in t.loads && t.loads[l] == s.loads[l]
    ensures forall l | l in t.loads && l !in s.loads :: IsNewRow(s, t.loads[l])
  {
    hide Inv;
  }

  lemma OtherCalls(s: State, t: State, step: Step, w: LoadId)
    requires Inv(s) && NextStep(s, t, step) && !step.MarkFailed? && w in t.workers
    requires w in s.workers ==> NotStale(s.workers[w])
    ensures NotStale(t.workers[w])
    ensures w in s.workers && s.workers[w].Stopped? ==> t.workers[w] == s.workers[w]
  {
    hide TxSound, SoundRow;
    if w in s.workers {
      assert PhaseSound(s, w);
    }
    hide PhaseSound, Inv, PassesGate, WellFormed;
  }

  lemma CallsStay(s: State, t: State, step: Step, w: LoadId)
    requires NextStep(s, t, step) && w in s.workers
    ensures w in t.workers
  {
  }

  lemma EndsStep(s: State, t: State, step: Step)
    requires Inv(s) && EndsSound(s) && NextStep(s, t, step)
    ensures EndsSound(t)
  {
    hide Inv, NextStep;
    if step.MarkFailed? {
      MarkFailedFails(s, t, step.id);
      MarkFailedMoves(s, t, step.id);
    } else {
      forall w | w in t.workers
        ensures NotStale(t.workers[w])
        ensures w in s.workers && s.workers[w].Stopped? ==> t.workers[w] == s.workers[w]
      {
        OtherCalls(s, t, step, w);
      }
      forall w | w in s.workers
        ensures w in t.workers
      {
        CallsStay(s, t, step, w);
      }
      hide NotStale;
      if step.MarkAborted? {
        ReaperReaps(s, t, step.asOf, step.staleAfter);
      } else if step.ServerCommit? {
        CommitMoves(s, t, step.id);
      } else {
        OtherSteps(s, t, step);
      }
    }
  }

  lemma MarkFailedMoves(s: State, t: State, id: LoadId)
    requires NextStep(s, t, MarkFailed(id))
    ensures id in s.workers && s.workers[id].Failing? && t.workers.Keys == s.workers.Keys
    ensures forall w | w in s.workers && w != id :: t.workers[w] == s.workers[w]
    ensures t.workers[id] == Stopped(s.workers[id].why, s.workers[id].sent)
  {
  }

  lemma {:induction false} EndsRun(run: seq<State>, i: nat)
    requires IsRun(run) && i < |run|
    ensures EndsSound(run[i])
  {
    hide *;
    if i == 0 {
      EndsInit(run);
    } else {
      EndsRun(run, i - 1);
      InvRun(run, i - 1);
      var step := StepAt(run, i - 1);
      EndsStep(run[i - 1], run[i], step);
    }
  }

  lemma StepAt(run: seq<State>, i: nat) returns (step: Step)
    requires IsRun(run) && i + 1 < |run|
    ensures NextStep(run[i], run[i + 1], step)
  {
    hide NextStep;
    assert Next(run[i], run[i + 1]);
    step :| NextStep(run[i], run[i + 1], step);
  }

  /** A load goes from running to failed only in a step of its own call, which gives the reason that it returns. */
  lemma FailureIsItsOwn(run: seq<State>, i: nat, l: LoadId)
    requires IsRun(run) && i + 1 < |run| && l in run[i].loads && l in run[i + 1].loads
    requires run[i].loads[l].status != Failed && run[i + 1].loads[l].status == Failed
    ensures FailsItself(run[i], run[i + 1], l)
  {
    hide IsRun, NextStep, Inv, FailsItself;
    var step := StepAt(run, i);
    StepCases(run, i, step, l);
  }

  /** Step i is a pass with a cutoff that is not in the future and lies behind the start of the load. */
  ghost predicate ReapedAt(run: seq<State>, i: nat, l: LoadId, cutoff: int)
    requires i + 1 < |run|
  {
    && cutoff <= run[i].now && IsReaped(run[i], run[i + 1], cutoff)
    && l in run[i].loads && run[i].loads[l].startedAt < cutoff
  }

  /** A load that is new in a run is running, was started in that step, and says nothing else yet. */
  lemma NewLoadsRun(run: seq<State>, i: nat, l: LoadId)
    requires IsRun(run) && i + 1 < |run| && l !in run[i].loads && l in run[i + 1].loads
    ensures IsNewRow(run[i], run[i + 1].loads[l])
  {
    InvRun(run, i);
    hide IsRun, NextStep, Inv;
    var step := StepAt(run, i);
    if step.MarkFailed? {
      MarkFailedFails(run[i], run[i + 1], step.id);
    } else if step.MarkAborted? {
      ReaperReaps(run[i], run[i + 1], step.asOf, step.staleAfter);
    } else if step.ServerCommit? {
      CommitMoves(run[i], run[i + 1], step.id);
    } else {
      OtherSteps(run[i], run[i + 1], step);
    }
  }

  /** It goes to aborted only in a pass of the reaper whose cutoff lies behind its start; the pass aborts every such
      running load, and nothing else. */
  lemma AbortIsTheReaper(run: seq<State>, i: nat, l: LoadId)
    requires IsRun(run) && i + 1 < |run| && l in run[i].loads && l in run[i + 1].loads
    requires run[i].loads[l].status != Aborted && run[i + 1].loads[l].status == Aborted
    ensures exists cutoff :: ReapedAt(run, i, l, cutoff)
  {
    hide IsRun, NextStep, Inv;
    var step := StepAt(run, i);
    StepCases(run, i, step, l);
    if step.MarkAborted? {
      assert ReapedAt(run, i, l, step.asOf - step.staleAfter);
    }
  }

  /** What a step does to the row of l. */
  lemma StepCases(run: seq<State>, i: nat, step: Step, l: LoadId)
    requires IsRun(run) && i + 1 < |run| && l in run[i].loads && l in run[i + 1].loads
    requires NextStep(run[i], run[i + 1], step)
    ensures run[i + 1].loads[l] == run[i].loads[l]
            || (step == MarkFailed(l) && FailsItself(run[i], run[i + 1], l))
            || (step.MarkAborted? && step.asOf <= run[i].now
                && IsReaped(run[i], run[i + 1], step.asOf - step.staleAfter)
                && run[i].loads[l].startedAt < step.asOf - step.staleAfter && run[i + 1].loads[l].status == Aborted)
            || (step == ServerCommit(l) && run[i + 1].loads[l].status == Committed)
    ensures step == MarkFailed(l) && run[i + 1].loads[l] != run[i].loads[l] ==> run[i + 1].loads[l].status == Failed
  {
    InvRun(run, i);
    hide IsRun, NextStep, Inv;
    var s, t := run[i], run[i + 1];
    if step.MarkFailed? {
      MarkFailedFails(s, t, step.id);
    } else if step.MarkAborted? {
      ReaperReaps(s, t, step.asOf, step.staleAfter);
    } else if step.ServerCommit? {
      CommitMoves(s, t, step.id);
    } else {
      OtherSteps(s, t, step);
    }
  }

  /** How a row of any run ended: failed for the reason of its own call, aborted as stale, and otherwise no reason. */
  lemma ReasonsAreTrue(run: seq<State>, i: nat, l: LoadId)
    requires IsRun(run) && i < |run| && l in run[i].loads
    ensures run[i].loads[l].status == Failed ==>
              l in run[i].workers && run[i].workers[l].Stopped? && run[i].loads[l].reason == Some(run[i].workers[l].why)
    ensures run[i].loads[l].status == Aborted <==> run[i].loads[l].reason == Some(Stale)
    ensures run[i].loads[l].status == Running || run[i].loads[l].status == Committed <==> run[i].loads[l].reason == None
  {
    EndsRun(run, i);
    assert EndSound(run[i], l);
  }
}
