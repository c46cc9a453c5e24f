/** The life of a purchase order in the channel router: orders, send attempts and the
    transactions of sendOne, as steps that any number of batch runs, admin retries,
    cancellations and the database server take in any order. The row locks taken when a
    batch is selected are released before sending, so no step relies on them. */
module SendLifecycle {
  import opened Basics

  type PoId = int
  type AttemptId = int
  type Sid = int

  datatype PoStatus = Draft | ReadyToSend | Sent | ConfirmedByErp | Received | Cancelled

  datatype Verdict = Pending | Success | Failed | Skipped

  datatype Attempt = Attempt(po: PoId, verdict: Verdict, ref: Option<string>, retries: int)

  /** What a channel returns; a status left empty is None. */
  datatype Reply = Reply(status: Option<Verdict>, ref: Option<string>, retries: int)

  /** Where one call of sendOne stands. `lost` says that its commit reported an error. */
  datatype Phase =
    | Opened(po: PoId)
    | Inserted(po: PoId, aid: AttemptId)
    | Answered(po: PoId, aid: AttemptId, reply: Reply)
    | Finished(po: PoId, aid: AttemptId, verdict: Verdict)
    | PoMarked(po: PoId, aid: AttemptId)
    | Committing(po: PoId, aid: AttemptId, verdict: Verdict)
    | Ended(po: PoId, made: Option<AttemptId>, outcome: Verdict, lost: bool)
    | Crashed

  /** An open transaction: the attempt row it wrote, whether it has set the order to sent
      (and so holds its row lock), and whether the client has asked for the commit. */
  datatype Tx = Tx(row: Option<(AttemptId, Attempt)>, marks: bool, commitSent: bool)

  /** `answers` keeps what the channel answered to a call. */
  datatype State = State(pos: map<PoId, PoStatus>, attempts: map<AttemptId, Attempt>,
                         calls: map<Sid, Phase>, txs: map<Sid, Tx>, answers: map<Sid, Reply>)

  datatype Step =
    | NewPo(po: PoId, ready: bool)
    | ChangeStatus(po: PoId, to: PoStatus)
    | BeginTx(sid: Sid, po: PoId)
    | InsertAttempt(sid: Sid, aid: AttemptId)
    | Answer(sid: Sid, reply: Reply)
    | Finish(sid: Sid)
    | MarkSent(sid: Sid)
    | MarkMiss(sid: Sid)
    | GiveUp(sid: Sid)
    | SendCommit(sid: Sid)
    | ServerCommit(sid: Sid)
    | ServerRollback(sid: Sid)
    | CommitOk(sid: Sid)
    | CommitErr(sid: Sid)
    | Crash(sid: Sid)

  ghost predicate Init(s: State) {
    s == State(map[], map[], map[], map[], map[])
  }

  /** An open transaction has set this order to sent. */
  predicate Locked(s: State, po: PoId) {
    exists x | x in s.txs :: Marks(s.txs[x], po)
  }

  predicate Marks(tx: Tx, po: PoId) { tx.marks && tx.row.Some? && tx.row.value.1.po == po }

  /** A generated id: no row and no call has it. */
  ghost predicate FreshAttempt(s: State, aid: AttemptId) {
    && aid !in s.attempts
    && (forall x | x in s.txs && s.txs[x].row.Some? :: s.txs[x].row.value.0 != aid)
    && (forall c | c in s.calls :: AidOf(s.calls[c]) != Some(aid))
  }

  /** An empty or pending status is recorded as failed. */
  function FinalVerdict(r: Reply): (v: Verdict)
    ensures v != Pending
  {
    if r.status.None? || r.status.value == Pending then Failed else r.status.value
  }

  ghost predicate InTx(s: State, sid: Sid) { sid in s.calls && sid in s.txs }

  ghost predicate Enabled(s: State, step: Step) {
    match step
    case NewPo(po, _) => po !in s.pos
    // Everything but the router: cancellation, confirmation, receipt, release of a draft.
    case ChangeStatus(po, to) =>
      && po in s.pos && !Locked(s, po)
      && to != Draft && to != Sent && (to == ReadyToSend ==> s.pos[po] == Draft)
    case BeginTx(sid, _) => sid !in s.calls && sid !in s.txs
    case InsertAttempt(sid, aid) => InTx(s, sid) && s.calls[sid].Opened? && FreshAttempt(s, aid)
    case Answer(sid, _) => sid in s.calls && s.calls[sid].Inserted?
    case Finish(sid) => InTx(s, sid) && s.calls[sid].Answered?
    case MarkSent(sid) =>
      && InTx(s, sid) && s.calls[sid].Finished? && s.calls[sid].verdict == Success
      && s.calls[sid].po in s.pos && !Locked(s, s.calls[sid].po) && s.pos[s.calls[sid].po] == ReadyToSend
    case MarkMiss(sid) =>
      && sid in s.calls && s.calls[sid].Finished? && s.calls[sid].verdict == Success
      && !Locked(s, s.calls[sid].po) && !(s.calls[sid].po in s.pos && s.pos[s.calls[sid].po] == ReadyToSend)
    // Any statement may fail: the insert, the finishing update, the marking of the order.
    case GiveUp(sid) =>
      sid in s.calls && (s.calls[sid].Opened? || s.calls[sid].Answered? || s.calls[sid].Finished?)
    case SendCommit(sid) =>
      sid in s.calls && (s.calls[sid].PoMarked? || (s.calls[sid].Finished? && s.calls[sid].verdict != Success))
    case ServerCommit(sid) => InTx(s, sid) && s.txs[sid].commitSent && s.txs[sid].row.Some?
    case ServerRollback(sid) => sid in s.txs
    case CommitOk(sid) =>
      sid in s.calls && s.calls[sid].Committing? && sid !in s.txs && s.calls[sid].aid in s.attempts
    case CommitErr(sid) => sid in s.calls && s.calls[sid].Committing?
    case Crash(sid) => sid in s.calls && !s.calls[sid].Ended?
  }

  function Go(s: State, sid: Sid, p: Phase): State { s.(calls := s.calls[sid := p]) }

  function Put(s: State, sid: Sid, tx: Tx): State { s.(txs := s.txs[sid := tx]) }

  function AidOf(p: Phase): Option<AttemptId> {
    match p
    case Opened(_) => None
    case Inserted(_, aid) => Some(aid)
    case Answered(_, aid, _) => Some(aid)
    case Finished(_, aid, _) => Some(aid)
    case PoMarked(_, aid) => Some(aid)
    case Committing(_, aid, _) => Some(aid)
    case Ended(_, aid, _, _) => aid
    case Crashed => None
  }

  function Apply(s: State, step: Step): State
    requires Enabled(s, step)
  {
    match step
    case NewPo(po, ready) => s.(pos := s.pos[po := if ready then ReadyToSend else Draft])
    case ChangeStatus(po, to) => s.(pos := s.pos[po := to])
    case BeginTx(sid, po) => Go(Put(s, sid, Tx(None, false, false)), sid, Opened(po))
    case InsertAttempt(sid, aid) =>
      var po := s.calls[sid].po;
      Go(Put(s, sid, s.txs[sid].(row := Some((aid, Attempt(po, Pending, None, 0))))), sid, Inserted(po, aid))
    case Answer(sid, reply) =>
      Go(s.(answers := s.answers[sid := reply]), sid, Answered(s.calls[sid].po, s.calls[sid].aid, reply))
    case Finish(sid) =>
      var p := s.calls[sid];
      var v := FinalVerdict(p.reply);
      var row := (p.aid, Attempt(p.po, v, p.reply.ref, p.reply.retries));
      Go(Put(s, sid, s.txs[sid].(row := Some(row))), sid, Finished(p.po, p.aid, v))
    case MarkSent(sid) =>
      Go(Put(s, sid, s.txs[sid].(marks := true)), sid, PoMarked(s.calls[sid].po, s.calls[sid].aid))
    case MarkMiss(sid) => Go(s, sid, Ended(s.calls[sid].po, Some(s.calls[sid].aid), Skipped, false))
    case GiveUp(sid) => Go(s, sid, Ended(s.calls[sid].po, AidOf(s.calls[sid]), Failed, false))
    case SendCommit(sid) =>
      var p := s.calls[sid];
      var t := if sid in s.txs then Put(s, sid, s.txs[sid].(commitSent := true)) else s;
      Go(t, sid, Committing(p.po, p.aid, if p.PoMarked? then Success else p.verdict))
    case ServerCommit(sid) =>
      var row := s.txs[sid].row.value;
      s.(attempts := s.attempts[row.0 := row.1], txs := s.txs - {sid},
      pos := if s.txs[sid].marks then s.pos[row.1.po := Sent] else s.pos)
    case ServerRollback(sid) => s.(txs := s.txs - {sid})
    case CommitOk(sid) => Go(s, sid, Ended(s.calls[sid].po, Some(s.calls[sid].aid), s.calls[sid].verdict, false))
    case CommitErr(sid) => Go(s, sid, Ended(s.calls[sid].po, Some(s.calls[sid].aid), Failed, true))
    case Crash(sid) => Go(s, sid, Crashed)
  }

  ghost predicate NextStep(s: State, t: State, step: Step) { Enabled(s, step) && t == Apply(s, step) }

  ghost predicate Next(s: State, t: State) { exists step :: NextStep(s, t, step) }

  ghost predicate IsRun(run: seq<State>) {
    && |run| > 0 && Init(run[0])
    && forall i | 0 <= i < |run| - 1 :: Next(run[i], run[i + 1])
  }

  ghost function Last(run: seq<State>): State requires |run| > 0 { run[|run| - 1] }

  // ---------------------------------------------------------------- the invariant

  ghost predicate IsSuccess(s: State, a: AttemptId, po: PoId) {
    a in s.attempts && s.attempts[a].po == po && s.attempts[a].verdict == Success
  }

  ghost predicate RowIs(tx: Tx, po: PoId, aid: AttemptId, v: Verdict) {
    tx.row.Some? && tx.row.value.0 == aid && tx.row.value.1.po == po && tx.row.value.1.verdict == v
  }

  ghost predicate TxFits(tx: Tx, p: Phase) {
    match p
    case Opened(_) => tx == Tx(None, false, false)
    case Inserted(po, aid) => RowIs(tx, po, aid, Pending) && !tx.marks && !tx.commitSent
    case Answered(po, aid, _) => RowIs(tx, po, aid, Pending) && !tx.marks && !tx.commitSent
    case Finished(po, aid, v) => RowIs(tx, po, aid, v) && !tx.marks && !tx.commitSent
    case PoMarked(po, aid) => RowIs(tx, po, aid, Success) && tx.marks && !tx.commitSent
    case Committing(po, aid, v) => RowIs(tx, po, aid, v) && (tx.marks <==> v == Success) && tx.commitSent
    case Ended(po, made, _, _) => tx.row.Some? ==> made == Some(tx.row.value.0) && tx.row.value.1.po == po
    case Crashed => true
  }

  ghost predicate TxSound(s: State, x: Sid)
    requires x in s.txs
  {
    var tx := s.txs[x];
    && x in s.calls && TxFits(tx, s.calls[x])
    && (tx.row.Some? ==> tx.row.value.0 !in s.attempts)
    && (tx.marks ==> tx.row.Some? && tx.row.value.1.verdict == Success &&
                     tx.row.value.1.po in s.pos && s.pos[tx.row.value.1.po] == ReadyToSend)
    && (tx.commitSent ==> tx.row.Some? && tx.row.value.1.verdict != Pending)
    && (tx.commitSent ==> s.calls[x].Committing? || s.calls[x].Ended? || s.calls[x].Crashed?)
    && (tx.commitSent && tx.row.value.1.verdict == Success ==> tx.marks)
  }

  /** What a phase says about the attempt of the call: before the commit is sent it is not in the table; afterwards
      it is one of the call's own order; a reported success is there; any other report rules a success out for
      good, unless it was the commit that failed. */
  ghost predicate PhaseSound(s: State, c: Sid)
    requires c in s.calls
  {
    match s.calls[c]
    case Opened(_) => true
    case Inserted(_, aid) => aid !in s.attempts
    case Answered(_, aid, _) => aid !in s.attempts
    case Finished(_, aid, v) => aid !in s.attempts && v != Pending
    case PoMarked(_, aid) => aid !in s.attempts
    case Committing(po, aid, v) =>
      v != Pending && (aid in s.attempts ==> s.attempts[aid].po == po && s.attempts[aid].verdict == v)
    case Ended(_, None, v, _) => v != Success
    case Ended(po, Some(aid), Success, _) => IsSuccess(s, aid, po)
    case Ended(po, Some(aid), _, lost) =>
      && (aid in s.attempts ==> s.attempts[aid].po == po)
      && (!lost ==> aid !in s.attempts || s.attempts[aid].verdict != Success)
      && (!lost ==> c in s.txs ==> !s.txs[c].commitSent)
    case Crashed => true
  }

  ghost predicate TxsApart(s: State, x: Sid, y: Sid)
    requires x in s.txs && y in s.txs
  {
    s.txs[x].row.Some? && s.txs[y].row.Some? ==>
      && s.txs[x].row.value.0 != s.txs[y].row.value.0
      && (s.txs[x].marks && s.txs[y].marks ==> s.txs[x].row.value.1.po != s.txs[y].row.value.1.po)
  }

  ghost predicate TxApartFromCall(s: State, x: Sid, c: Sid)
    requires x in s.txs && c in s.calls
  {
    s.txs[x].row.Some? ==> AidOf(s.calls[c]) != Some(s.txs[x].row.value.0)
  }

  /** A finished attempt; a successful one belongs to an order that has left ready_to_send. */
  ghost predicate AttemptSound(s: State, a: AttemptId)
    requires a in s.attempts
  {
    var at := s.attempts[a];
    && at.verdict != Pending
    && (at.verdict == Success ==> at.po in s.pos && s.pos[at.po] != Draft && s.pos[at.po] != ReadyToSend)
  }

  ghost predicate BothSucceed(s: State, a: AttemptId, b: AttemptId)
    requires a in s.attempts && b in s.attempts
  {
    IsSuccess(s, a, s.attempts[a].po) && IsSuccess(s, b, s.attempts[a].po)
  }

  ghost predicate Inv(s: State) {
    && (forall c | c in s.calls :: PhaseSound(s, c))
    && (forall x | x in s.txs :: TxSound(s, x))
    && (forall x, y | x in s.txs && y in s.txs && x != y :: TxsApart(s, x, y))
    && (forall x, c | x in s.txs && c in s.calls && x != c :: TxApartFromCall(s, x, c))
    && (forall a | a in s.attempts :: AttemptSound(s, a))
    && (forall a, b | a in s.attempts && b in s.attempts && BothSucceed(s, a, b) :: a == b)
  }

  /** Own transaction and own call stay apart from everybody else's. */
  ghost predicate StaysApart(t: State, c: Sid) {
    && (c in t.txs ==> forall x | x in t.txs && x != c :: TxsApart(t, c, x))
    && (c in t.txs ==> forall d | d in t.calls && d != c :: TxApartFromCall(t, c, d))
    && (c in t.calls ==> forall x | x in t.txs && x != c :: TxApartFromCall(t, x, c))
  }

  ghost predicate SameOtherTxs(s: State, t: State, c: Sid) {
    && (forall x | x in t.txs && x != c :: x in s.txs && s.txs[x] == t.txs[x])
    && (forall x | x in s.txs && x != c :: x in t.txs)
  }

  /** A step of one call leaves the tables and everybody else's transaction alone. */
  lemma InvFrame(s: State, t: State, c: Sid, p: Phase)
    requires Inv(s)
    requires t.pos == s.pos && t.attempts == s.attempts && t.calls == s.calls[c := p] && SameOtherTxs(s, t, c)
    requires PhaseSound(t, c) && (c in t.txs ==> TxSound(t, c)) && StaysApart(t, c)
    ensures Inv(t)
  {
    forall x | x in t.txs ensures TxSound(t, x) {
      if x != c { assert TxSound(s, x); }
    }
    forall d | d in t.calls ensures PhaseSound(t, d) {
      if d != c { assert PhaseSound(s, d); }
    }
    forall x, y | x in t.txs && y in t.txs && x != y ensures TxsApart(t, x, y) {
      if x != c && y != c { assert TxsApart(s, x, y); }
      if y == c { assert TxsApart(t, c, x); }
    }
    forall x, d | x in t.txs && d in t.calls && x != d ensures TxApartFromCall(t, x, d) {
      if x != c && d != c { assert TxApartFromCall(s, x, d); }
    }
  }

  /** Nothing new to tell apart when a call keeps its attempt id and its transaction. */
  lemma StillApart(s: State, t: State, c: Sid)
    requires Inv(s) && c in s.calls && c in t.calls
    requires t.attempts == s.attempts && t.calls == s.calls[c := t.calls[c]] && SameOtherTxs(s, t, c)
    requires AidOf(t.calls[c]).None? || AidOf(t.calls[c]) == AidOf(s.calls[c])
    requires c in t.txs && t.txs[c].row.Some? ==>
               c in s.txs && s.txs[c].row.Some? && t.txs[c].row.value.0 == s.txs[c].row.value.0
    requires c in t.txs && t.txs[c].marks ==>
               t.txs[c].row.Some? && forall x | x in s.txs && x != c :: !Marks(s.txs[x], t.txs[c].row.value.1.po)
    ensures StaysApart(t, c)
  {
    if c in t.txs {
      forall x | x in t.txs && x != c ensures TxsApart(t, c, x) {
        if t.txs[c].row.Some? { assert TxsApart(s, c, x); }
        assert TxSound(s, x);
      }
      forall d | d in t.calls && d != c ensures TxApartFromCall(t, c, d) {
        if t.txs[c].row.Some? { assert TxApartFromCall(s, c, d); }
      }
    }
    forall x | x in t.txs && x != c ensures TxApartFromCall(t, x, c) {
      assert TxApartFromCall(s, x, c);
    }
  }

  lemma InvBegin(s: State, t: State, step: Step)
    requires Inv(s) && NextStep(s, t, step) && (step.BeginTx? || step.InsertAttempt?)
    ensures Inv(t)
  {
    InvFrame(s, t, step.sid, t.calls[step.sid]);
  }

  lemma InvCall(s: State, t: State, step: Step)
    requires Inv(s) && NextStep(s, t, step)
    requires step.Answer? || step.MarkMiss? || step.GiveUp?
    ensures Inv(t)
  {
    assert PhaseSound(s, step.sid) && (step.sid in s.txs ==> TxSound(s, step.sid));
    StillApart(s, t, step.sid);
    InvFrame(s, t, step.sid, t.calls[step.sid]);
  }

  lemma InvEnd(s: State, t: State, step: Step)
    requires Inv(s) && NextStep(s, t, step)
    requires step.CommitOk? || step.CommitErr? || step.Crash?
    ensures Inv(t)
  {
    assert PhaseSound(s, step.sid) && (step.sid in s.txs ==> TxSound(s, step.sid));
    StillApart(s, t, step.sid);
    InvFrame(s, t, step.sid, t.calls[step.sid]);
  }

  lemma InvTx(s: State, t: State, step: Step)
    requires Inv(s) && NextStep(s, t, step)
    requires step.Finish? || step.MarkSent? || step.SendCommit?
    ensures Inv(t)
  {
    assert PhaseSound(s, step.sid) && (step.sid in s.txs ==> TxSound(s, step.sid));
    StillApart(s, t, step.sid);
    InvFrame(s, t, step.sid, t.calls[step.sid]);
  }

  lemma InvServerCommit(s: State, t: State, c: Sid)
    requires Inv(s) && NextStep(s, t, ServerCommit(c))
    ensures Inv(t)
  {
    assert TxSound(s, c);
    var row := s.txs[c].row.value;
    forall d | d in t.calls ensures PhaseSound(t, d) {
      assert PhaseSound(s, d);
      if d != c { assert TxApartFromCall(s, c, d); }
    }
    forall x | x in t.txs ensures TxSound(t, x) {
      assert TxSound(s, x) && TxsApart(s, c, x);
    }
    forall a | a in t.attempts ensures AttemptSound(t, a) {
      if a != row.0 { assert AttemptSound(s, a); }
    }
    forall a, b | a in t.attempts && b in t.attempts && BothSucceed(t, a, b) ensures a == b {
      if a != row.0 { assert AttemptSound(s, a); }
      if b != row.0 { assert AttemptSound(s, b); }
      if a != row.0 && b != row.0 { assert BothSucceed(s, a, b); }
    }
    forall x, y | x in t.txs && y in t.txs && x != y ensures TxsApart(t, x, y) {
      assert TxsApart(s, x, y);
    }
    forall x, d | x in t.txs && d in t.calls && x != d ensures TxApartFromCall(t, x, d) {
      assert TxApartFromCall(s, x, d);
    }
  }

  lemma InvServerRollback(s: State, t: State, c: Sid)
    requires Inv(s) && NextStep(s, t, ServerRollback(c))
    ensures Inv(t)
  {
    forall d | d in t.calls ensures PhaseSound(t, d) {
      assert PhaseSound(s, d);
    }
    forall x | x in t.txs ensures TxSound(t, x) {
      assert TxSound(s, x);
    }
  }

  lemma InvPo(s: State, t: State, step: Step)
    requires Inv(s) && NextStep(s, t, step) && (step.NewPo? || step.ChangeStatus?)
    ensures Inv(t)
  {
    forall d | d in t.calls ensures PhaseSound(t, d) {
      PoKeepsCall(s, t, step, d);
    }
    forall x | x in t.txs ensures TxSound(t, x) {
      PoKeepsTx(s, t, step, x);
    }
    forall a | a in t.attempts ensures AttemptSound(t, a) {
      PoKeepsAttempt(s, t, step, a);
    }
    hide PhaseSound, TxSound, AttemptSound;
  }

  lemma PoKeepsCall(s: State, t: State, step: Step, d: Sid)
    requires Inv(s) && NextStep(s, t, step) && (step.NewPo? || step.ChangeStatus?) && d in s.calls
    ensures d in t.calls && PhaseSound(t, d)
  {
    hide TxSound, AttemptSound;
    assert PhaseSound(s, d);
  }

  lemma PoKeepsTx(s: State, t: State, step: Step, x: Sid)
    requires Inv(s) && NextStep(s, t, step) && (step.NewPo? || step.ChangeStatus?) && x in s.txs
    ensures x in t.txs && TxSound(t, x)
  {
    hide PhaseSound, AttemptSound;
    assert TxSound(s, x);
    if s.txs[x].marks { assert Marks(s.txs[x], s.txs[x].row.value.1.po); }
  }

  lemma PoKeepsAttempt(s: State, t: State, step: Step, a: AttemptId)
    requires Inv(s) && NextStep(s, t, step) && (step.NewPo? || step.ChangeStatus?) && a in s.attempts
    ensures a in t.attempts && AttemptSound(t, a)
  {
    hide PhaseSound, TxSound;
    assert AttemptSound(s, a);
  }

  lemma InvStep(s: State, t: State, step: Step)
    requires Inv(s) && NextStep(s, t, step)
    ensures Inv(t)
  {
    hide *;
    match step
    case NewPo(_, _) => InvPo(s, t, step);
    case ChangeStatus(_, _) => InvPo(s, t, step);
    case BeginTx(_, _) => InvBegin(s, t, step);
    case InsertAttempt(_, _) => InvBegin(s, t, step);
    case Answer(_, _) => InvCall(s, t, step);
    case Finish(_) => InvTx(s, t, step);
    case MarkSent(_) => InvTx(s, t, step);
    case MarkMiss(_) => InvCall(s, t, step);
    case GiveUp(_) => InvCall(s, t, step);
    case SendCommit(_) => InvTx(s, t, step);
    case ServerCommit(c) => InvServerCommit(s, t, c);
    case ServerRollback(c) => InvServerRollback(s, t, c);
    case CommitOk(_) => InvEnd(s, t, step);
    case CommitErr(_) => InvEnd(s, t, step);
    case Crash(_) => InvEnd(s, t, step);
  }

  lemma {:induction false} InvRun(run: seq<State>, i: nat)
    requires IsRun(run) && i < |run|
    ensures Inv(run[i])
  {
    hide Inv, NextStep;
    if i > 0 {
      InvRun(run, i - 1);
      assert Next(run[i - 1], run[i]);
      var step :| NextStep(run[i - 1], run[i], step);
      InvStep(run[i - 1], run[i], step);
    } else {
      InvInit(run[0]);
    }
  }

  lemma InvInit(s: State)
    requires Init(s)
    ensures Inv(s)
  {
  }

  // ---------------------------------------------------------------- what holds over every run

  ghost function Successes(s: State, po: PoId): set<AttemptId> {
    set a | a in s.attempts && IsSuccess(s, a, po)
  }

  /** The order takes the step from ready_to_send to sent. */
  ghost predicate Moves(s: State, t: State, po: PoId) {
    po in s.pos && s.pos[po] == ReadyToSend && po in t.pos && t.pos[po] == Sent
  }

  ghost predicate GainsOne(s: State, t: State, po: PoId) {
    Successes(s, po) == {} && exists a :: Successes(t, po) == {a}
  }

  /** An order gains its one success exactly in the step in which it is marked sent;
      committed attempts never change, and neither does what a call has reported. */
  ghost predicate Effect(s: State, t: State) {
    && (forall po :: Moves(s, t, po) ==> GainsOne(s, t, po))
    && (forall po :: !Moves(s, t, po) ==> Successes(t, po) == Successes(s, po))
    && (forall a | a in s.attempts :: a in t.attempts && t.attempts[a] == s.attempts[a])
    && (forall c | c in s.calls && s.calls[c].Ended? :: c in t.calls && t.calls[c] == s.calls[c])
    && (forall po | po in s.pos :: po in t.pos)
  }

  lemma CommitEffect(s: State, t: State, c: Sid)
    requires Inv(s) && NextStep(s, t, ServerCommit(c))
    ensures Effect(s, t)
  {
    assert TxSound(s, c);
    var aid, row := s.txs[c].row.value.0, s.txs[c].row.value.1;
    forall po ensures Moves(s, t, po) ==> GainsOne(s, t, po)
      ensures !Moves(s, t, po) ==> Successes(t, po) == Successes(s, po) {
      if Moves(s, t, po) {
        forall a ensures a !in Successes(s, po) {
          if a in s.attempts { assert AttemptSound(s, a); }
        }
        assert Successes(t, po) == {aid};
      } else {
        assert forall a :: IsSuccess(t, a, po) <==> IsSuccess(s, a, po);
      }
    }
  }

  lemma OtherEffect(s: State, t: State, step: Step)
    requires Inv(s) && NextStep(s, t, step) && !step.ServerCommit?
    ensures Effect(s, t)
  {
    assert t.attempts == s.attempts;
    forall po ensures !Moves(s, t, po) {}
    forall po ensures Successes(t, po) == Successes(s, po) {
      assert forall a :: IsSuccess(t, a, po) <==> IsSuccess(s, a, po);
    }
  }

  lemma EffectInRun(run: seq<State>, i: nat)
    requires IsRun(run) && i + 1 < |run|
    ensures Effect(run[i], run[i + 1])
  {
    hide Effect, Inv, NextStep;
    InvRun(run, i);
    assert Next(run[i], run[i + 1]);
    var step :| NextStep(run[i], run[i + 1], step);
    if step.ServerCommit? {
      CommitEffect(run[i], run[i + 1], step.sid);
    } else {
      OtherEffect(run[i], run[i + 1], step);
    }
  }

  /** How often the order goes from ready_to_send to sent in the run. */
  ghost function SentSteps(run: seq<State>, po: PoId): nat {
    if |run| <= 1 then 0
    else SentSteps(run[..|run| - 1], po) + if Moves(run[|run| - 2], run[|run| - 1], po) then 1 else 0
  }

  /** In every interleaving an order has at most one committed success, and has one exactly
      when it has taken the step from ready_to_send to sent. */
  lemma {:induction false} AtMostOneSuccess(run: seq<State>, po: PoId)
    requires IsRun(run)
    ensures |Successes(Last(run), po)| == SentSteps(run, po) <= 1
  {
    hide Next;
    if |run| == 1 {
      assert Successes(run[0], po) == {};
    } else {
      BeforeIsRun(run);
      AtMostOneSuccess(run[..|run| - 1], po);
      EffectInRun(run, |run| - 2);
      CountOne(run[|run| - 2], run[|run| - 1], po);
    }
  }

  lemma CountOne(s: State, t: State, po: PoId)
    requires Effect(s, t)
    ensures |Successes(t, po)| == |Successes(s, po)| + if Moves(s, t, po) then 1 else 0
    ensures Moves(s, t, po) ==> |Successes(s, po)| == 0
  {
    if Moves(s, t, po) { assert GainsOne(s, t, po); }
  }

  lemma BeforeIsRun(run: seq<State>)
    requires IsRun(run) && |run| > 1
    ensures IsRun(run[..|run| - 1])
  {
    hide Next;
    var before := run[..|run| - 1];
    forall i | 0 <= i < |before| - 1 ensures Next(before[i], before[i + 1]) {
      assert Next(run[i], run[i + 1]);
    }
  }

  /** A committed attempt, its verdict and its external reference never change; a success
      stays the only one of its order, so every later lookup finds the same attempt. */
  lemma {:induction false} SuccessIsForever(run: seq<State>, i: nat, j: nat, a: AttemptId, po: PoId)
    requires IsRun(run) && i <= j < |run| && IsSuccess(run[i], a, po)
    ensures a in run[j].attempts && run[j].attempts[a] == run[i].attempts[a]
    ensures forall b | IsSuccess(run[j], b, po) :: b == a
    decreases j - i
  {
    hide Next;
    if i < j {
      SuccessIsForever(run, i, j - 1, a, po);
      EffectInRun(run, j - 1);
    }
    OnlyOne(run, j, a, po);
  }

  lemma OnlyOne(run: seq<State>, j: nat, a: AttemptId, po: PoId)
    requires IsRun(run) && j < |run| && IsSuccess(run[j], a, po)
    ensures forall b | IsSuccess(run[j], b, po) :: b == a
  {
    hide IsRun;
    InvRun(run, j);
    forall b | IsSuccess(run[j], b, po) ensures b == a {
      assert BothSucceed(run[j], a, b);
    }
  }

  /** No committed attempt is pending. */
  lemma CommittedIsFinal(run: seq<State>, i: nat, a: AttemptId)
    requires IsRun(run) && i < |run| && a in run[i].attempts
    ensures run[i].attempts[a].verdict != Pending
  {
    hide IsRun;
    InvRun(run, i);
    assert AttemptSound(run[i], a);
  }

  /** What sendOne reports is what happened: success only for a committed success, and any
      other outcome rules a success of that call out for good, unless its commit failed. */
  lemma {:induction false} ReportsAreTrue(run: seq<State>, i: nat, j: nat, c: Sid)
    requires IsRun(run) && i <= j < |run| && c in run[i].calls && run[i].calls[c].Ended?
    ensures var p := run[i].calls[c];
            && (p.outcome == Success ==> p.made.Some? && IsSuccess(run[j], p.made.value, p.po))
            && (p.outcome != Success && !p.lost && p.made.Some? && p.made.value in run[j].attempts ==>
                  run[j].attempts[p.made.value].verdict != Success)
    ensures c in run[j].calls && run[j].calls[c] == run[i].calls[c]
    decreases j - i
  {
    hide Next;
    if i < j {
      ReportsAreTrue(run, i, j - 1, c);
      EffectInRun(run, j - 1);
    }
    InvRun(run, j);
    assert PhaseSound(run[j], c);
  }

  // ---------------------------------------------------------------- which call moves an order

  /** The call has a committed success for the order. */
  ghost predicate HasSuccess(s: State, c: Sid, po: PoId) {
    c in s.calls && AidOf(s.calls[c]).Some? && IsSuccess(s, AidOf(s.calls[c]).value, po)
  }

  /** In this step the server commits the transaction of the call, and the order goes from ready_to_send to sent. */
  ghost predicate MovesFor(s: State, t: State, c: Sid, po: PoId) {
    NextStep(s, t, ServerCommit(c)) && Moves(s, t, po)
  }

  ghost predicate MovesAt(run: seq<State>, k: nat, c: Sid, po: PoId)
    requires k + 1 < |run|
  {
    MovesFor(run[k], run[k + 1], c, po)
  }

  /** The call has moved the order in the part of the run that begins at `from`. */
  ghost predicate MovedBy(run: seq<State>, from: nat, c: Sid, po: PoId) {
    exists k | from <= k < |run| - 1 :: MovesAt(run, k, c, po)
  }

  lemma CommitGivesSuccess(s: State, t: State, c: Sid, po: PoId)
    requires Inv(s) && NextStep(s, t, ServerCommit(c)) && !s.calls[c].Crashed?
    ensures !HasSuccess(s, c, po) && (HasSuccess(t, c, po) <==> Moves(s, t, po))
  {
    assert TxSound(s, c) && PhaseSound(s, c);
    var row := s.txs[c].row.value;
    assert AidOf(s.calls[c]) == Some(row.0);
    if s.txs[c].marks {
      assert s.pos[row.1.po] == ReadyToSend;
    }
  }

  lemma OthersGiveNone(s: State, t: State, step: Step, c: Sid, po: PoId)
    requires Inv(s) && NextStep(s, t, step) && step != ServerCommit(c) && (c in t.calls ==> !t.calls[c].Crashed?)
    ensures HasSuccess(t, c, po) <==> HasSuccess(s, c, po)
    ensures !MovesFor(s, t, c, po)
  {
    OnlyItsCommitMoves(s, t, step, c, po);
    hide Moves, MovesFor, TxSound, TxsApart, AttemptSound, BothSucceed;
    if step.ServerCommit? {
      hide PhaseSound;
      assert c in s.calls ==> TxApartFromCall(s, step.sid, c);
    } else {
      hide TxApartFromCall;
      assert t.attempts == s.attempts;
      assert c in s.calls ==> PhaseSound(s, c);
    }
  }

  lemma OnlyItsCommitMoves(s: State, t: State, step: Step, c: Sid, po: PoId)
    requires NextStep(s, t, step) && step != ServerCommit(c)
    ensures !MovesFor(s, t, c, po)
  {
    if step.ServerCommit? {
      assert c in s.txs ==> c in t.txs;
    } else {
      assert !Moves(s, t, po);
    }
  }

  /** A call that begins in the run has a committed success for an order exactly when the order has gone from
      ready_to_send to sent in the step that commits the transaction of this very call. */
  lemma {:induction false} SuccessIsTheMove(run: seq<State>, from: nat, c: Sid, po: PoId)
    requires IsRun(run) && from < |run| && c !in run[from].calls
    requires c in Last(run).calls ==> !Last(run).calls[c].Crashed?
    ensures HasSuccess(Last(run), c, po) <==> MovedBy(run, from, c, po)
  {
    hide Next, Inv, HasSuccess, MovesFor;
    var n := |run| - 1;
    if from == n {
      assert !HasSuccess(run[n], c, po) by {
        NoCallNoSuccess(run[n], c, po);
      }
    } else {
      var before := run[..n];
      BeforeIsRun(run);
      InvRun(run, n - 1);
      assert Next(run[n - 1], run[n]);
      StepMoves(run[n - 1], run[n], c, po);
      SuccessIsTheMove(before, from, c, po);
      assert MovedBy(run, from, c, po) <==> MovedBy(before, from, c, po) || MovesFor(run[n - 1], run[n], c, po) by {
        OneMoreStep(run, from, c, po);
      }
    }
  }

  lemma NoCallNoSuccess(s: State, c: Sid, po: PoId)
    requires c !in s.calls
    ensures !HasSuccess(s, c, po)
  {}

  lemma OneMoreStep(run: seq<State>, from: nat, c: Sid, po: PoId)
    requires from < |run| - 1
    ensures var n := |run| - 1;
            MovedBy(run, from, c, po) <==> MovedBy(run[..n], from, c, po) || MovesFor(run[n - 1], run[n], c, po)
  {
    hide MovesFor;
    var n := |run| - 1;
    var before := run[..n];
    forall k | from <= k < n - 1
      ensures MovesAt(before, k, c, po) == MovesAt(run, k, c, po)
    {}
    assert MovesAt(run, n - 1, c, po) == MovesFor(run[n - 1], run[n], c, po);
    hide MovesAt;
    if MovedBy(run, from, c, po) {
      var k :| from <= k < n && MovesAt(run, k, c, po);
      if k < n - 1 {
        assert MovesAt(before, k, c, po);
      }
    }
    if MovedBy(before, from, c, po) {
      var k :| from <= k < n - 1 && MovesAt(before, k, c, po);
      assert MovesAt(run, k, c, po);
    }
  }

  lemma StepMoves(s: State, t: State, c: Sid, po: PoId)
    requires Inv(s) && Next(s, t) && (c in t.calls ==> !t.calls[c].Crashed?)
    ensures c in s.calls ==> !s.calls[c].Crashed?
    ensures HasSuccess(t, c, po) <==> HasSuccess(s, c, po) || MovesFor(s, t, c, po)
  {
    hide Inv, HasSuccess;
    var step :| NextStep(s, t, step);
    if c in s.calls {
      StaysCrashed(s, t, step, c);
    }
    if step == ServerCommit(c) {
      hide NextStep, Moves;
      ServerCommitsACall(s, t, c);
      CommitGivesSuccess(s, t, c, po);
    } else {
      hide NextStep, MovesFor;
      OthersGiveNone(s, t, step, c, po);
    }
  }

  lemma StaysCrashed(s: State, t: State, step: Step, c: Sid)
    requires NextStep(s, t, step) && c in s.calls
    ensures c in t.calls && (s.calls[c].Crashed? ==> t.calls[c].Crashed?)
  {}

  lemma ServerCommitsACall(s: State, t: State, c: Sid)
    requires NextStep(s, t, ServerCommit(c))
    ensures c in s.calls && t.calls == s.calls
  {}

  /** Calls are never forgotten. */
  lemma {:induction false} CallsStay(run: seq<State>, i: nat, j: nat, c: Sid)
    requires IsRun(run) && i <= j < |run| && c in run[i].calls
    ensures c in run[j].calls
    decreases j - i
  {
    if i < j {
      CallsStay(run, i, j - 1, c);
      hide NextStep;
      assert Next(run[j - 1], run[j]);
      var step :| NextStep(run[j - 1], run[j], step);
      StaysCrashed(run[j - 1], run[j], step, c);
    }
  }

  // ---------------------------------------------------------------- what the channel's answer becomes

  /** The attempt keeps the reference and the retries of the answer, and its verdict: a success or a skip if that is the
      status, and a failure for anything else, an empty or a pending status included. */
  ghost predicate Records(at: Attempt, reply: Reply) {
    && at.ref == reply.ref && at.retries == reply.retries && at.verdict != Pending
    && (at.verdict == Success <==> reply.status == Some(Success))
    && (at.verdict == Skipped <==> reply.status == Some(Skipped))
  }

  lemma FinalVerdictRecords(po: PoId, reply: Reply)
    ensures Records(Attempt(po, FinalVerdict(reply), reply.ref, reply.retries), reply)
  {
  }

  /** The row that the transaction of a call has finished records the answer of that call. */
  ghost predicate RowRecords(s: State, x: Sid)
    requires x in s.txs
  {
    s.txs[x].row.Some? && s.txs[x].row.value.1.verdict != Pending ==>
      x in s.answers && Records(s.txs[x].row.value.1, s.answers[x])
  }

  /** The answer in hand is the one that came; and the committed attempt of a call records the answer of that call. */
  ghost predicate CallRecords(s: State, c: Sid)
    requires c in s.calls
  {
    && (s.calls[c].Answered? ==> c in s.answers && s.answers[c] == s.calls[c].reply)
    && (s.calls[c].Opened? || s.calls[c].Inserted? ==> c !in s.answers)
    && (AidOf(s.calls[c]).Some? && AidOf(s.calls[c]).value in s.attempts ==>
          c in s.answers && Records(s.attempts[AidOf(s.calls[c]).value], s.answers[c]))
  }

  ghost predicate Recorded(s: State) {
    && (forall x | x in s.txs :: RowRecords(s, x))
    && (forall c | c in s.calls :: CallRecords(s, c))
    && (forall c | c in s.answers :: c in s.calls)
  }

  lemma RecordedCommit(s: State, t: State, sid: Sid)
    requires Inv(s) && Recorded(s) && NextStep(s, t, ServerCommit(sid))
    ensures Recorded(t)
  {
    hide Records;
    assert TxSound(s, sid) && RowRecords(s, sid) && PhaseSound(s, sid);
    forall c | c in t.calls
      ensures CallRecords(t, c)
    {
      assert CallRecords(s, c);
      assert c != sid ==> TxApartFromCall(s, sid, c);
    }
    forall x | x in t.txs
      ensures RowRecords(t, x)
    {
      assert RowRecords(s, x);
    }
  }

  lemma RecordedFinish(s: State, t: State, sid: Sid)
    requires Inv(s) && Recorded(s) && NextStep(s, t, Finish(sid))
    ensures Recorded(t)
  {
    FinalVerdictRecords(s.calls[sid].po, s.calls[sid].reply);
    hide Records, FinalVerdict;
    assert CallRecords(s, sid);
    forall c | c in t.calls
      ensures CallRecords(t, c)
    {
      assert CallRecords(s, c);
    }
    forall x | x in t.txs
      ensures RowRecords(t, x)
    {
      if x != sid { assert RowRecords(s, x); }
    }
  }

  lemma RecordedAnswer(s: State, t: State, sid: Sid, reply: Reply)
    requires Inv(s) && Recorded(s) && NextStep(s, t, Answer(sid, reply))
    ensures Recorded(t)
  {
    hide Records;
    assert CallRecords(s, sid) && PhaseSound(s, sid);
    assert sid in s.txs ==> TxSound(s, sid);
    forall c | c in t.calls
      ensures CallRecords(t, c)
    {
      if c != sid { assert CallRecords(s, c); }
    }
    forall x | x in t.txs
      ensures RowRecords(t, x)
    {
      assert RowRecords(s, x);
    }
  }

  /** A step that commits nothing and records nothing: calls go on and transactions keep their rows. */
  lemma RecordedQuiet(s: State, t: State, step: Step)
    requires Inv(s) && Recorded(s) && NextStep(s, t, step)
    requires !step.ServerCommit? && !step.Finish? && !step.Answer?
    ensures Recorded(t)
  {
    hide Records;
    forall c | c in t.calls
      ensures CallRecords(t, c)
    {
      QuietCall(s, t, step, c);
    }
    forall x | x in t.txs
      ensures RowRecords(t, x)
    {
      QuietRow(s, t, step, x);
    }
    hide CallRecords, RowRecords, Inv;
  }

  lemma QuietCall(s: State, t: State, step: Step, c: Sid)
    requires Inv(s) && Recorded(s) && NextStep(s, t, step) && c in t.calls
    requires !step.ServerCommit? && !step.Finish? && !step.Answer?
    ensures CallRecords(t, c)
  {
    hide Records;
    if c in s.calls {
      assert CallRecords(s, c) && PhaseSound(s, c);
    }
    hide PhaseSound, TxSound, RowRecords, TxsApart, AttemptSound, Inv;
  }

  lemma QuietRow(s: State, t: State, step: Step, x: Sid)
    requires Inv(s) && Recorded(s) && NextStep(s, t, step) && x in t.txs
    requires !step.ServerCommit? && !step.Finish? && !step.Answer?
    ensures RowRecords(t, x)
  {
    hide Records;
    if x in s.txs {
      assert RowRecords(s, x);
    }
    hide PhaseSound, TxSound, CallRecords, TxsApart, AttemptSound, Inv;
  }

  lemma {:induction false} RecordedRun(run: seq<State>, i: nat)
    requires IsRun(run) && i < |run|
    ensures Recorded(run[i])
  {
    if i > 0 {
      hide NextStep, Recorded, Inv;
      RecordedRun(run, i - 1);
      InvRun(run, i - 1);
      assert Next(run[i - 1], run[i]);
      var step :| NextStep(run[i - 1], run[i], step);
      match step
      case ServerCommit(sid) => RecordedCommit(run[i - 1], run[i], sid);
      case Finish(sid) => RecordedFinish(run[i - 1], run[i], sid);
      case Answer(sid, reply) => RecordedAnswer(run[i - 1], run[i], sid, reply);
      case _ => RecordedQuiet(run[i - 1], run[i], step);
    }
  }

  /** An order goes from ready_to_send to sent only for a call that the channel answered with a success. */
  lemma SentMeansAnswered(run: seq<State>, i: nat, c: Sid, po: PoId)
    requires IsRun(run) && i + 1 < |run| && MovesAt(run, i, c, po)
    ensures c in run[i].answers && run[i].answers[c].status == Some(Success)
  {
    RecordedRun(run, i);
    InvRun(run, i);
    hide IsRun;
    assert TxSound(run[i], c) && RowRecords(run[i], c);
  }

  /** The committed attempt of a call has the reference, the retries and the verdict of the answer that the call got. */
  lemma AttemptsRecordAnswers(run: seq<State>, i: nat, c: Sid)
    requires IsRun(run) && i < |run| && c in run[i].calls && AidOf(run[i].calls[c]).Some?
    requires AidOf(run[i].calls[c]).value in run[i].attempts
    ensures c in run[i].answers && Records(run[i].attempts[AidOf(run[i].calls[c]).value], run[i].answers[c])
  {
    RecordedRun(run, i);
    assert CallRecords(run[i], c);
  }

  lemma StepAt(run: seq<State>, i: nat) returns (step: Step)
    requires IsRun(run) && i + 1 < |run|
    ensures NextStep(run[i], run[i + 1], step)
  {
    hide NextStep;
    assert Next(run[i], run[i + 1]);
    step :| NextStep(run[i], run[i + 1], step);
  }

  /** An answer is the one the call got, and stays. */
  lemma {:induction false} AnswersStay(run: seq<State>, i: nat, j: nat, c: Sid)
    requires IsRun(run) && i <= j < |run| && c in run[i].answers
    ensures c in run[j].answers && run[j].answers[c] == run[i].answers[c]
    decreases j - i
  {
    hide IsRun, NextStep, Recorded;
    if i < j {
      AnswersStay(run, i, j - 1, c);
      RecordedRun(run, j - 1);
      var step := StepAt(run, j - 1);
      AnswerStays(run[j - 1], run[j], step, c);
    }
  }

  lemma AnswerStays(s: State, t: State, step: Step, c: Sid)
    requires Recorded(s) && NextStep(s, t, step) && c in s.answers
    ensures c in t.answers && t.answers[c] == s.answers[c]
  {
    if step.Answer? {
      assert CallRecords(s, step.sid);
    }
  }
}
