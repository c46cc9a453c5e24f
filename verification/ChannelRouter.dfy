/** channel_router.go: SendAll, SendByID and sendOne against the shared database. Each
    statement is a step of SendLifecycle; between any two of them everybody else may act. */
module ChannelRouter {
  import opened Basics
  import opened SendLifecycle

  const MAX_POS_PER_RUN_DEFAULT: nat := 500

  class ChannelDb {
    var st: State
    ghost var trace: seq<State>

    ghost predicate Valid()
      reads this
    {
      IsRun(trace) && Last(trace) == st && Inv(st)
    }

    method Take(step: Step)
      requires Valid() && Enabled(st, step)
      modifies this
      ensures Valid() && st == Apply(old(st), step) && old(trace) <= trace
    {
      ghost var s := st;
      st := Apply(st, step);
      trace := trace + [st];
      RunGrows(s, old(trace), st, step);
    }

    /** Everybody but the call `me` goes on for a while, and its open transaction may end; when it is calm, nobody
        does. */
    method Interfere(ghost me: Sid, ghost calm: bool)
      requires Valid()
      modifies this
      ensures Valid() && old(trace) <= trace
      ensures calm ==> st == old(st)
      ensures me in old(st).calls ==> me in st.calls && st.calls[me] == old(st).calls[me]
      ensures me in st.txs ==> me in old(st).txs && st.txs[me] == old(st).txs[me]
    {
    }

    /** Ids the database and the runtime hand out: used by nobody so far. */
    method NewSid() returns (sid: Sid)
      requires Valid()
      ensures sid !in st.calls && sid !in st.txs
    {
      sid := 0;
      var todo := st.calls.Keys + st.txs.Keys;
      while todo != {}
        invariant forall c | c in st.calls.Keys + st.txs.Keys && c !in todo :: c < sid
        decreases todo
      {
        var c := AnyOf(todo);
        sid, todo := Max(sid, c + 1), todo - {c};
      }
    }

    method NewAid() returns (aid: AttemptId)
      requires Valid()
      ensures FreshAttempt(st, aid)
    {
      aid := 0;
      var used := st.attempts.Keys
      + (set x | x in st.txs && st.txs[x].row.Some? :: st.txs[x].row.value.0)
      + (set c | c in st.calls && AidOf(st.calls[c]).Some? :: AidOf(st.calls[c]).value);
      var todo := used;
      while todo != {}
        invariant forall a | a in used && a !in todo :: a < aid
        decreases todo
      {
        var a := AnyOf(todo);
        aid, todo := Max(aid, a + 1), todo - {a};
      }
      assert aid !in used;
    }

    /** Waits for the row lock of the order. */
    method WaitForPo(me: Sid, po: PoId)
      requires Valid() && me in st.calls && (me in st.txs ==> !st.txs[me].marks)
      modifies this
      ensures Valid() && old(trace) <= trace && !Locked(st, po)
      ensures !Locked(old(st), po) ==> st == old(st)
      ensures me in st.calls && st.calls[me] == old(st).calls[me]
      ensures me in st.txs ==> me in old(st).txs && st.txs[me] == old(st).txs[me]
    {
      var others := set x | x in st.txs && Marks(st.txs[x], po);
      if !Locked(st, po) {
        NobodyMarks(st, po);
      }
      while others != {}
        invariant Valid() && old(trace) <= trace && st.calls == old(st).calls
        invariant forall x | x in st.txs && Marks(st.txs[x], po) :: x in others
        invariant forall x | x in others :: x in st.txs
        invariant !Locked(old(st), po) ==> others == {} && st == old(st)
        invariant me !in others && (me in st.txs ==> me in old(st).txs && st.txs[me] == old(st).txs[me])
        decreases others
      {
        var x := AnyOf(others);
        Take(ServerRollback(x));
        others := others - {x};
      }
    }

    /** Waits until the transaction of the call has ended, by its commit if one was sent. */
    method WaitForServer(me: Sid)
      requires Valid() && me in st.calls
      modifies this
      ensures Valid() && old(trace) <= trace && me !in st.txs
      ensures me in old(st).txs && old(st).txs[me].commitSent ==>
                Enabled(old(st), ServerCommit(me)) && st == Apply(old(st), ServerCommit(me))
      ensures me !in old(st).txs ==> st == old(st)
      ensures me in st.calls && st.calls[me] == old(st).calls[me]
    {
      if me in st.txs {
        if st.txs[me].commitSent {
          assert TxSound(st, me);
          Take(ServerCommit(me));
        } else {
          Take(ServerRollback(me));
        }
      }
    }

    /** The lookup of a successful attempt of the order. */
    method FindExistingSuccessAttempt(po: PoId) returns (found: Option<AttemptId>)
      requires Valid()
      ensures found.Some? ==> IsSuccess(st, found.value, po)
      ensures found.None? ==> Successes(st, po) == {}
    {
      var todo := st.attempts.Keys;
      while todo != {}
        invariant forall a | IsSuccess(st, a, po) :: a in todo
        decreases todo
      {
        var a := AnyOf(todo);
        if st.attempts[a].po == po && st.attempts[a].verdict == Success { return Some(a); }
        todo := todo - {a};
      }
      return None;
    }

    /** The orders that are ready to send and not locked by another transaction, at most `limit` of them. */
    method SelectReadyToSendPOs(limit: nat) returns (pos: seq<PoId>)
      requires Valid()
      ensures |pos| <= limit && NoDuplicates(pos)
      ensures forall po | po in pos :: IsReady(st, po) && !Locked(st, po)
      ensures |pos| < limit ==> forall po | IsReady(st, po) && !Locked(st, po) :: po in pos
    {
      hide Locked, Inv, IsRun;
      pos := [];
      var todo := st.pos.Keys;
      while todo != {} && |pos| < limit
        invariant |pos| <= limit && NoDuplicates(pos)
        invariant forall po | po in pos :: po !in todo && IsReady(st, po) && !Locked(st, po)
        invariant forall po | po !in todo && IsReady(st, po) && !Locked(st, po) :: po in pos
        decreases todo
      {
        var po := AnyOf(todo);
        if st.pos[po] == ReadyToSend && !Locked(st, po) { pos := pos + [po]; }
        todo := todo - {po};
      }
    }
  }

  lemma RunGrows(s: State, run: seq<State>, t: State, step: Step)
    requires IsRun(run) && Last(run) == s && Inv(s) && NextStep(s, t, step)
    ensures IsRun(run + [t]) && Inv(t)
  {
    hide NextStep, Inv;
    InvStep(s, t, step);
    var longer := run + [t];
    forall i | 0 <= i < |longer| - 1 ensures Next(longer[i], longer[i + 1]) {
      if i < |run| - 1 { assert Next(run[i], run[i + 1]); }
    }
  }

  lemma AskingForCommit(s: State, c: Sid)
    requires Inv(s) && c in s.calls && (s.calls[c].PoMarked? || (s.calls[c].Finished? && s.calls[c].verdict != Success))
    ensures Enabled(s, SendCommit(c))
    ensures var p, t := s.calls[c], Apply(s, SendCommit(c));
            && c in t.calls && t.calls[c] == Committing(p.po, p.aid, if p.PoMarked? then Success else p.verdict)
            && t.pos == s.pos && (OnlyLock(s, c) ==> OnlyLock(t, c))
            && (c in s.txs ==> c in t.txs && t.txs[c].commitSent)
  {}

  lemma ServerCommits(s: State, c: Sid)
    requires Inv(s) && c in s.calls && s.calls[c].Committing?
    ensures c in s.txs && s.txs[c].commitSent ==>
              && Enabled(s, ServerCommit(c))
              && var p, t := s.calls[c], Apply(s, ServerCommit(c));
              && p.aid in t.attempts && (OnlyLock(s, c) ==> NoLocks(t))
              && t.pos == if p.verdict == Success then s.pos[p.po := Sent] else s.pos
  {
    if c in s.txs && s.txs[c].commitSent {
      assert TxSound(s, c) && TxFits(s.txs[c], s.calls[c]);
    }
  }

  lemma CommitReturns(s: State, c: Sid)
    requires c in s.calls && s.calls[c].Committing?
    ensures Enabled(s, CommitErr(c))
    ensures var p, t := s.calls[c], Apply(s, CommitErr(c));
            && c in t.calls && t.calls[c] == Ended(p.po, Some(p.aid), Failed, true)
            && t.txs == s.txs && t.attempts == s.attempts && t.pos == s.pos && (NoLocks(s) ==> NoLocks(t))
    ensures c !in s.txs && s.calls[c].aid in s.attempts ==>
              && Enabled(s, CommitOk(c))
              && var p, t := s.calls[c], Apply(s, CommitOk(c));
              && c in t.calls && t.calls[c] == Ended(p.po, Some(p.aid), p.verdict, false)
              && t.txs == s.txs && t.attempts == s.attempts && t.pos == s.pos && (NoLocks(s) ==> NoLocks(t))
  {}

  lemma NobodyMarks(s: State, po: PoId)
    requires !Locked(s, po)
    ensures (set x | x in s.txs && Marks(s.txs[x], po)) == {}
  {
    forall x | x in s.txs
      ensures !Marks(s.txs[x], po)
    {}
  }

  /** What the invariant says about one call. */
  lemma Placed(s: State, c: Sid)
    requires Inv(s) && c in s.calls
    ensures PhaseSound(s, c) && (c in s.txs ==> TxSound(s, c) && TxFits(s.txs[c], s.calls[c]))
  {
  }

  /** Whatever comes of the attempt of a call that was answered records that answer. */
  lemma AttemptRecords(before: seq<State>, run: seq<State>, c: Sid, reply: Reply)
    requires IsRun(before) && IsRun(run) && before <= run
    requires c in Last(before).answers && Last(before).answers[c] == reply && c in Last(run).calls
    ensures var made := AidOf(Last(run).calls[c]);
            made.Some? && made.value in Last(run).attempts ==> Records(Last(run).attempts[made.value], reply)
  {
    hide Records;
    AnswersStay(run, |before| - 1, |run| - 1, c);
    var made := AidOf(Last(run).calls[c]);
    if made.Some? && made.value in Last(run).attempts {
      AttemptsRecordAnswers(run, |run| - 1, c);
    }
  }

  /** What goes wrong in one call of sendOne (true: it fails), what the channel answers, and whether nobody else acts
      in the meantime. */
  datatype Luck = Luck(noConfig: bool, noSender: bool, begin: bool, insert: bool, reply: Reply,
                       finish: bool, mark: bool, commit: bool, calm: bool)

  ghost predicate Clean(l: Luck) {
    !l.noConfig && !l.noSender && !l.begin && !l.insert && !l.finish && !l.mark && !l.commit && l.calm
  }

  /** What one call of sendOne leaves behind: no transaction at all, or the ended call `sid`. `lost` says that its commit
      reported an error, `gone` that the server had ended the transaction before. */
  datatype Trail = NoCall | Call(sid: Sid, made: Option<AttemptId>, lost: bool, gone: bool)

  ghost predicate Left(s: State, po: PoId, trail: Trail, outcome: Verdict) {
    match trail
    case NoCall => outcome == Skipped || outcome == Failed
    case Call(sid, made, lost, _) => sid in s.calls && s.calls[sid] == Ended(po, made, outcome, lost)
  }

  /** The transaction of the call has ended without a trace. */
  ghost predicate RolledBack(s: State, trail: Trail)
    requires trail.Call?
  {
    trail.sid !in s.txs && (trail.made.Some? ==> trail.made.value !in s.attempts)
  }

  /** Every outcome has its cause: a failure is one of a statement, of the channel, or of the server. */
  ghost predicate Explained(l: Luck, trail: Trail, outcome: Verdict) {
    match trail
    case NoCall => if l.noConfig || l.noSender then outcome == Skipped else l.begin && outcome == Failed
    case Call(_, made, lost, gone) =>
      && !l.noConfig && !l.noSender && !l.begin
      && (made.None? ==> l.insert || gone)
      && (lost ==> l.commit || gone)
      && (outcome == Success ==> l.reply.status == Some(Success))
      && (outcome == Skipped ==> l.reply.status == Some(Success) || l.reply.status == Some(Skipped))
      && (outcome == Failed ==> Refused(l.reply) || l.insert || l.finish || l.mark || l.commit || gone)
  }

  /** The channel did not take the order: its status is failed, pending or empty. */
  ghost predicate Refused(reply: Reply) {
    reply.status.None? || reply.status.value == Failed || reply.status.value == Pending
  }

  lemma VerdictOfReply(reply: Reply)
    ensures FinalVerdict(reply) == Success <==> reply.status == Some(Success)
    ensures FinalVerdict(reply) == Skipped <==> reply.status == Some(Skipped)
    ensures FinalVerdict(reply) == Failed <==> Refused(reply)
  {
    FinalVerdictRecords(0, reply);
  }

  /** No call of the batch meets a fault or another actor, and every channel accepts. */
  ghost predicate AllClear(lucks: int -> Luck) {
    forall i: int :: Clean(lucks(i)) && lucks(i).reply.status == Some(Success)
  }

  lemma ClearOne(lucks: int -> Luck, i: int)
    requires AllClear(lucks)
    ensures Clean(lucks(i)) && lucks(i).reply.status == Some(Success)
  {}

  predicate IsReady(s: State, po: PoId) { po in s.pos && s.pos[po] == ReadyToSend }

  /** No open transaction holds the row lock of an order. */
  ghost predicate NoLocks(s: State) { forall x | x in s.txs :: !s.txs[x].marks }

  ghost predicate OnlyLock(s: State, c: Sid) { forall x | x in s.txs && x != c :: !s.txs[x].marks }

  lemma NoLocksButOne(s: State, c: Sid)
    ensures NoLocks(s) ==> OnlyLock(s, c)
  {}

  lemma NoLocksFree(s: State, po: PoId)
    requires NoLocks(s)
    ensures !Locked(s, po)
  {}

  datatype SendRunResult = SendRunResult(processed: nat, sent: nat, failed: nat, skipped: nat)

  datatype SendError = ReadFailed | NotFound | LookupFailed | NotReadyToSend

  class Router {
    const db: ChannelDb
    /** How often a channel has been asked to send. */
    var sends: int

    constructor (db: ChannelDb)
      ensures this.db == db && sends == 0
    {
      this.db, sends := db, 0;
    }

    /** insert attempt (pending), send, finish the attempt, mark the order sent, commit: one transaction. */
    method SendOne(po: PoId, luck: Luck) returns (outcome: Verdict, trail: Trail)
      requires db.Valid()
      modifies db, this`sends
      ensures db.Valid() && old(db.trace) <= db.trace
      ensures Left(db.st, po, trail, outcome) && Explained(luck, trail, outcome)
      ensures outcome != Pending && old(sends) <= sends <= old(sends) + 1
      ensures trail.Call? ==> trail.sid !in old(db.st).calls && (trail.gone ==> RolledBack(db.st, trail))
      ensures sends == old(sends) + 1 <==> trail.Call? && trail.made.Some?
      // A channel's success is skipped only when the order is not ready any more.
      ensures trail.Call? && outcome == Skipped && luck.reply.status == Some(Success) ==> !IsReady(db.st, po)
      // An order that the channel did not take is never reported sent, and its attempt, if it is there, is no success;
      // whatever attempt is there has the reference and the retries of the answer.
      ensures trail.Call? && Refused(luck.reply) ==> outcome == Failed
      ensures trail.Call? && trail.made.Some? && trail.made.value in db.st.attempts ==>
                Records(db.st.attempts[trail.made.value], luck.reply)
      // With nothing in the way the order gets what the channel answers.
      ensures Clean(luck) && NoLocks(old(db.st)) ==>
                && NoLocks(db.st) && sends == old(sends) + 1 && trail.Call? && trail.made.Some?
                && match luck.reply.status
                   case Some(Success) =>
                     if IsReady(old(db.st), po) then outcome == Success && db.st.pos == old(db.st).pos[po := Sent]
                     else outcome == Skipped && db.st.pos == old(db.st).pos
                   case Some(Skipped) => outcome == Skipped && db.st.pos == old(db.st).pos
                   case _ => outcome == SendLifecycle.Failed && db.st.pos == old(db.st).pos
      ensures Clean(luck) && NoLocks(old(db.st)) && (luck.reply.status == Some(Success) ==> IsReady(old(db.st), po)) ==>
                trail.made.value in db.st.attempts
    {
      hide Inv, IsRun, Apply, Enabled, NoLocks, OnlyLock, FinalVerdict, Records, Refused;
      VerdictOfReply(luck.reply);
      if luck.noConfig || luck.noSender {
        return Skipped, NoCall;
      }
      if luck.begin {
        return Failed, NoCall;
      }
      var sid, aid := InsertSendAttempt(po, luck);
      if aid.None? {
        return Failed, Call(sid, None, false, sid !in db.st.txs);
      }
      sends := sends + 1;
      var lost;
      outcome, lost := Deliver(sid, po, aid.value, luck);
      return outcome, Call(sid, aid, lost, sid !in db.st.txs && aid.value !in db.st.attempts);
    }

    /** From the pending attempt to the end of the call. */
    method Deliver(sid: Sid, po: PoId, aid: AttemptId, luck: Luck) returns (outcome: Verdict, lost: bool)
      requires db.Valid() && sid in db.st.calls && db.st.calls[sid] == Inserted(po, aid)
      modifies db
      ensures db.Valid() && old(db.trace) <= db.trace
      ensures sid in db.st.calls && db.st.calls[sid] == Ended(po, Some(aid), outcome, lost) && outcome != Pending
      ensures var gone := sid !in db.st.txs && aid !in db.st.attempts;
              && (lost ==> luck.commit || gone)
              && (outcome == Success ==> FinalVerdict(luck.reply) == Success)
              && (outcome == Skipped ==> FinalVerdict(luck.reply) == Success || FinalVerdict(luck.reply) == Skipped)
              && (outcome == Failed ==>
                    FinalVerdict(luck.reply) == Failed || luck.finish || luck.mark || luck.commit || gone)
      ensures FinalVerdict(luck.reply) == Failed ==> outcome == Failed
      ensures outcome == Skipped && FinalVerdict(luck.reply) == Success ==> !IsReady(db.st, po)
      ensures aid in db.st.attempts ==> Records(db.st.attempts[aid], luck.reply)
      ensures !luck.finish && !luck.mark && !luck.commit && luck.calm && NoLocks(old(db.st)) && sid in old(db.st).txs ==>
                var v := FinalVerdict(luck.reply);
                && NoLocks(db.st)
                && (if v == Success && !IsReady(old(db.st), po) then outcome == Skipped && db.st.pos == old(db.st).pos
                    else && outcome == v && aid in db.st.attempts
                         && db.st.pos == if v == Success then old(db.st).pos[po := Sent] else old(db.st).pos)
    {
      hide Inv, IsRun, Apply, Enabled, NoLocks, OnlyLock, FinalVerdict, Records, Refused;
      lost := false;
      var finished := FinishSendAttempt(sid, po, aid, luck);
      ghost var answered := db.trace;
      if !finished {
        return Failed, false;
      }
      if FinalVerdict(luck.reply) == Success {
        outcome := MarkPOSent(sid, po, aid, luck);
        if outcome != Success {
          return;
        }
      }
      NoLocksButOne(db.st, sid);
      var committed := Commit(sid, aid, luck);
      outcome, lost := if committed then FinalVerdict(luck.reply) else Failed, !committed;
      AttemptRecords(answered, db.trace, sid, luck.reply);
    }

    /** Begins the transaction and inserts the pending attempt. */
    method InsertSendAttempt(po: PoId, luck: Luck) returns (sid: Sid, aid: Option<AttemptId>)
      requires db.Valid()
      modifies db
      ensures db.Valid() && old(db.trace) <= db.trace && sid in db.st.calls && sid !in old(db.st).calls
      ensures db.st.calls[sid] == if aid.Some? then Inserted(po, aid.value) else Ended(po, None, Failed, false)
      ensures aid.None? ==> luck.insert || sid !in db.st.txs
      ensures luck.calm ==> db.st.pos == old(db.st).pos && sid in db.st.txs && (NoLocks(old(db.st)) ==> NoLocks(db.st))
    {
      hide Inv, IsRun;
      sid := db.NewSid();
      db.Take(BeginTx(sid, po));
      db.Interfere(sid, luck.calm);
      Placed(db.st, sid);
      if luck.insert || sid !in db.st.txs {
        db.Take(GiveUp(sid));
        return sid, None;
      }
      var id := db.NewAid();
      db.Take(InsertAttempt(sid, id));
      return sid, Some(id);
    }

    /** Takes the channel's answer and writes it into the attempt. */
    method FinishSendAttempt(sid: Sid, po: PoId, aid: AttemptId, luck: Luck) returns (ok: bool)
      requires db.Valid() && sid in db.st.calls && db.st.calls[sid] == Inserted(po, aid)
      modifies db
      ensures db.Valid() && old(db.trace) <= db.trace && sid in db.st.calls
      ensures db.st.calls[sid]
           == if ok then Finished(po, aid, FinalVerdict(luck.reply)) else Ended(po, Some(aid), Failed, false)
      ensures aid !in db.st.attempts && sid in db.st.answers && db.st.answers[sid] == luck.reply
      ensures !ok ==> luck.finish || sid !in db.st.txs
      ensures luck.calm && sid in old(db.st).txs ==>
                db.st.pos == old(db.st).pos && sid in db.st.txs && (NoLocks(old(db.st)) ==> NoLocks(db.st))
    {
      hide Inv, IsRun;
      db.Interfere(sid, luck.calm);
      db.Take(Answer(sid, luck.reply));
      ghost var answered := db.trace;
      db.Interfere(sid, luck.calm);
      Placed(db.st, sid);
      AnswersStay(db.trace, |answered| - 1, |db.trace| - 1, sid);
      ok := !luck.finish && sid in db.st.txs;
      if ok {
        db.Take(Finish(sid));
      } else {
        db.Take(GiveUp(sid));
      }
    }

    /** Sets the order to sent while it is ready to send. No row affected: somebody else was faster. */
    method MarkPOSent(sid: Sid, po: PoId, aid: AttemptId, luck: Luck) returns (r: Verdict)
      requires db.Valid() && sid in db.st.calls && db.st.calls[sid] == Finished(po, aid, Success)
      modifies db
      ensures db.Valid() && old(db.trace) <= db.trace && sid in db.st.calls
      ensures r == Success ==> db.st.calls[sid] == PoMarked(po, aid)
      ensures r != Success ==> (r == Skipped || r == Failed) && db.st.calls[sid] == Ended(po, Some(aid), r, false)
      ensures aid !in db.st.attempts
      ensures r == Failed ==> luck.mark || sid !in db.st.txs
      ensures r == Skipped ==> !IsReady(db.st, po)
      ensures r == Success ==> IsReady(db.st, po)
      ensures luck.calm && NoLocks(old(db.st)) && sid in old(db.st).txs ==>
                && db.st.pos == old(db.st).pos && sid in db.st.txs
                && (!luck.mark && r != Success ==> r == Skipped) && (r != Success ==> NoLocks(db.st))
                && OnlyLock(db.st, sid)
    {
      hide Inv, IsRun;
      if NoLocks(db.st) {
        NoLocksFree(db.st, po);
      }
      db.Interfere(sid, luck.calm);
      Placed(db.st, sid);
      db.WaitForPo(sid, po);
      Placed(db.st, sid);
      if luck.mark || sid !in db.st.txs {
        db.Take(GiveUp(sid));
        return Failed;
      }
      if !(po in db.st.pos && db.st.pos[po] == ReadyToSend) {
        db.Take(MarkMiss(sid));
        return Skipped;
      }
      db.Take(MarkSent(sid));
      return Success;
    }

    method Commit(sid: Sid, aid: AttemptId, luck: Luck) returns (ok: bool)
      requires db.Valid() && sid in db.st.calls
      requires var p := db.st.calls[sid]; (p.PoMarked? || (p.Finished? && p.verdict != Success)) && p.aid == aid
      modifies db
      ensures db.Valid() && old(db.trace) <= db.trace && sid in db.st.calls
      ensures var po := old(db.st).calls[sid].po;
              var v := if old(db.st).calls[sid].PoMarked? then Success else old(db.st).calls[sid].verdict;
              db.st.calls[sid] == if ok then Ended(po, Some(aid), v, false) else Ended(po, Some(aid), Failed, true)
      ensures !ok ==> luck.commit || (sid !in db.st.txs && aid !in db.st.attempts)
      ensures ok ==> aid in db.st.attempts
      ensures luck.calm && !luck.commit && sid in old(db.st).txs ==>
                && ok && db.st.pos == (if old(db.st).calls[sid].PoMarked?
                                       then old(db.st).pos[old(db.st).calls[sid].po := Sent]
                                       else old(db.st).pos)
                && (OnlyLock(old(db.st), sid) ==> NoLocks(db.st))
    {
      hide Inv, IsRun, Enabled, Apply, OnlyLock, NoLocks;
      db.Interfere(sid, luck.calm);
      AskingForCommit(db.st, sid);
      db.Take(SendCommit(sid));
      db.Interfere(sid, luck.calm);
      if !luck.commit {
        ServerCommits(db.st, sid);
        db.WaitForServer(sid);
      }
      ok := !luck.commit && aid in db.st.attempts;
      CommitReturns(db.st, sid);
      if ok {
        db.Take(CommitOk(sid));
      } else {
        db.Take(CommitErr(sid));
      }
    }

    /** One batch: select the orders that are ready, then send them one by one, each in its own
        transaction. `losses` counts the commits that reported an error. */
    method SendAll(maxPOs: int, selectFails: bool, lucks: int -> Luck)
      returns (r: Result<SendRunResult, ()>, pos: seq<PoId>, trails: seq<Trail>, outcomes: seq<Verdict>, losses: nat)
      requires db.Valid()
      modifies db, this`sends
      ensures db.Valid() && old(db.trace) <= db.trace
      ensures r.Err? <==> selectFails
      ensures r.Err? ==> trails == [] && sends == old(sends)
      ensures NoDuplicates(pos) && forall po | po in pos :: IsReady(old(db.st), po)
      ensures r.Ok? ==> |trails| == |pos| && AllLeft(db.st, pos, trails, outcomes) && losses == Lost(trails)
      ensures r.Ok? ==> forall i | 0 <= i < |trails| :: Explained(lucks(i), trails[i], outcomes[i])
      ensures r.Ok? ==>
                && r.value.sent == Count(outcomes, Success) && r.value.skipped == Count(outcomes, Skipped)
                && r.value.sent + r.value.failed + r.value.skipped == r.value.processed == |pos|
                && r.value.processed <= (if maxPOs <= 0 then 500 else maxPOs)
      // Orders are left over only when the limit is reached, or when somebody else has them.
      ensures r.Ok? && |pos| < (if maxPOs <= 0 then 500 else maxPOs) ==>
                forall po | IsReady(old(db.st), po) && !Locked(old(db.st), po) :: po in pos
      // Call by call: a committed success is the step in which this very call moved its order to sent.
      ensures r.Ok? ==> EachWonMoved(db.trace, |old(db.trace)| - 1, pos, trails)
      // So the orders that this run moved are those reported sent, and perhaps some whose commit reported an error.
      ensures r.Ok? ==> r.value.sent <= |MovedOrders(db.trace, |old(db.trace)| - 1, pos, trails)| <= r.value.sent + losses
      // With nothing in the way every order of the batch is sent.
      ensures r.Ok? && NoLocks(old(db.st)) && AllClear(lucks) ==>
                r.value.sent == |pos| && forall po | po in pos :: po in db.st.pos && db.st.pos[po] == Sent
    {
      hide IsRun, Inv, NoLocks, Clean, Batch, Tally, Quiet, SentSoFar, AllClear, IsReady, FinalVerdict, AllLeft, Count,
        Lost, EachWonMoved, MovedOrders, Explained, RolledBack, Left;
      if selectFails {
        return Err(()), [], [], [], 0;
      }
      var limit := if maxPOs <= 0 then MAX_POS_PER_RUN_DEFAULT else maxPOs;
      pos := db.SelectReadyToSendPOs(limit);
      trails, outcomes, losses := [], [], 0;
      var sent, failed, skipped := 0, 0, 0;
      ghost var start := db.st;
      ghost var quiet := NoLocks(start) && AllClear(lucks);
      StartBatch(start, db.trace, lucks, pos);
      while |trails| < |pos|
        invariant db.Valid() && old(db.trace) <= db.trace
        invariant Batch(start, db.st, lucks, pos, trails, outcomes) && |trails| <= |pos|
        invariant Tally(trails, outcomes, sent, failed, skipped, losses)
        invariant quiet ==> NoLocks(db.st) && Quiet(db.st, pos, trails, sent)
      {
        ghost var before := db.trace;
        if quiet {
          ClearOne(lucks, |trails|);
        }
        var outcome, trail := SendOne(pos[|trails|], lucks(|trails|));
        OneMoreCall(start, before, db.trace, lucks, pos, trails, outcomes, trail, outcome, |old(db.trace)| - 1);
        OneMoreTally(trails, outcomes, sent, failed, skipped, losses, trail, outcome);
        if quiet {
          OneMoreSent(Last(before), db.st, pos, trails, sent, trail, lucks(|trails|), outcome);
        }
        match outcome {
          case Success => sent := sent + 1;
          case Skipped => skipped := skipped + 1;
          case _ => failed := failed + 1;
        }
        if trail.Call? && trail.lost { losses := losses + 1; }
        trails, outcomes := trails + [trail], outcomes + [outcome];
      }
      BatchDone(start, db.trace, |old(db.trace)| - 1, lucks, pos, trails, outcomes, sent, failed, skipped, losses);
      if quiet {
        AllSent(db.st, pos, trails, sent);
      }
      return Ok(SendRunResult(|pos|, sent, failed, skipped)), pos, trails, outcomes, losses;
    }

    /** The admin retry of one order. */
    method SendByID(po: PoId, readFails: bool, lookupFails: bool, secondLookupFails: bool, luck: Luck)
      returns (r: Result<(Option<AttemptId>, Verdict, Option<string>), SendError>)
      requires db.Valid()
      modifies db, this`sends
      ensures db.Valid() && old(db.trace) <= db.trace
      // Idempotence: a success that is there is returned, and nothing is sent.
      ensures forall a | IsSuccess(old(db.st), a, po) && po in old(db.st).pos && !readFails && !lookupFails ::
                r == Ok((Some(a), Success, old(db.st).attempts[a].ref)) && sends == old(sends)
      ensures r == Err(ReadFailed) <==> readFails
      ensures r == Err(NotFound) <==> !readFails && po !in old(db.st).pos
      ensures r == Err(LookupFailed) <==> !readFails && po in old(db.st).pos && lookupFails
      ensures IsReady(old(db.st), po) && !readFails && !lookupFails ==> r.Ok?
      // With nothing in the way a ready order is sent once, and its outcome is the channel's answer.
      ensures Clean(luck) && NoLocks(old(db.st)) && IsReady(old(db.st), po) && !readFails && !lookupFails ==>
                && sends == old(sends) + 1 && r.Ok?
                && match luck.reply.status
                   case Some(Success) => r.value.1 == Success && po in db.st.pos && db.st.pos[po] == Sent
                   case Some(Skipped) => r.value.1 == Skipped && db.st.pos == old(db.st).pos
                   case _ => r.value.1 == SendLifecycle.Failed && db.st.pos == old(db.st).pos
      ensures r.Err? ==> sends == old(sends)
      ensures r == Err(NotReadyToSend) ==> old(db.st).pos[po] != ReadyToSend && Successes(old(db.st), po) == {}
      ensures sends > old(sends) ==> old(db.st).pos[po] == ReadyToSend
      // A success of this call is the channel's; its reference is that of the answer.
      ensures sends > old(sends) && r.value.1 == Success ==> luck.reply.status == Some(Success)
      ensures sends > old(sends) && r.value.1 == Success && !secondLookupFails ==> r.value.2 == luck.reply.ref
      ensures r.Ok? && r.value.1 == Success && !secondLookupFails ==>
                r.value.0.Some? && IsSuccess(db.st, r.value.0.value, po)
                && r.value.2 == db.st.attempts[r.value.0.value].ref
    {
      hide IsRun, Inv;
      if readFails {
        return Err(ReadFailed);
      }
      if po !in db.st.pos {
        return Err(NotFound);
      }
      var status := db.st.pos[po];
      var nobody := db.NewSid();
      db.Interfere(nobody, luck.calm);
      SuccessesPersist(old(db.trace), db.trace, po);
      if lookupFails {
        return Err(LookupFailed);
      }
      var existing := db.FindExistingSuccessAttempt(po);
      if existing.Some? {
        ReadyHasNoSuccess(db.st, po, existing.value);
        return Ok((existing, Success, db.st.attempts[existing.value].ref));
      }
      assert forall a | IsSuccess(old(db.st), a, po) :: a in Successes(db.st, po);
      if status != ReadyToSend {
        return Err(NotReadyToSend);
      }
      var outcome, trail := SendOne(po, luck);
      if outcome == Success {
        Placed(db.st, trail.sid);
        assert trail.made.value in Successes(db.st, po);
      }
      if secondLookupFails {
        return Ok((None, outcome, None));
      }
      var last := db.FindExistingSuccessAttempt(po);
      if outcome == Success {
        OnlyOne(db.trace, |db.trace| - 1, trail.made.value, po);
      }
      return Ok((last, outcome, if last.Some? then db.st.attempts[last.value].ref else None));
    }
  }

  /** An order that is ready has no committed success. */
  lemma ReadyHasNoSuccess(s: State, po: PoId, a: AttemptId)
    requires Inv(s) && IsSuccess(s, a, po)
    ensures !IsReady(s, po)
  {
    assert AttemptSound(s, a);
  }

  ghost predicate AllLeft(s: State, pos: seq<PoId>, trails: seq<Trail>, outcomes: seq<Verdict>) {
    |trails| == |outcomes| <= |pos| && forall i | 0 <= i < |trails| :: Left(s, pos[i], trails[i], outcomes[i])
  }

  ghost function Count(vs: seq<Verdict>, v: Verdict): nat {
    if vs == [] then 0 else Count(vs[..|vs| - 1], v) + if vs[|vs| - 1] == v then 1 else 0
  }

  ghost function Lost(trails: seq<Trail>): nat {
    if trails == [] then 0
    else
      var last := trails[|trails| - 1];
      Lost(trails[..|trails| - 1]) + if last.Call? && last.lost then 1 else 0
  }

  /** What the loop of a batch keeps: every call so far began in the batch, has ended, and its outcome is explained. */
  ghost predicate Batch(start: State, s: State, lucks: int -> Luck, pos: seq<PoId>, trails: seq<Trail>,
                        outcomes: seq<Verdict>)
  {
    && AllLeft(s, pos, trails, outcomes) && AllNew(start, trails)
    && forall i | 0 <= i < |trails| :: Explained(lucks(i), trails[i], outcomes[i])
  }

  ghost predicate Tally(trails: seq<Trail>, outcomes: seq<Verdict>, sent: int, failed: int, skipped: int, losses: int) {
    && sent == Count(outcomes, Success) && skipped == Count(outcomes, Skipped) && losses == Lost(trails)
    && sent + failed + skipped == |outcomes| && failed >= 0
  }

  ghost predicate Quiet(s: State, pos: seq<PoId>, trails: seq<Trail>, sent: int) {
    sent == |trails| && SentSoFar(s, pos, |trails|)
  }

  lemma StartBatch(s: State, run: seq<State>, lucks: int -> Luck, pos: seq<PoId>)
    requires IsRun(run) && forall po | po in pos :: IsReady(s, po)
    ensures run != [] && Batch(s, s, lucks, pos, [], []) && Tally([], [], 0, 0, 0, 0) && Quiet(s, pos, [], 0)
  {
    hide Next, Init, IsReady, SentSoFar;
    AllReady(s, pos);
  }

  lemma AllReady(s: State, pos: seq<PoId>)
    requires forall po | po in pos :: IsReady(s, po)
    ensures SentSoFar(s, pos, 0)
  {
    forall i | 0 <= i < |pos|
      ensures pos[i] in s.pos && s.pos[pos[i]] == ReadyToSend
    {
      assert IsReady(s, pos[i]);
    }
  }

  lemma OneMoreCall(start: State, before: seq<State>, after: seq<State>, lucks: int -> Luck, pos: seq<PoId>,
                    trails: seq<Trail>, outcomes: seq<Verdict>, trail: Trail, outcome: Verdict, from: nat)
    requires IsRun(before) && IsRun(after) && before <= after && from < |before| && before[from] == start
    requires Batch(start, Last(before), lucks, pos, trails, outcomes) && |trails| < |pos|
    requires Left(Last(after), pos[|trails|], trail, outcome) && Explained(lucks(|trails|), trail, outcome)
    requires trail.Call? ==> trail.sid !in Last(before).calls
    ensures Batch(start, Last(after), lucks, pos, trails + [trail], outcomes + [outcome])
  {
    hide IsRun, Left, Explained;
    AllStayLeft(before, after, pos, trails, outcomes);
    if trail.Call? {
      NewCallIsNew(before, from, trail.sid);
    }
  }

  lemma OneMoreTally(trails: seq<Trail>, outcomes: seq<Verdict>, sent: int, failed: int, skipped: int, losses: int,
                     trail: Trail, outcome: Verdict)
    requires Tally(trails, outcomes, sent, failed, skipped, losses)
    ensures Tally(trails + [trail], outcomes + [outcome],
                  if outcome == Success then sent + 1 else sent,
                  if outcome == Success || outcome == Skipped then failed else failed + 1,
                  if outcome == Skipped then skipped + 1 else skipped,
                  if trail.Call? && trail.lost then losses + 1 else losses)
  {
    assert (trails + [trail])[..|trails|] == trails && (outcomes + [outcome])[..|outcomes|] == outcomes;
  }

  lemma OneMoreSent(s: State, t: State, pos: seq<PoId>, trails: seq<Trail>, sent: int, trail: Trail, luck: Luck,
                    outcome: Verdict)
    requires Quiet(s, pos, trails, sent) && NoDuplicates(pos) && |trails| < |pos|
    requires luck.reply.status == Some(Success)
    requires if !IsReady(s, pos[|trails|]) then outcome == Skipped
             else outcome == Success && t.pos == s.pos[pos[|trails|] := Sent]
    ensures outcome == Success && Quiet(t, pos, trails + [trail], sent + 1)
  {
    forall i | 0 <= i < |pos|
      ensures i != |trails| ==> pos[i] != pos[|trails|]
    {}
  }

  lemma AllSent(s: State, pos: seq<PoId>, trails: seq<Trail>, sent: int)
    requires Quiet(s, pos, trails, sent) && |trails| == |pos|
    ensures sent == |pos| && forall po | po in pos :: po in s.pos && s.pos[po] == Sent
  {}

  lemma BatchDone(start: State, run: seq<State>, from: nat, lucks: int -> Luck, pos: seq<PoId>, trails: seq<Trail>,
                  outcomes: seq<Verdict>, sent: int, failed: int, skipped: int, losses: int)
    requires IsRun(run) && from < |run| && run[from] == start && NoDuplicates(pos) && |trails| == |pos|
    requires Batch(start, Last(run), lucks, pos, trails, outcomes)
    requires Tally(trails, outcomes, sent, failed, skipped, losses)
    ensures AllLeft(Last(run), pos, trails, outcomes) && losses == Lost(trails)
    ensures forall i | 0 <= i < |trails| :: Explained(lucks(i), trails[i], outcomes[i])
    ensures sent == Count(outcomes, Success) && skipped == Count(outcomes, Skipped)
    ensures sent >= 0 && failed >= 0 && skipped >= 0 && sent + failed + skipped == |pos|
    ensures EachWonMoved(run, from, pos, trails)
    ensures sent <= |MovedOrders(run, from, pos, trails)| <= sent + losses
  {
    hide IsRun, Explained, Left;
    WonIsBetween(run, pos, trails, outcomes);
    WonAreMoved(run, from, pos, trails, outcomes);
  }

  /** The calls are later than the state s. */
  ghost predicate AllNew(s: State, trails: seq<Trail>) {
    forall i | 0 <= i < |trails| && trails[i].Call? :: trails[i].sid !in s.calls
  }

  lemma NewCallIsNew(run: seq<State>, from: nat, c: Sid)
    requires IsRun(run) && from < |run| && c !in Last(run).calls
    ensures c !in run[from].calls
  {
    if c in run[from].calls {
      CallsStay(run, from, |run| - 1, c);
    }
  }

  /** The first n orders are sent and the others are ready. */
  ghost predicate SentSoFar(s: State, pos: seq<PoId>, n: nat) {
    forall i | 0 <= i < |pos| :: pos[i] in s.pos && s.pos[pos[i]] == if i < n then Sent else ReadyToSend
  }

  ghost predicate WonMoved(run: seq<State>, from: nat, po: PoId, trail: Trail)
    requires run != []
  {
    HasWon(Last(run), trail) <==> trail.Call? && MovedBy(run, from, trail.sid, po)
  }

  ghost predicate EachWonMoved(run: seq<State>, from: nat, pos: seq<PoId>, trails: seq<Trail>)
    requires run != []
  {
    |trails| <= |pos| && forall i | 0 <= i < |trails| :: WonMoved(run, from, pos[i], trails[i])
  }

  /** The orders that the calls have moved to sent in the part of the run from `from` on. */
  ghost function MovedOrders(run: seq<State>, from: nat, pos: seq<PoId>, trails: seq<Trail>): set<PoId>
    requires |trails| <= |pos|
  {
    set i | 0 <= i < |trails| && MovedAt(run, from, pos[i], trails[i]) :: pos[i]
  }

  /** The call has moved the order. */
  ghost predicate MovedAt(run: seq<State>, from: nat, po: PoId, trail: Trail) {
    trail.Call? && MovedBy(run, from, trail.sid, po)
  }

  lemma WonIsMoved(run: seq<State>, from: nat, po: PoId, trail: Trail, outcome: Verdict)
    requires IsRun(run) && from < |run| && Left(Last(run), po, trail, outcome)
    requires trail.Call? ==> trail.sid !in run[from].calls
    ensures WonMoved(run, from, po, trail)
  {
    hide Inv, IsRun, MovedBy;
    if trail.Call? {
      SuccessIsTheMove(run, from, trail.sid, po);
      InvRun(run, |run| - 1);
      Placed(Last(run), trail.sid);
    }
  }

  /** The calls that won are as many as the orders they moved. */
  lemma {:induction false} WonAreMoved(run: seq<State>, from: nat, pos: seq<PoId>, trails: seq<Trail>,
                                       outcomes: seq<Verdict>)
    requires IsRun(run) && from < |run| && AllLeft(Last(run), pos, trails, outcomes) && AllNew(run[from], trails)
    requires NoDuplicates(pos)
    ensures EachWonMoved(run, from, pos, trails)
    ensures |MovedOrders(run, from, pos, trails)| == Won(Last(run), trails)
  {
    hide IsRun, Inv, MovedBy, HasWon, Left;
    if trails != [] {
      var n := |trails| - 1;
      WonAreMoved(run, from, pos, trails[..n], outcomes[..n]);
      WonIsMoved(run, from, pos[n], trails[n], outcomes[n]);
      MovedOneMore(run, from, pos, trails);
    }
  }

  lemma MovedOneMore(run: seq<State>, from: nat, pos: seq<PoId>, trails: seq<Trail>)
    requires trails != [] && |trails| <= |pos| && NoDuplicates(pos)
    ensures var n := |trails| - 1;
            |MovedOrders(run, from, pos, trails)| == |MovedOrders(run, from, pos, trails[..n])|
            + if MovedAt(run, from, pos[n], trails[n]) then 1 else 0
  {
    hide MovedAt;
    var n := |trails| - 1;
    var before, after := MovedOrders(run, from, pos, trails[..n]), MovedOrders(run, from, pos, trails);
    var more := if MovedAt(run, from, pos[n], trails[n]) then {pos[n]} else {};
    assert pos[n] !in before;
    forall po
      ensures po in after <==> po in before || po in more
    {
      MovedOrMore(run, from, pos, trails, po);
    }
    assert after == before + more;
  }

  lemma MovedOrMore(run: seq<State>, from: nat, pos: seq<PoId>, trails: seq<Trail>, po: PoId)
    requires trails != [] && |trails| <= |pos|
    ensures var n := |trails| - 1;
            po in MovedOrders(run, from, pos, trails) <==>
                  po in MovedOrders(run, from, pos, trails[..n]) || (po == pos[n] && MovedAt(run, from, pos[n], trails[n]))
  {
    hide MovedAt;
    var n := |trails| - 1;
    if po in MovedOrders(run, from, pos, trails) {
      var i :| 0 <= i < |trails| && MovedAt(run, from, pos[i], trails[i]) && po == pos[i];
      assert i < n ==> trails[..n][i] == trails[i];
    }
    if po in MovedOrders(run, from, pos, trails[..n]) {
      var i :| 0 <= i < n && MovedAt(run, from, pos[i], trails[..n][i]) && po == pos[i];
      assert trails[..n][i] == trails[i];
    }
  }

  /** The attempt of the call is a committed success. */
  ghost predicate HasWon(s: State, t: Trail) {
    t.Call? && t.made.Some? && t.made.value in s.attempts && s.attempts[t.made.value].verdict == Success
  }

  ghost function Won(s: State, trails: seq<Trail>): nat {
    if trails == [] then 0
    else Won(s, trails[..|trails| - 1]) + if HasWon(s, trails[|trails| - 1]) then 1 else 0
  }

  /** What a call has reported stays readable in every later state. */
  lemma AllStayLeft(before: seq<State>, after: seq<State>, pos: seq<PoId>, trails: seq<Trail>, outcomes: seq<Verdict>)
    requires IsRun(before) && IsRun(after) && before <= after && AllLeft(Last(before), pos, trails, outcomes)
    ensures AllLeft(Last(after), pos, trails, outcomes)
  {
    hide Next;
    forall i | 0 <= i < |trails| ensures Left(Last(after), pos[i], trails[i], outcomes[i]) {
      assert Left(Last(before), pos[i], trails[i], outcomes[i]);
      if trails[i].Call? {
        ReportsAreTrue(after, |before| - 1, |after| - 1, trails[i].sid);
      }
    }
  }

  /** The calls that won are those reported sent, and possibly some whose commit reported an error. */
  lemma {:induction false} WonIsBetween(run: seq<State>, pos: seq<PoId>, trails: seq<Trail>, outcomes: seq<Verdict>)
    requires IsRun(run) && AllLeft(Last(run), pos, trails, outcomes)
    ensures Count(outcomes, Success) <= Won(Last(run), trails) <= Count(outcomes, Success) + Lost(trails)
  {
    hide Next;
    if trails != [] {
      var n := |trails| - 1;
      assert forall i | 0 <= i < n :: trails[..n][i] == trails[i] && outcomes[..n][i] == outcomes[i];
      WonIsBetween(run, pos, trails[..n], outcomes[..n]);
      assert Left(Last(run), pos[n], trails[n], outcomes[n]);
      if trails[n].Call? {
        ReportsAreTrue(run, |run| - 1, |run| - 1, trails[n].sid);
      }
    }
  }

  lemma SuccessesPersist(before: seq<State>, after: seq<State>, po: PoId)
    requires IsRun(before) && IsRun(after) && before <= after
    ensures Successes(Last(before), po) <= Successes(Last(after), po)
    ensures forall a | IsSuccess(Last(before), a, po) :: SameSuccess(Last(before), Last(after), a, po)
  {
    hide Next;
    forall a | IsSuccess(Last(before), a, po) ensures SameSuccess(Last(before), Last(after), a, po) {
      SuccessIsForever(after, |before| - 1, |after| - 1, a, po);
    }
  }

  /** The success of the order is still there, unchanged, and still the only one. */
  ghost predicate SameSuccess(s: State, t: State, a: AttemptId, po: PoId)
    requires IsSuccess(s, a, po)
  {
    && IsSuccess(t, a, po) && t.attempts[a] == s.attempts[a]
    && forall b | IsSuccess(t, b, po) :: b == a
  }
}
