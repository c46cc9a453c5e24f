/** Loader.Run against the shared database: each statement is a step of LoadLifecycle, and
    between any two of them everybody else may take any steps. */
module LoaderRun {
  import opened Basics
  import opened LoadReport
  import opened LoadLifecycle
  import B = BatchLoad
  import P = Pipeline

  /** The loads table, the pointer and the open transactions, with the history that led there. */
  class Database {
    var st: State
    ghost var trace: seq<State>

    ghost predicate Valid()
      reads this
    {
      IsRun(trace) && Last(trace) == st && Inv(st)
    }

    method Take(step: Step)
      requires Valid() && Enabled(st, step)
      modifies this
      ensures Valid() && st == Apply(old(st), step) && old(trace) != [] && trace == old(trace) + [st]
    {
      ghost var s := st;
      st := Apply(st, step);
      trace := trace + [st];
      RunGrows(s, old(trace), st, step);
    }

    /** Other loads, reapers, crashes of other workers and the server run for a while. They
        do not move the worker `me`; its open transaction may end, but does not change. When
        `calm` they leave that transaction and the row of the load alone. */
    method Interfere(ghost me: LoadId, ghost calm: bool)
      requires Valid()
      modifies this
      ensures Valid() && old(trace) <= trace
      ensures me in old(st).workers ==> me in st.workers && st.workers[me] == old(st).workers[me]
      ensures me in st.txs ==> me in old(st).txs && st.txs[me] == old(st).txs[me]
      ensures calm ==> Undisturbed(old(st), st, me)
    {
    }

    /** Waits until no other transaction holds the pointer row. */
    method WaitForPointer(me: LoadId, ghost calm: bool)
      requires Valid()
      modifies this
      ensures Valid() && old(trace) <= trace && PointerFree(st, me)
      ensures me in old(st).workers ==> me in st.workers && st.workers[me] == old(st).workers[me]
      ensures me in st.txs ==> me in old(st).txs && st.txs[me] == old(st).txs[me]
      ensures calm ==> Undisturbed(old(st), st, me)
    {
      hide Inv, IsRun;
      Interfere(me, calm);
      ghost var before := st;
      var others := set x | x in st.txs && x != me && st.txs[x].flip.Some?;
      while others != {}
        invariant Valid() && old(trace) <= trace && st.workers == before.workers && st.loads == before.loads
        invariant forall x | x in st.txs && x != me && st.txs[x].flip.Some? :: x in others
        invariant forall x | x in others :: x in st.txs
        invariant me !in others && (me in st.txs <==> me in before.txs)
        invariant me in st.txs ==> st.txs[me] == before.txs[me]
        decreases others
      {
        var x := AnyOf(others);
        Take(ServerRollback(x));
        others := others - {x};
      }
    }

    /** Waits until the worker's own transaction has ended, one way or the other. */
    method WaitForServer(me: LoadId, applies: bool)
      requires Valid() && me in st.workers
      modifies this
      ensures Valid() && old(trace) <= trace && me !in st.txs
      ensures me in st.workers && st.workers[me] == old(st).workers[me]
      ensures if me in old(st).txs && applies && old(st).txs[me].commitSent then IsCommitted(st, me)
              else st.loads == old(st).loads
    {
      if me in st.txs {
        if applies && st.txs[me].commitSent {
          assert TxSound(st, me);
          Take(ServerCommit(me));
        } else {
          Take(ServerRollback(me));
        }
      }
    }

    method BeginTx(id: LoadId, fails: bool) returns (ok: bool)
      requires Valid() && At(st, id) && st.workers[id].Gate? && PassesGate(st.workers[id].report)
      modifies this
      ensures Valid() && old(trace) <= trace && At(st, id)
      ensures st.workers[id] == if ok then InTx(old(st).workers[id].report) else Failing(FlipBeginTx, None)
      ensures ok == !fails && (ok ==> id in st.txs) && st.loads == old(st).loads
    {
      hide Inv, IsRun, PassesGate;
      if fails {
        Take(Step.BeginTxErr(id));
      } else {
        Take(Step.BeginTx(id));
      }
      return !fails;
    }

    /** UPDATE snapshot_pointer inside the transaction; takes the pointer row lock. */
    method Flip(id: LoadId, fails: bool, ghost calm: bool) returns (ok: bool)
      requires Valid() && At(st, id) && st.workers[id].InTx?
      modifies this
      ensures Valid() && old(trace) <= trace && At(st, id)
      ensures st.workers[id] == if ok then Flipped(old(st).workers[id].report) else Failing(FlipFailed, None)
      ensures ok ==> !fails && id in st.txs
      ensures !ok ==> fails || Lost(st, id, FlipFailed)
      ensures calm && id in old(st).txs ==> ok == !fails && st.loads[id] == old(st).loads[id]
    {
      hide Inv, IsRun;
      Placed(st, id);
      WaitForPointer(id, calm);
      Placed(st, id);
      ok := !fails && id in st.txs;
      if ok {
        Take(Step.Flip(id));
      } else {
        Take(FlipErr(id));
      }
    }

    /** Updates the row only while it is running; no row affected is an error. */
    method MarkCommitted(id: LoadId, total: int, failed: int, fails: bool, ghost calm: bool) returns (ok: bool)
      requires Valid() && At(st, id) && st.workers[id].Flipped?
      requires total == TotalLines(st.workers[id].report) && failed == TotalFailed(st.workers[id].report)
      modifies this
      ensures Valid() && old(trace) <= trace && At(st, id)
      ensures st.workers[id] == if ok then Marked(old(st).workers[id].report) else Failing(MarkCommittedFailed, None)
      ensures ok ==> !fails && id in st.txs
      ensures !ok ==> fails || Lost(st, id, MarkCommittedFailed)
      ensures calm && id in old(st).txs && old(st).loads[id].status == Running ==>
                ok == !fails && st.loads[id] == old(st).loads[id]
    {
      hide Inv, IsRun, TotalLines, TotalFailed;
      Placed(st, id);
      Interfere(id, calm);
      Placed(st, id);
      ok := !fails && id in st.txs && st.loads[id].status == Running;
      if ok {
        Take(Step.MarkCommitted(id, total, failed));
      } else {
        Take(MarkCommittedErr(id));
      }
    }

    /** tx.Commit: the caller may see an error although the server commits, before or later. */
    method Commit(id: LoadId, fails: bool, ghost calm: bool) returns (ok: bool)
      requires Valid() && At(st, id) && st.workers[id].Marked?
      modifies this
      ensures Valid() && old(trace) <= trace && At(st, id)
      ensures var report := old(st).workers[id].report;
              st.workers[id] == if ok then Succeeded(report) else Failing(CommitFailed, Some(report))
      ensures ok ==> !fails
      ensures !ok ==> fails || Lost(st, id, CommitFailed)
      ensures calm && id in old(st).txs ==> ok == !fails
      ensures calm && id in old(st).txs && fails ==>
                st.loads[id] == old(st).loads[id] && id in st.txs && st.txs[id].commitSent
    {
      hide Inv, IsRun, Apply, Enabled, PhaseSound, TxSound, TxFits;
      Interfere(id, calm);
      Placed(st, id);
      AskingForCommit(st, id);
      Take(SendCommit(id));
      Interfere(id, calm);
      if !fails {
        WaitForServer(id, true);
      }
      Placed(st, id);
      CommitReturns(st, id);
      ok := !fails && st.loads[id].status == Committed;
      if ok {
        Take(CommitOk(id));
      } else {
        Take(CommitErr(id));
      }
    }

    /** Marks the load failed, for the reason of the call, if it is still running at that moment; otherwise no row
        changes. A statement that is lost changes nothing. */
    method MarkFailed(id: LoadId, lost: bool, lateCommit: bool, ghost calm: bool)
      requires Valid() && At(st, id) && st.workers[id].Failing?
      modifies this
      ensures Valid() && old(trace) <= trace && At(st, id)
      ensures st.workers[id] == Phase.Stopped(old(st).workers[id].why, old(st).workers[id].sent)
      ensures !lost ==> st.loads[id].status != Running
      ensures !lost ==>
                && |trace| >= 2
                && var was := trace[|trace| - 2];
                && id in was.loads
                && if was.loads[id].status == Running then FailsItself(was, st, id) else st.loads == was.loads
      // When nobody else touches the load, its own late commit alone can come before the mark.
      ensures !lost && calm && old(st).loads[id].status == Running ==>
                if lateCommit && id in old(st).txs && old(st).txs[id].commitSent then st.loads[id].status == Committed
                else EndedAs(old(st).loads[id], st.loads[id], LoadLifecycle.Failed, old(st).workers[id].why)
    {
      hide Inv, IsRun, Apply, Enabled, TxSound, TxFits, PhaseSound, IsCommitted, FailsItself;
      Interfere(id, calm);
      if lost {
        Placed(st, id);
        MarkingFailed(st, id);
        Take(MarkFailedLost(id));
      } else {
        WaitForServer(id, lateCommit);
        Placed(st, id);
        MarkingFailed(st, id);
        ghost var was := st;
        Take(Step.MarkFailed(id));
        assert trace[|trace| - 2] == was;
        ShowFailure(was, st, id);
      }
    }
  }

  lemma ShowFailure(s: State, t: State, id: LoadId)
    requires id in s.loads && id in t.loads
    ensures FailsItself(s, t, id) ==>
              id in s.workers && EndedAs(s.loads[id], t.loads[id], LoadLifecycle.Failed, s.workers[id].why)
  {
  }

  lemma MarkingFailed(s: State, id: LoadId)
    requires At(s, id) && s.workers[id].Failing?
    ensures Enabled(s, MarkFailedLost(id))
    ensures var p, t := s.workers[id], Apply(s, MarkFailedLost(id));
            At(t, id) && t.workers[id] == Phase.Stopped(p.why, p.sent) && t.loads == s.loads
    ensures id !in s.txs ==>
              && Enabled(s, Step.MarkFailed(id))
              && var p, t := s.workers[id], Apply(s, Step.MarkFailed(id));
              && At(t, id) && t.workers[id] == Phase.Stopped(p.why, p.sent)
              && if s.loads[id].status == Running then FailsItself(s, t, id) else t.loads == s.loads
  {
    if id !in s.txs {
      MarkFailedFails(s, Apply(s, Step.MarkFailed(id)), id);
    }
  }

  lemma RunGrows(s: State, run: seq<State>, t: State, step: Step)
    requires IsRun(run) && Last(run) == s && Inv(s) && NextStep(s, t, step)
    ensures IsRun(run + [t]) && Inv(t)
  {
    hide NextStep, Inv;
    InvStep(s, t, step);
    var longer := run + [t];
    forall i | 0 <= i < |longer| - 1 ensures Next(longer[i], longer[i + 1]) {
      if i < |run| - 1 { assert Next(run[i], run[i + 1]); }
    }
  }

  /** The open transaction and the row of `me` are as they were. */
  ghost predicate Undisturbed(s: State, t: State, me: LoadId) {
    && (me in s.txs ==> me in t.txs && t.txs[me] == s.txs[me])
    && (me in s.loads ==> me in t.loads && t.loads[me] == s.loads[me])
  }

  /** What makes a statement of the flip transaction fail by itself: the server has ended the transaction, or
      something else has ended the load. */
  ghost predicate Lost(s: State, id: LoadId, why: Reason)
    requires id in s.loads
  {
    match why
    case FlipFailed => id !in s.txs
    case MarkCommittedFailed => id !in s.txs || s.loads[id].status != Running
    case CommitFailed => id !in s.txs && s.loads[id].status != Committed
    case _ => false
  }

  /** The two ends of tx.Commit. */
  lemma AskingForCommit(s: State, id: LoadId)
    requires At(s, id) && s.workers[id].Marked?
    ensures Enabled(s, SendCommit(id))
    ensures var t := Apply(s, SendCommit(id));
            && At(t, id) && t.workers[id] == Committing(s.workers[id].report) && t.loads == s.loads
            && (id in t.txs <==> id in s.txs) && (id in t.txs ==> t.txs[id].commitSent)
  {
  }

  lemma CommitReturns(s: State, id: LoadId)
    requires At(s, id) && s.workers[id].Committing?
    ensures Enabled(s, CommitErr(id))
    ensures var t := Apply(s, CommitErr(id));
            var report := s.workers[id].report;
            At(t, id) && t.loads == s.loads && t.txs == s.txs && t.workers[id] == Failing(CommitFailed, Some(report))
    ensures id !in s.txs && s.loads[id].status == Committed ==>
              && Enabled(s, CommitOk(id)) && At(Apply(s, CommitOk(id)), id)
              && Apply(s, CommitOk(id)).workers[id] == Succeeded(s.workers[id].report)
  {
  }

  /** What the invariant says about one worker. */
  lemma Placed(s: State, id: LoadId)
    requires Inv(s) && id in s.workers
    ensures At(s, id) && PhaseSound(s, id) && (id in s.txs ==> TxFits(s.txs[id], s.workers[id]) && TxSound(s, id))
  {
  }

  /** What fails in one call of Run. `unseen` and `lateCommit` mark statements that take effect although the caller
      sees an error; `calm` says that nobody else ends the transaction of the load or touches its row. */
  datatype Faults = Faults(insert: bool, insertUnseen: bool, begin: bool, flip: bool, mark: bool,
                           commit: bool, markFailed: bool, lateCommit: bool, calm: bool)

  datatype Failure = InsertFailed | Stopped(id: LoadId, why: Reason)

  /** The first statement of the flip transaction that fails, as the reason it gives. */
  ghost function FirstFault(faults: Faults): Option<Reason> {
    if faults.begin then Some(FlipBeginTx)
    else if faults.flip then Some(FlipFailed)
    else if faults.mark then Some(MarkCommittedFailed)
    else if faults.commit then Some(CommitFailed)
    else None
  }

  /** Which statement a reason blames: every one before it went well, and it failed itself, by its fault or because it
      found the transaction gone or the row no longer running (`lost`). */
  ghost predicate Blamed(faults: Faults, why: Option<Reason>, lost: bool) {
    match why
    case None => !faults.begin && !faults.flip && !faults.mark && !faults.commit
    case Some(FlipBeginTx) => faults.begin
    case Some(FlipFailed) => !faults.begin && (faults.flip || lost)
    case Some(MarkCommittedFailed) => !faults.begin && !faults.flip && (faults.mark || lost)
    case Some(CommitFailed) => !faults.begin && !faults.flip && !faults.mark && (faults.commit || lost)
    case _ => false
  }

  /** The last part of Run: flip the pointer and mark the load committed in one transaction. */
  method Publish(db: Database, id: LoadId, total: int, failed: int, faults: Faults) returns (why: Option<Reason>)
    requires db.Valid() && At(db.st, id) && db.st.workers[id].Gate? && PassesGate(db.st.workers[id].report)
    requires total == TotalLines(db.st.workers[id].report) && failed == TotalFailed(db.st.workers[id].report)
    modifies db
    ensures db.Valid() && old(db.trace) <= db.trace && At(db.st, id)
    ensures db.st.workers[id] == Published(old(db.st).workers[id].report, why)
    ensures Blamed(faults, why, why.Some? && Lost(db.st, id, why.value))
    ensures faults.calm && old(db.st).loads[id].status == Running ==>
              Blamed(faults, why, false) && why == FirstFault(faults)
    ensures faults.calm && old(db.st).loads[id].status == Running && why.Some? ==>
              && db.st.loads[id] == old(db.st).loads[id]
              && (why.value == CommitFailed ==> id in db.st.txs && db.st.txs[id].commitSent)
  {
    hide Inv, IsRun, PassesGate, TotalLines, TotalFailed;
    var ok := db.BeginTx(id, faults.begin);
    if !ok { return Some(FlipBeginTx); }
    ok := db.Flip(id, faults.flip, faults.calm);
    if !ok { return Some(FlipFailed); }
    ok := db.MarkCommitted(id, total, failed, faults.mark, faults.calm);
    if !ok { return Some(MarkCommittedFailed); }
    ok := db.Commit(id, faults.commit, faults.calm);
    if !ok { return Some(CommitFailed); }
    return None;
  }

  /** Where a call stands behind the flip transaction. */
  ghost function Published(report: Report, why: Option<Reason>): Phase {
    match why
    case None => Succeeded(report)
    case Some(CommitFailed) => Failing(CommitFailed, Some(report))
    case Some(other) => Failing(other, None)
  }

  /** The counters of all entities. */
  ghost function FullReport(cfg: B.Settings, feeds: Entity -> B.Feed): Report {
    map e: Entity :: P.ProgressOf(cfg, e, feeds(e))
  }

  /** How a load ends when nobody else touches it, all sources answer and every flush works. */
  ghost function Expected(cfg: B.Settings, feeds: Entity -> B.Feed, base: B.Tables, id: LoadId, faults: Faults)
    : Result<LoadId, Failure>
  {
    if faults.insert then Err(InsertFailed)
    else if P.LoadUpTo(cfg, feeds, base, 16).Err? then Err(Failure.Stopped(id, PipelineError))
    else if !PassesGate(FullReport(cfg, feeds)) then Err(Failure.Stopped(id, QualityThreshold))
    else match FirstFault(faults)
         case None => Ok(id)
         case Some(why) => Err(Failure.Stopped(id, why))
  }

  /** A row is inserted, with its worker or, behind an error, without. */
  lemma Inserting(s: State, id: LoadId)
    requires Inv(s) && id !in s.loads
    ensures id !in s.workers && Enabled(s, InsertRunning(id)) && Enabled(s, InsertUnseen(id))
    ensures !IsCommitted(s, id) && !IsCommitted(Apply(s, InsertUnseen(id)), id)
    ensures var t := Apply(s, InsertRunning(id));
            At(t, id) && t.workers[id] == Phase.Pipeline && t.loads[id] == LoadRow(Running, s.now, None, 0, 0, None)
  {
    if id in s.workers {
      Placed(s, id);
    }
  }

  /** One load: insert the row, run the pipeline, pass the gate, publish. */
  method Run(db: Database, uuid: LoadId, l: B.Loader, cfg: B.Settings, feeds: Entity -> B.Feed,
             flushFaults: (Entity, int) -> B.FlushFault, faults: Faults)
    returns (r: Result<LoadId, Failure>)
    requires db.Valid() && uuid !in db.st.loads
    requires l.batch == [] && l.state.seen == map[]
    modifies db, l, l.state
    ensures db.Valid() && old(db.trace) <= db.trace
    ensures r == Err(InsertFailed) <==> faults.insert
    ensures r.Ok? ==> r.value == uuid && uuid in db.st.workers && db.st.workers[uuid].Succeeded?
    ensures r.Err? && r.error.Stopped? ==>
              && r.error.id == uuid && uuid in db.st.workers
              && db.st.workers[uuid].Stopped? && db.st.workers[uuid].why == r.error.why
    // What the server was asked to commit, and no more, can be committed: the counters of the sequential load that
    // the tables hold. That covers a commit behind an error, now or (LoadLifecycle.ReportsAreTrue) later.
    ensures r.Ok? || (r.error.Stopped? && r.error.why == CommitFailed) ==>
              && Sent(db.st.workers[uuid]) == Some(FullReport(cfg, feeds))
              && WellFormed(FullReport(cfg, feeds)) && PassesGate(FullReport(cfg, feeds))
              && P.LoadUpTo(cfg, feeds, old(l.tables), 16) == Ok(l.tables)
    ensures IsCommitted(db.st, uuid) ==>
              && (r.Ok? || (r.error.Stopped? && r.error.why == CommitFailed))
              && db.st.loads[uuid].stats == Some(FullReport(cfg, feeds))
    // What the row says, unless its mark was lost: failed, for the reason that is returned; or the reaper, or the late
    // commit of this very call, got there first.
    ensures r.Err? && r.error.Stopped? && !faults.markFailed ==>
              var row := db.st.loads[uuid];
              || (row.status == LoadLifecycle.Failed && row.reason == Some(r.error.why))
              || (row.status == Aborted && row.reason == Some(Stale))
              || (row.status == Committed && r.error.why == CommitFailed)
    ensures r.Err? && r.error.Stopped? && !faults.markFailed && faults.calm ==>
              var row := db.st.loads[uuid];
              if r.error.why == CommitFailed && faults.lateCommit then row.status == Committed
              else row == LoadRow(LoadLifecycle.Failed, old(db.st).now, Some(r.error.why), 0, 0, None)
    // Each reason has its cause.
    ensures r == Err(Failure.Stopped(uuid, PipelineError)) ==>
              P.NoFaultsAtAll(flushFaults) && P.AllUp(feeds) ==> P.LoadUpTo(cfg, feeds, old(l.tables), 16).Err?
    ensures r == Err(Failure.Stopped(uuid, QualityThreshold)) ==> !PassesGate(FullReport(cfg, feeds))
    ensures faults.calm && P.NoFaultsAtAll(flushFaults) && P.AllUp(feeds) ==>
              r == Expected(cfg, feeds, old(l.tables), uuid, faults)
  {
    hide Inv, IsRun, P.ProgressOf, P.LoadUpTo, PassesGate, WellFormed, P.NoFaultsAtAll, P.AllUp, FirstFault, P.StoppedAt,
      P.ReferenceClosed, FullReport, TxSound, TxFits, Apply, Enabled, P.IsUp,
      EndedAs, FailsItself, Blamed;
    Inserting(db.st, uuid);
    if faults.insert {
      if faults.insertUnseen {
        db.Take(InsertUnseen(uuid));
      }
      return Err(InsertFailed);
    }
    db.Take(InsertRunning(uuid));
    var p := P.RunPipeline(l, cfg, feeds, flushFaults);
    var why := Judge(db, uuid, cfg, feeds, p, faults);
    if why.None? {
      Placed(db.st, uuid);
      return Ok(uuid);
    }
    ghost var row := db.st.loads[uuid];
    db.MarkFailed(uuid, faults.markFailed, faults.lateCommit, faults.calm);
    Placed(db.st, uuid);
    RowEnds(db.trace, uuid);
    EndedRow(row, db.st.loads[uuid], why.value);
    return Err(Failure.Stopped(uuid, why.value));
  }

  lemma EndedRow(before: LoadRow, after: LoadRow, why: Reason)
    ensures EndedAs(before, after, LoadLifecycle.Failed, why) ==>
              && after.status == LoadLifecycle.Failed && after.reason == Some(why) && after.startedAt == before.startedAt
              && after.total == before.total && after.failed == before.failed && after.stats == before.stats
  {
  }

  /** What the history says about the row of a call that has returned an error. */
  lemma RowEnds(run: seq<State>, id: LoadId)
    requires IsRun(run) && Inv(Last(run)) && At(Last(run), id) && Last(run).workers[id].Stopped?
    ensures var row, why := Last(run).loads[id], Last(run).workers[id].why;
            || row.status == Running
            || (row.status == LoadLifecycle.Failed && row.reason == Some(why))
            || (row.status == Aborted && row.reason == Some(Stale))
            || (row.status == Committed && why == CommitFailed)
  {
    ReasonsAreTrue(run, |run| - 1, id);
    assert PhaseSound(Last(run), id);
    hide IsRun;
  }

  /** What Run does with the outcome of the pipeline. */
  method Judge(db: Database, id: LoadId, cfg: B.Settings, feeds: Entity -> B.Feed,
               p: Result<Report, (Entity, B.Error)>, faults: Faults)
    returns (why: Option<Reason>)
    requires db.Valid() && At(db.st, id) && db.st.workers[id] == Phase.Pipeline && db.st.loads[id].status == Running
    requires p.Ok? ==> forall e: Entity :: e in p.value && p.value[e] == P.ProgressOf(cfg, e, feeds(e))
    modifies db
    ensures db.Valid() && old(db.trace) <= db.trace && At(db.st, id)
    ensures p.Ok? ==> p.value == FullReport(cfg, feeds)
    ensures why.None? ==> p.Ok?
    ensures p.Ok? && PassesGate(p.value) ==> db.st.workers[id] == Published(p.value, why)
    ensures why == Some(PipelineError) <==> p.Err?
    ensures why == Some(QualityThreshold) <==> p.Ok? && !PassesGate(p.value)
    ensures p.Err? || !PassesGate(p.value) ==> db.st.workers[id] == Failing(why.value, None)
    ensures faults.calm && p.Ok? && PassesGate(p.value) ==> why == FirstFault(faults)
    ensures faults.calm && why.Some? ==>
              && db.st.loads[id] == old(db.st).loads[id]
              && (why.value == CommitFailed ==> id in db.st.txs && db.st.txs[id].commitSent)
  {
    hide Inv, IsRun, P.ProgressOf, TotalLines, TotalFailed;
    db.Interfere(id, faults.calm);
    Placed(db.st, id);
    if p.Err? {
      db.Take(PipelineErr(id));
      return Some(PipelineError);
    }
    assert p.value == FullReport(cfg, feeds);
    P.ReportIsConserved(cfg, feeds, p.value);
    db.Take(PipelineOk(id, p.value));
    var total, failed := Totals(p.value);
    if OverThreshold(total, failed) {
      db.Take(GateRejects(id));
      return Some(QualityThreshold);
    }
    why := Publish(db, id, total, failed, faults);
  }
}
