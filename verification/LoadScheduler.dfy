/** The scheduler's methods as code over LoadLock: each statement is a step there, and between any two of them all
    other calls, crashes and the server may take any steps. */
module LoadScheduler {
  import opened Basics
  import opened LoadLock

  /** How the parts of a tick turn out: the lock query (which may take the lock although it reports an error), the
      partitions, the load and the unlock; and whether nobody else does anything meanwhile. Reaping stale loads never
      stops a tick. */
  datatype Fate = Fate(queryFails: bool, grantedUnseen: bool, partitionsFail: bool, loadFails: bool, unlockFails: bool,
                       calm: bool)

  datatype Fault = NoConnection | QueryFailed | PartitionsFailed | LoadFailed

  /** The value of the tick metric. */
  datatype Outcome = Done | Skipped | Error(fault: Fault)

  function Idle(s: State): set<Session> { set c | c in s.pool && s.pool[c].None? }

  /** Once the lock is there: done only if partitions and load are; otherwise the error of what failed first. */
  ghost predicate AsItWent(fate: Fate, r: Outcome) {
    && (r == Done <==> !fate.partitionsFail && !fate.loadFails)
    && (r == Error(LoadFailed) <==> !fate.partitionsFail && fate.loadFails)
    && (r == Error(PartitionsFailed) <==> fate.partitionsFail)
  }

  /** The tick did not get as far as the lock. */
  ghost predicate WithoutLock(r: Outcome) { r == Skipped || r == Error(NoConnection) || r == Error(QueryFailed) }

  /** The call finds the lock taken by another session. */
  ghost predicate Busy(s: State, a: Call) { a in s.calls && s.calls[a].Connected? && !CanTake(s, s.calls[a].c) }

  /** The call loads, and does so under the lock unless its session was dropped. */
  ghost predicate LoadsUnderLock(s: State, a: Call) {
    a in s.calls && s.calls[a].Loading? && (Holds(s, s.calls[a].c) || a in s.orphans)
  }

  ghost predicate WasBusy(before: seq<State>, after: seq<State>, a: Call) {
    exists k :: |before| <= k < |after| && Busy(after[k], a)
  }

  ghost predicate HasLoaded(before: seq<State>, after: seq<State>, a: Call) {
    exists k :: |before| <= k < |after| && LoadsUnderLock(after[k], a)
  }

  lemma LoadedBefore(early: seq<State>, before: seq<State>, after: seq<State>, later: seq<State>, a: Call)
    requires early <= before && after <= later && HasLoaded(before, after, a)
    ensures HasLoaded(early, later, a)
  {
    var k :| |before| <= k < |after| && LoadsUnderLock(after[k], a);
    assert later[k] == after[k];
  }

  /** Where the call stands: on its own connection, and, at work, under the lock unless its session was dropped. */
  lemma Placed(s: State, a: Call)
    requires Inv(s) && a in s.calls
    ensures s.calls[a].c in s.pool && s.pool[s.calls[a].c] == Some(a)
    ensures HasLock(s.calls[a]) ==> (Holds(s, s.calls[a].c) <==> a !in s.orphans)
    ensures a in s.orphans ==> !s.calls[a].Connected?
  {
    assert CallOk(s, a);
  }

  lemma LockCounts(s: State)
    requires Inv(s)
    ensures s.lock.Taken? ==> s.lock.times >= 1
  {
  }

  lemma Longer(run: seq<State>, step: Step)
    requires IsRun(true, run) && Enabled(run[|run| - 1], step)
    ensures IsRun(true, run + [Apply(run[|run| - 1], step)])
  {
    var longer := Extend(run, step);
  }

  // What a part of a call does when nobody else does anything.

  ghost predicate Began(s: State, t: State, a: Call, kind: Kind, c: Session) {
    && c in Idle(s) && a !in s.calls
    && t == s.(calls := s.calls[a := Connected(kind, c)], pool := s.pool[c := Some(a)])
  }

  ghost predicate Locked(s: State, t: State, a: Call) {
    && a in s.calls && t.calls == s.calls[a := Preparing(s.calls[a].c)] && t.pool == s.pool
    && t.lock == Take(s.lock, s.calls[a].c)
  }

  ghost predicate Left(s: State, t: State, a: Call) {
    a in s.calls && t.calls == s.calls - {a} && t.pool == s.pool[s.calls[a].c := None]
  }

  /** The answer of a tick that is alone, and what it leaves behind. */
  ghost predicate Alone(s: State, t: State, fate: Fate, r: Outcome) {
    && t.pool == s.pool && t.calls == s.calls
    && (r == Error(NoConnection) <==> Idle(s) == {})
    && (r == Skipped ==> s.lock.Taken?)
    && (Idle(s) != {} && !fate.queryFails && s.lock.Free? ==> AsItWent(fate, r))
    && (Idle(s) != {} && !fate.queryFails && s.lock.Taken? && s.lock.holder !in Idle(s) ==> r == Skipped)
    && (!fate.unlockFails && !(fate.queryFails && fate.grantedUnseen) ==> t.lock == s.lock)
    && (r == Skipped || r == Error(NoConnection) ==> t.lock == s.lock)
  }

  /** What a call takes it gives back: the lock is as before, also for a session that held it already. */
  lemma TakeThenGiveBack(lock: Lock, c: Session)
    requires lock.Taken? ==> lock.holder == c && lock.times >= 1
    ensures GiveBack(Take(lock, c), c) == lock
  {
  }

  lemma BeginAndLeave(s: State, t: State, u: State, a: Call, kind: Kind, c: Session)
    requires Began(s, t, a, kind, c) && Left(t, u, a)
    ensures u.calls == s.calls && u.pool == s.pool
  {
  }

  lemma BeginAndLock(s: State, t: State, u: State, a: Call, kind: Kind, c: Session)
    requires Began(s, t, a, kind, c) && Locked(t, u, a)
    ensures u.calls == s.calls[a := Preparing(c)] && u.pool == s.pool[c := Some(a)] && u.lock == Take(s.lock, c)
  {
  }

  /** What the way to the lock comes to when nobody else does anything. */
  ghost predicate EntersAlone(s: State, t: State, a: Call, fate: Fate, r: Result<bool, Fault>) {
    && (r == Err(NoConnection) <==> Idle(s) == {})
    && (r == Err(NoConnection) || r == Ok(false) ==> t.lock == s.lock)
    && (r == Ok(false) ==> s.lock.Taken?)
    && (s.lock.Taken? && s.lock.holder !in Idle(s) ==> r != Ok(true))
    && (s.lock.Free? ==> r != Ok(false))
    && (r == Ok(true) ==>
          && a in t.calls && t.calls == s.calls[a := Preparing(t.calls[a].c)] && a !in s.calls
          && t.calls[a].c in Idle(s) && CanTake(s, t.calls[a].c) && t.lock == Take(s.lock, t.calls[a].c)
          && t.pool == s.pool[t.calls[a].c := Some(a)])
    && (r != Ok(true) ==> t.pool == s.pool && t.calls == s.calls)
    && (r != Ok(true) && !(fate.queryFails && fate.grantedUnseen) ==> t.lock == s.lock)
  }

  lemma EnterAndLeave(s: State, t: State, u: State, a: Call)
    requires a in t.calls && t.calls[a].Preparing? && t.calls[a].c in Idle(s) && a !in s.calls
    requires t.calls == s.calls[a := Preparing(t.calls[a].c)] && t.pool == s.pool[t.calls[a].c := Some(a)]
    requires Left(t, u, a)
    ensures u.calls == s.calls && u.pool == s.pool
  {
  }

  lemma WasBusyThen(before: seq<State>, mid: seq<State>, after: seq<State>, a: Call)
    requires before <= mid <= after && |before| < |mid| && Busy(mid[|mid| - 1], a)
    ensures WasBusy(before, after, a)
  {
    assert after[|mid| - 1] == mid[|mid| - 1];
  }

  class Server {
    var st: State
    var loads: nat
    ghost var trace: seq<State>

    ghost predicate Valid()
      reads this
    {
      IsRun(true, trace) && trace[|trace| - 1] == st && Inv(st)
    }

    constructor ()
      ensures Valid() && st == State(Free, map[], {}, map[], map[], 0, {}) && loads == 0
    {
      st, loads := State(Free, map[], {}, map[], map[], 0, {}), 0;
      trace := [State(Free, map[], {}, map[], map[], 0, {})];
    }

    method Do(step: Step)
      requires Valid() && Enabled(st, step)
      modifies `st, `trace
      ensures Valid() && st == Apply(old(st), step) && trace == old(trace) + [st]
    {
      hide Inv, IsRun, Enabled, Apply;
      InvStep(st, step);
      Longer(trace, step);
      st := Apply(st, step);
      trace := trace + [st];
    }

    /** Other ticks and triggers, crashes and the server go on for a while. They do not move the call a. */
    method Interfere(ghost a: Call, ghost calm: bool)
      requires Valid()
      modifies `st, `trace
      ensures Valid() && old(trace) <= trace && (calm ==> st == old(st))
      ensures a in old(st).calls ==> a in st.calls && st.calls[a] == old(st).calls[a]
      ensures a !in old(st).calls ==> a !in st.calls
      ensures (a in st.answers <==> a in old(st).answers) && (a in st.answers ==> st.answers[a] == old(st).answers[a])
    {
    }

    /** Takes an idle connection from the pool. */
    method Acquire(a: Call, kind: Kind) returns (c: Option<Session>)
      requires Valid() && a !in st.calls && a !in st.answers
      modifies `st, `trace
      ensures Valid() && old(trace) <= trace
      ensures c.None? <==> Idle(old(st)) == {}
      ensures c.None? ==> st == old(st)
      ensures c.Some? ==> |old(trace)| < |trace| && Began(old(st), st, a, kind, c.value)
    {
      hide Inv, IsRun;
      if Idle(st) == {} {
        return None;
      }
      var x := AnyOf(Idle(st));
      Do(Begin(a, kind, x));
      c := Some(x);
    }

    /** pg_try_advisory_lock; the connection goes back unless the lock was got. */
    method TryLock(a: Call, fate: Fate) returns (r: Result<bool, Fault>)
      requires Valid() && a in st.calls && st.calls[a].Connected?
      modifies `st, `trace
      ensures Valid() && old(trace) <= trace
      ensures r == if fate.queryFails then Err(QueryFailed) else Ok(CanTake(old(st), old(st).calls[a].c))
      ensures r == Ok(true) ==> Locked(old(st), st, a)
      ensures r != Ok(true) ==> Left(old(st), st, a)
      ensures r != Ok(true) && !(fate.queryFails && fate.grantedUnseen) ==> st.lock == old(st).lock
      ensures st.answers ==
              if old(st).calls[a].kind.Trigger? then old(st).answers[a := r == Ok(true)] else old(st).answers
    {
      hide Inv, IsRun;
      Placed(st, a);
      if fate.queryFails {
        Do(LockError(a, fate.grantedUnseen && CanTake(st, st.calls[a].c)));
        return Err(QueryFailed);
      }
      if !CanTake(st, st.calls[a].c) {
        Do(LockBusy(a));
        return Ok(false);
      }
      Do(LockOk(a));
      return Ok(true);
    }

    /** tickLocked, and the same steps in Tick: the load runs only on ready partitions, and under the lock. */
    method TickLocked(a: Call, fate: Fate) returns (r: Outcome)
      requires Valid() && a in st.calls && st.calls[a].Preparing?
      modifies this
      ensures Valid() && old(trace) <= trace
      ensures AsItWent(fate, r) && loads == old(loads) + if fate.partitionsFail then 0 else 1
      ensures !fate.partitionsFail ==> HasLoaded(old(trace), trace, a)
      ensures a in st.calls && st.calls[a] == Unlocking(old(st).calls[a].c)
      ensures fate.calm ==> st == Go(old(st), a, Unlocking(old(st).calls[a].c))
    {
      hide Inv, IsRun;
      Interfere(a, fate.calm);
      if fate.partitionsFail {
        Do(SkipLoad(a));
        return Error(PartitionsFailed);
      }
      Do(StartLoad(a));
      loads := loads + 1;
      Placed(st, a);
      ghost var loading, k := trace, |trace| - 1;
      assert LoadsUnderLock(trace[k], a);
      Interfere(a, fate.calm);
      Do(EndLoad(a));
      assert trace[k] == loading[k];
      return if fate.loadFails then Error(LoadFailed) else Done;
    }

    /** Unlock and release, whatever happened before. */
    method Finish(a: Call, fate: Fate)
      requires Valid() && a in st.calls && st.calls[a].Unlocking?
      modifies `st, `trace
      ensures Valid() && old(trace) <= trace && a !in st.calls
      ensures fate.calm ==> Left(old(st), st, a) && st.answers == old(st).answers
      ensures fate.calm && !fate.unlockFails ==> st.lock == GiveBack(old(st).lock, old(st).calls[a].c)
    {
      hide Inv, IsRun;
      Interfere(a, fate.calm);
      if fate.unlockFails {
        Do(UnlockError(a));
      } else {
        Do(UnlockOk(a));
      }
      Interfere(a, fate.calm);
      Placed(st, a);
      Do(Release(a));
    }

    /** The way to the lock, of a tick or a trigger: an idle connection and the lock, or the connection goes back. */
    method Enter(a: Call, kind: Kind, fate: Fate) returns (r: Result<bool, Fault>)
      requires Valid() && a !in st.calls && a !in st.answers
      modifies `st, `trace
      ensures Valid() && old(trace) <= trace
      ensures r == Ok(true) <==> a in st.calls
      ensures r == Ok(true) ==> st.calls[a].Preparing? && Holds(st, st.calls[a].c)
      ensures r == Ok(false) ==> WasBusy(old(trace), trace, a)
      ensures r == Err(QueryFailed) <==> fate.queryFails && r != Err(NoConnection)
      ensures r == Err(NoConnection) || r == Err(QueryFailed) || r.Ok?
      ensures a in st.answers <==> kind.Trigger? && r != Err(NoConnection)
      ensures a in st.answers ==> st.answers[a] == (r == Ok(true))
      ensures fate.calm ==> EntersAlone(old(st), st, a, fate, r)
    {
      hide Inv, IsRun, WasBusy, Began, Locked, Left;
      Interfere(a, fate.calm);
      ghost var s0 := st;
      var c := Acquire(a, kind);
      if c.None? {
        return Err(NoConnection);
      }
      AtBegin(s0, st, a, kind, c.value);
      ghost var s1 := st;
      Interfere(a, fate.calm);
      ghost var t1 := trace;
      Placed(st, a);
      r := TryLock(a, fate);
      AfterLock(t1[|t1| - 1], st, a);
      if r != Ok(true) && fate.calm {
        BeginAndLeave(s0, s1, st, a, kind, c.value);
      }
      if r == Ok(true) && fate.calm {
        BeginAndLock(s0, s1, st, a, kind, c.value);
      }
      if r == Ok(false) {
        WasBusyThen(old(trace), t1, trace, a);
      }
    }

    /** What follows the lock, in a tick or in the goroutine that TryTrigger starts: it loads under the lock or not at
        all, and gives back what it was handed. */
    method Work(a: Call, fate: Fate) returns (r: Outcome)
      requires Valid() && a in st.calls && st.calls[a].Preparing?
      modifies this
      ensures Valid() && old(trace) <= trace && a !in st.calls
      ensures AsItWent(fate, r) && loads == old(loads) + if fate.partitionsFail then 0 else 1
      ensures !fate.partitionsFail ==> HasLoaded(old(trace), trace, a)
      ensures fate.calm ==> Left(old(st), st, a)
      ensures fate.calm && !fate.unlockFails ==> st.lock == GiveBack(old(st).lock, old(st).calls[a].c)
    {
      hide Inv, IsRun, HasLoaded;
      r := TickLocked(a, fate);
      ghost var t := trace;
      Finish(a, fate);
      if !fate.partitionsFail {
        LoadedBefore(old(trace), old(trace), t, trace, a);
      }
    }

    /** Tick and TriggerOnce. A load runs under the lock or not at all, and a skipped tick found the lock taken; when
        nobody else does anything, pool and lock end as they began unless the unlock itself fails. */
    method Tick(a: Call, fate: Fate) returns (r: Outcome)
      requires Valid() && a !in st.calls && a !in st.answers
      modifies this
      ensures Valid() && old(trace) <= trace && a !in st.calls
      ensures !WithoutLock(r) <==> AsItWent(fate, r)
      ensures loads == old(loads) + if r == Done || r == Error(LoadFailed) then 1 else 0
      ensures loads > old(loads) ==> HasLoaded(old(trace), trace, a)
      ensures r == Skipped ==> WasBusy(old(trace), trace, a)
      ensures r == Error(QueryFailed) <==> fate.queryFails && r != Error(NoConnection)
      ensures fate.calm ==> Alone(old(st), st, fate, r)
    {
      hide Inv, IsRun, WasBusy, HasLoaded, Left, GiveBack, Take;
      LockCounts(st);
      var got := Enter(a, Kind.Tick, fate);
      if got.Err? {
        assert got == Err(got.error);
        return Error(got.error);
      }
      if !got.value {
        assert got == Ok(false);
        return Skipped;
      }
      assert got == Ok(true);
      ghost var s, t := st, trace;
      r := Work(a, fate);
      if !fate.partitionsFail {
        LoadedBefore(old(trace), t, trace, trace, a);
      }
      if fate.calm {
        EnterAndLeave(old(st), s, st, a);
        TakeThenGiveBack(old(st).lock, s.calls[a].c);
      }
    }

    /** TryTrigger: yes means that the goroutine has the lock and its connection; no that the lock was found taken; and
        anything but yes gives the connection back. */
    method TryTrigger(a: Call, fate: Fate) returns (r: Result<bool, Fault>)
      requires Valid() && a !in st.calls && a !in st.answers
      modifies `st, `trace
      ensures Valid() && old(trace) <= trace
      ensures r == Ok(true) <==> a in st.calls
      ensures r == Ok(true) ==> st.calls[a].Preparing? && Holds(st, st.calls[a].c)
      ensures r == Ok(false) ==> WasBusy(old(trace), trace, a)
      ensures r == Err(QueryFailed) <==> fate.queryFails && r != Err(NoConnection)
      ensures a in st.answers <==> r != Err(NoConnection)
      ensures a in st.answers ==> st.answers[a] == (r == Ok(true))
      ensures fate.calm ==> EntersAlone(old(st), st, a, fate, r)
    {
      r := Enter(a, Trigger, fate);
    }
  }

  lemma AtBegin(s: State, t: State, a: Call, kind: Kind, c: Session)
    requires Began(s, t, a, kind, c)
    ensures c in Idle(s) && a in t.calls && t.calls[a] == Connected(kind, c)
    ensures t.lock == s.lock && t.answers == s.answers && t.orphans == s.orphans
  {
  }

  lemma AfterLock(s: State, t: State, a: Call)
    ensures Locked(s, t, a) ==> a in s.calls && a in t.calls && t.calls[a] == Preparing(s.calls[a].c)
                                && t.lock == Take(s.lock, s.calls[a].c)
    ensures Left(s, t, a) ==> a !in t.calls
  {
  }
}
