/** Who may load (data_export/scheduler/scheduler.go): cron ticks, synchronous retries and admin triggers take one
    session-level advisory lock, each on a connection of its own from the pool. The lock belongs to the session and can
    be taken by it again; every lock, load, unlock and release is a step, and the calls mix freely. */
module LoadLock {
  import opened Basics

  type Session = int
  type Call = int

  /** Tick is the cron job and TriggerOnce; Trigger is TryTrigger, which goes on in a goroutine of its own. */
  datatype Kind = Tick | Trigger

  datatype Phase =
    | Connected(kind: Kind, c: Session)
    | Preparing(c: Session)
    | Loading(c: Session)
    | Unlocking(c: Session)
    | Releasing(c: Session)

  /** The session that holds the lock and how many times. */
  datatype Lock = Free | Taken(holder: Session, times: nat)

  /** `pool` says which call uses a connection; `dead` are the sessions whose process is gone, until the server notices;
      `answers` is what TryTrigger returned; `leaks` counts the times that the holder took the lock and will never give
      it back; `orphans` are the calls whose session the server dropped while they were at work. */
  datatype State = State(lock: Lock, pool: map<Session, Option<Call>>, dead: set<Session>, calls: map<Call, Phase>,
                         answers: map<Call, bool>, leaks: nat, orphans: set<Call>)

  datatype Step =
    | OpenSession(c: Session)
    | CloseSession(c: Session)
    | Begin(a: Call, kind: Kind, c: Session)
    | LockOk(a: Call)
    | LockBusy(a: Call)
    | LockError(a: Call, taken: bool)
    | StartLoad(a: Call)
    | SkipLoad(a: Call)
    | EndLoad(a: Call)
    | UnlockOk(a: Call)
    | UnlockError(a: Call)
    | Release(a: Call)
    | Crash(a: Call)
    | EndDeadSession(c: Session)
    | DropSession(c: Session)

  ghost predicate Init(s: State) {
    s == State(Free, map[], {}, map[], map[], 0, {})
  }

  predicate CanTake(s: State, c: Session) { s.lock.Free? || s.lock.holder == c }

  ghost predicate Enabled(s: State, step: Step) {
    match step
    case OpenSession(c) => c !in s.pool && c !in s.dead
    case CloseSession(c) => c in s.pool && s.pool[c].None?
    case Begin(a, _, c) => a !in s.calls && a !in s.answers && c in s.pool && s.pool[c].None?
    case LockOk(a) => a in s.calls && s.calls[a].Connected? && CanTake(s, s.calls[a].c)
    case LockBusy(a) => a in s.calls && s.calls[a].Connected? && !CanTake(s, s.calls[a].c)
    // The query fails; the server may have granted the lock all the same.
    case LockError(a, taken) => a in s.calls && s.calls[a].Connected? && (taken ==> CanTake(s, s.calls[a].c))
    case StartLoad(a) => a in s.calls && s.calls[a].Preparing?
    case SkipLoad(a) => a in s.calls && s.calls[a].Preparing?
    case EndLoad(a) => a in s.calls && s.calls[a].Loading?
    case UnlockOk(a) => a in s.calls && s.calls[a].Unlocking?
    case UnlockError(a) => a in s.calls && s.calls[a].Unlocking?
    case Release(a) => a in s.calls && s.calls[a].Releasing?
    // The process of the call dies; its session lives on until the server finds out.
    case Crash(a) => a in s.calls
    case EndDeadSession(c) => c in s.dead
    // The server loses a session that the pool still counts on.
    case DropSession(c) => c in s.pool
  }

  function Take(lock: Lock, c: Session): Lock { if lock.Free? then Taken(c, 1) else Taken(lock.holder, lock.times + 1) }

  function GiveBack(lock: Lock, c: Session): Lock {
    if lock.Free? || lock.holder != c then lock
    else if lock.times <= 1 then Free
    else Taken(c, lock.times - 1)
  }

  function Go(s: State, a: Call, p: Phase): State { s.(calls := s.calls[a := p]) }

  /** The call is over and its connection is back in the pool. */
  function Leave(s: State, a: Call, c: Session): State {
    s.(calls := s.calls - {a}, pool := s.pool[c := None], orphans := s.orphans - {a})
  }

  function Answer(s: State, a: Call, p: Phase, yes: bool): State {
    if p.Connected? && p.kind.Trigger? then s.(answers := s.answers[a := yes]) else s
  }

  /** The session's end gives back all it held. */
  function Forget(s: State, c: Session): State {
    if Holds(s, c) then s.(lock := Free, leaks := 0) else s
  }

  /** Once more taken than will be given back. */
  function Leak(s: State, c: Session): State { if Holds(s, c) then s.(leaks := s.leaks + 1) else s }

  predicate Holds(s: State, c: Session) { s.lock.Taken? && s.lock.holder == c }

  predicate HasLock(p: Phase) { p.Preparing? || p.Loading? || p.Unlocking? }

  predicate AtWork(s: State, c: Session) {
    c in s.pool && s.pool[c].Some? && s.pool[c].value in s.calls && HasLock(s.calls[s.pool[c].value])
  }

  function Abandon(s: State, a: Call): State
    requires a in s.calls
  {
    var p := s.calls[a];
    var t := if HasLock(p) then Leak(s, p.c) else s;
    t.(calls := t.calls - {a}, pool := t.pool - {p.c}, dead := t.dead + {p.c}, orphans := t.orphans - {a})
  }

  function Apply(s: State, step: Step): State
    requires Enabled(s, step)
  {
    match step
    case OpenSession(c) => s.(pool := s.pool[c := None])
    case CloseSession(c) => Forget(s, c).(pool := s.pool - {c})
    case Begin(a, kind, c) => Go(s, a, Connected(kind, c)).(pool := s.pool[c := Some(a)])
    case LockOk(a) =>
      var p := s.calls[a];
      Answer(Go(s, a, Preparing(p.c)), a, p, true).(lock := Take(s.lock, p.c))
    case LockBusy(a) => Answer(Leave(s, a, s.calls[a].c), a, s.calls[a], false)
    case LockError(a, taken) =>
      var p := s.calls[a];
      var left := Answer(Leave(s, a, p.c), a, p, false);
      if taken then left.(lock := Take(s.lock, p.c), leaks := s.leaks + 1) else left
    case StartLoad(a) => Go(s, a, Loading(s.calls[a].c))
    case SkipLoad(a) => Go(s, a, Unlocking(s.calls[a].c))
    case EndLoad(a) => Go(s, a, Unlocking(s.calls[a].c))
    case UnlockOk(a) => Go(s, a, Releasing(s.calls[a].c)).(lock := GiveBack(s.lock, s.calls[a].c))
    case UnlockError(a) => Leak(Go(s, a, Releasing(s.calls[a].c)), s.calls[a].c)
    case Release(a) => Leave(s, a, s.calls[a].c)
    case Crash(a) => Abandon(s, a)
    case EndDeadSession(c) => Forget(s, c).(dead := s.dead - {c})
    case DropSession(c) =>
      var lost := if Holds(s, c) && AtWork(s, c) then {s.pool[c].value} else {};
      Forget(s, c).(orphans := s.orphans + lost)
  }

  ghost predicate Next(drops: bool, s: State, t: State) {
    exists step :: Enabled(s, step) && (step.DropSession? ==> drops) && t == Apply(s, step)
  }

  /** A run; without drops the server keeps every session that the pool has. */
  ghost predicate IsRun(drops: bool, run: seq<State>) {
    && run != [] && Init(run[0])
    && forall i | 0 <= i < |run| - 1 :: Next(drops, run[i], run[i + 1])
  }

  // The invariant.

  /** A call at work holds the lock on its own connection, unless that session was dropped under it. */
  ghost predicate CallOk(s: State, a: Call)
    requires a in s.calls
  {
    var p := s.calls[a];
    && p.c in s.pool && s.pool[p.c] == Some(a)
    && (HasLock(p) ==> (Holds(s, p.c) <==> a !in s.orphans))
  }

  /** The holder has taken the lock once for the call that is at work on its connection, and once for every leak. */
  ghost predicate CountOk(s: State) {
    if s.lock.Free? then s.leaks == 0
    else
      && (s.lock.holder in s.pool || s.lock.holder in s.dead)
      && s.lock.times == s.leaks + (if AtWork(s, s.lock.holder) then 1 else 0)
      && s.lock.times >= 1
  }

  /** A connection that is in use is used by the call that has it. */
  ghost predicate UseOk(s: State, c: Session)
    requires c in s.pool
  {
    s.pool[c].Some? ==> s.pool[c].value in s.calls && s.calls[s.pool[c].value].c == c
  }

  ghost predicate Inv(s: State) {
    && (forall a | a in s.calls :: CallOk(s, a))
    && (forall c | c in s.pool :: UseOk(s, c))
    && CountOk(s)
    && s.pool.Keys !! s.dead
    && (forall a | a in s.orphans :: a in s.calls && !s.calls[a].Connected?)
    && (forall a | a in s.answers && a in s.calls :: s.answers[a] && !s.calls[a].Connected?)
  }

  /** A step of one call leaves the others as they were: they use other connections. */
  lemma OthersKeep(s: State, t: State, a: Call, c: Session)
    requires Inv(s)
    requires a in s.calls ==> s.calls[a].c == c
    requires a !in s.calls ==> c in s.pool && s.pool[c].None?
    requires forall b | b in t.calls && b != a :: b in s.calls && t.calls[b] == s.calls[b]
    requires forall d | d in s.pool && d != c :: d in t.pool && t.pool[d] == s.pool[d]
    requires forall b | b in s.calls && b != a :: b in t.orphans <==> b in s.orphans
    requires forall d | d != c :: Holds(t, d) == Holds(s, d)
    ensures forall b | b in t.calls && b != a :: CallOk(t, b)
  {
    forall b | b in t.calls && b != a
      ensures CallOk(t, b)
    {
      assert CallOk(s, b);
      assert a in s.calls ==> CallOk(s, a);
    }
  }

  lemma InvSession(s: State, step: Step)
    requires Inv(s) && Enabled(s, step) && (step.OpenSession? || step.CloseSession? || step.EndDeadSession?)
    ensures Inv(Apply(s, step))
  {
    var t := Apply(s, step);
    forall b | b in t.calls
      ensures CallOk(t, b)
    {
      assert CallOk(s, b);
    }
  }

  lemma InvDrop(s: State, c: Session)
    requires Inv(s) && Enabled(s, DropSession(c))
    ensures Inv(Apply(s, DropSession(c)))
  {
    var t := Apply(s, DropSession(c));
    assert UseOk(s, c);
    forall b | b in t.calls
      ensures CallOk(t, b)
    {
      assert CallOk(s, b);
    }
  }

  lemma InvCrash(s: State, a: Call)
    requires Inv(s) && Enabled(s, Crash(a))
    ensures Inv(Apply(s, Crash(a)))
  {
    var t, c := Apply(s, Crash(a)), s.calls[a].c;
    assert CallOk(s, a);
    OthersKeep(s, t, a, c);
    WorkKept(s, t, a, c);
  }

  lemma InvBegin(s: State, step: Step)
    requires Inv(s) && Enabled(s, step) && step.Begin?
    ensures Inv(Apply(s, step))
  {
    OthersKeep(s, Apply(s, step), step.a, step.c);
  }

  lemma InvLockOk(s: State, a: Call)
    requires Inv(s) && Enabled(s, LockOk(a))
    ensures Inv(Apply(s, LockOk(a)))
  {
    var t, c := Apply(s, LockOk(a)), s.calls[a].c;
    assert CallOk(s, a) && !AtWork(s, c);
    OthersKeep(s, t, a, c);
    WorkKept(s, t, a, c);
  }

  lemma InvRefused(s: State, step: Step)
    requires Inv(s) && Enabled(s, step) && (step.LockBusy? || step.LockError?)
    ensures Inv(Apply(s, step))
  {
    var t, c := Apply(s, step), s.calls[step.a].c;
    assert CallOk(s, step.a) && !AtWork(s, c);
    OthersKeep(s, t, step.a, c);
    WorkKept(s, t, step.a, c);
  }

  lemma InvWork(s: State, step: Step)
    requires Inv(s) && Enabled(s, step)
    requires step.StartLoad? || step.SkipLoad? || step.EndLoad? || step.UnlockOk? || step.UnlockError? || step.Release?
    ensures Inv(Apply(s, step))
  {
    var t, c := Apply(s, step), s.calls[step.a].c;
    assert CallOk(s, step.a);
    OthersKeep(s, t, step.a, c);
    WorkKept(s, t, step.a, c);
  }

  lemma WorkKept(s: State, t: State, a: Call, c: Session)
    requires Inv(s) && a in s.calls && s.calls[a].c == c
    requires forall b | b in s.calls && b != a :: b in t.calls && t.calls[b] == s.calls[b]
    requires forall d | d in s.pool && d != c :: d in t.pool && t.pool[d] == s.pool[d]
    requires forall d | d in t.pool && d != c :: d in s.pool
    ensures forall d | d != c :: AtWork(t, d) == AtWork(s, d)
    ensures forall d | d in t.pool && d != c :: UseOk(t, d)
  {
    forall d | d != c
      ensures AtWork(t, d) == AtWork(s, d)
      ensures d in t.pool ==> UseOk(t, d)
    {
      assert d in t.pool <==> d in s.pool;
      if d in s.pool && s.pool[d].Some? {
        var b := s.pool[d].value;
        assert UseOk(s, d);
        assert b in s.calls && b != a;
        assert b in t.calls && t.calls[b] == s.calls[b];
      }
    }
  }

  lemma InvStep(s: State, step: Step)
    requires Inv(s) && Enabled(s, step)
    ensures Inv(Apply(s, step))
  {
    hide *;
    if step.OpenSession? || step.CloseSession? || step.EndDeadSession? {
      InvSession(s, step);
    } else if step.DropSession? {
      InvDrop(s, step.c);
    } else if step.Crash? {
      InvCrash(s, step.a);
    } else if step.Begin? {
      InvBegin(s, step);
    } else if step.LockOk? {
      InvLockOk(s, step.a);
    } else if step.LockBusy? || step.LockError? {
      InvRefused(s, step);
    } else {
      InvWork(s, step);
    }
  }

  lemma StepAt(drops: bool, run: seq<State>, i: nat) returns (step: Step)
    requires IsRun(drops, run) && i + 1 < |run|
    ensures Enabled(run[i], step) && (step.DropSession? ==> drops) && run[i + 1] == Apply(run[i], step)
  {
    hide Enabled, Apply;
    assert Next(drops, run[i], run[i + 1]);
    step :| Enabled(run[i], step) && (step.DropSession? ==> drops) && run[i + 1] == Apply(run[i], step);
  }

  lemma InvInit(drops: bool, run: seq<State>)
    requires IsRun(drops, run)
    ensures Inv(run[0]) && run[0] == State(Free, map[], {}, map[], map[], 0, {})
  {
  }

  lemma NoNewOrphans(s: State, step: Step)
    requires Enabled(s, step) && !step.DropSession? && s.orphans == {}
    ensures Apply(s, step).orphans == {}
  {
  }

  lemma {:induction false} InvRun(drops: bool, run: seq<State>, i: nat)
    requires IsRun(drops, run) && i < |run|
    ensures Inv(run[i]) && (!drops ==> run[i].orphans == {})
  {
    hide *;
    if i == 0 {
      InvInit(drops, run);
    } else {
      InvRun(drops, run, i - 1);
      var step := StepAt(drops, run, i - 1);
      InvStep(run[i - 1], step);
      if !drops {
        NoNewOrphans(run[i - 1], step);
      }
    }
  }

  /** At most one call is between taking the lock and giving it back, and so at most one is loading: two only when the
      session of one of them was dropped while it was at work, and so never while the server keeps every session. Unlocks
      that fail, locks granted behind an error and crashes do not change that. */
  lemma AtMostOneLoads(drops: bool, run: seq<State>, a: Call, b: Call)
    requires IsRun(drops, run)
    requires a in run[|run| - 1].calls && b in run[|run| - 1].calls
    requires HasLock(run[|run| - 1].calls[a]) && HasLock(run[|run| - 1].calls[b])
    ensures a == b || a in run[|run| - 1].orphans || b in run[|run| - 1].orphans
    ensures !drops ==> a == b
  {
    InvRun(drops, run, |run| - 1);
    assert CallOk(run[|run| - 1], a) && CallOk(run[|run| - 1], b);
  }

  /** An orphan is a call whose session was dropped at some step, while the call was at work under the lock. */
  lemma {:induction false} OrphansWereAtWork(drops: bool, run: seq<State>, j: nat, a: Call)
    requires IsRun(drops, run) && j < |run| && a in run[j].orphans
    ensures exists i :: 0 <= i < j && LostAt(run, i, a)
  {
    InvInit(drops, run);
    hide IsRun, Apply, Enabled, Inv, LostSession;
    var step := StepAt(drops, run, j - 1);
    if a in run[j - 1].orphans {
      OrphansWereAtWork(drops, run, j - 1, a);
      var i :| 0 <= i < j - 1 && LostAt(run, i, a);
      assert LostAt(run, i, a);
    } else {
      InvRun(drops, run, j - 1);
      NewOrphan(run[j - 1], step, a);
      assert LostAt(run, j - 1, a);
    }
  }

  lemma NewOrphan(s: State, step: Step, a: Call)
    requires Inv(s) && Enabled(s, step) && a !in s.orphans && a in Apply(s, step).orphans
    ensures LostSession(s, Apply(s, step), a)
  {
    hide CallOk, CountOk;
    assert step.DropSession?;
    assert UseOk(s, step.c);
  }

  ghost predicate LostAt(run: seq<State>, i: int, a: Call) { 0 <= i < |run| - 1 && LostSession(run[i], run[i + 1], a) }

  ghost predicate LostSession(s: State, t: State, a: Call) {
    && a in s.calls && HasLock(s.calls[a]) && Holds(s, s.calls[a].c)
    && a in t.calls && HasLock(t.calls[a]) && t.lock.Free?
  }

  /** The lock is free exactly when nobody is at work under it, unless it was leaked. */
  lemma LockIsReturned(drops: bool, run: seq<State>)
    requires IsRun(drops, run) && run[|run| - 1].leaks == 0
    ensures var s := run[|run| - 1];
            s.lock.Free? <==> forall a | a in s.calls :: HasLock(s.calls[a]) ==> a in s.orphans
  {
    InvRun(drops, run, |run| - 1);
    var s := run[|run| - 1];
    if s.lock.Free? {
      forall a | a in s.calls && HasLock(s.calls[a])
        ensures a in s.orphans
      {
        assert CallOk(s, a);
      }
    } else {
      assert AtWork(s, s.lock.holder);
      assert UseOk(s, s.lock.holder);
      var a := s.pool[s.lock.holder].value;
      assert a in s.calls && HasLock(s.calls[a]) && CallOk(s, a);
    }
  }

  /** The step in which the goroutine of a trigger gets the lock. */
  ghost predicate Granted(s: State, t: State, a: Call) {
    && a in s.calls && s.calls[a].Connected? && s.calls[a].kind == Trigger && a !in s.answers
    && a in t.answers && t.answers[a] && a in t.calls && t.calls[a] == Preparing(s.calls[a].c)
    && Holds(t, s.calls[a].c) && CanTake(s, s.calls[a].c)
  }

  /** TryTrigger says yes in the one step in which its goroutine gets the lock; when it says no, the lock is as it was
      (but for an error behind which the server granted it) and the connection is back. */
  lemma TriggerAnswers(s: State, step: Step, a: Call)
    requires Inv(s) && Enabled(s, step) && a !in s.answers && a in Apply(s, step).answers
    ensures var t := Apply(s, step);
            && a in s.calls && s.calls[a].Connected? && s.calls[a].kind == Trigger
            && (t.answers[a] <==> Granted(s, t, a))
            && (!t.answers[a] ==> a !in t.calls && t.pool[s.calls[a].c] == None
                                  && (step == LockError(a, true) || t.lock == s.lock))
  {
    assert a in s.calls ==> CallOk(s, a);
  }

  lemma AnswersStay(s: State, step: Step, a: Call)
    requires Inv(s) && Enabled(s, step) && a in s.answers
    ensures a in Apply(s, step).answers && Apply(s, step).answers[a] == s.answers[a]
  {
  }

  /** The goroutine of a has got the lock in one of the first j steps. */
  ghost predicate WasGranted(run: seq<State>, j: nat, a: Call)
    requires j < |run|
  {
    exists i :: 0 <= i < j && GrantedAt(run, i, a)
  }

  ghost predicate GrantedAt(run: seq<State>, i: int, a: Call) { 0 <= i < |run| - 1 && Granted(run[i], run[i + 1], a) }

  lemma GrantedOneMore(run: seq<State>, j: nat, a: Call)
    requires 0 < j < |run|
    ensures WasGranted(run, j, a) <==> WasGranted(run, j - 1, a) || Granted(run[j - 1], run[j], a)
  {
    hide Granted;
    assert GrantedAt(run, j - 1, a) <==> Granted(run[j - 1], run[j], a);
    hide GrantedAt;
  }

  /** Over whole runs: a trigger is told yes exactly when its goroutine has got the lock in some step, and one that was
      told no is over. */
  lemma {:induction false} AnswersAreTrue(drops: bool, run: seq<State>, j: nat, a: Call)
    requires IsRun(drops, run) && j < |run|
    ensures WasGranted(run, j, a) <==> a in run[j].answers && run[j].answers[a]
    ensures a in run[j].answers && !run[j].answers[a] ==> a !in run[j].calls
  {
    hide IsRun, Apply, Enabled, WasGranted, Inv, Granted;
    InvRun(drops, run, j);
    NoIsOver(run[j], a);
    if j == 0 {
      InvInit(drops, run);
      NothingGranted(run, a);
    } else {
      InvRun(drops, run, j - 1);
      var step := StepAt(drops, run, j - 1);
      GrantedOneMore(run, j, a);
      AnswersAreTrue(drops, run, j - 1, a);
      if a in run[j - 1].answers {
        AnswersStay(run[j - 1], step, a);
      } else if a in run[j].answers {
        TriggerAnswers(run[j - 1], step, a);
      }
      GrantedIsNew(run[j - 1], run[j], a);
    }
  }

  lemma NoIsOver(s: State, a: Call)
    requires Inv(s)
    ensures a in s.answers && a in s.calls ==> s.answers[a]
  {
  }

  lemma NothingGranted(run: seq<State>, a: Call)
    requires run != []
    ensures !WasGranted(run, 0, a)
  {
  }

  lemma GrantedIsNew(s: State, t: State, a: Call)
    ensures Granted(s, t, a) ==> a !in s.answers && a in t.answers && t.answers[a]
  {
  }

  ghost predicate TwoLoad(s: State) {
    exists a, b | a in s.calls && b in s.calls :: a != b && s.calls[a].Loading? && s.calls[b].Loading?
  }

  /** With a dropped session two calls can load at once. */
  lemma DroppedSession()
    ensures exists run: seq<State> :: IsRun(true, run) && TwoLoad(run[|run| - 1])
  {
    var run := [State(Free, map[], {}, map[], map[], 0, {})];
    assert IsRun(true, run);
    hide IsRun;
    run := Extend(run, OpenSession(1));
    run := Extend(run, OpenSession(2));
    run := Extend(run, Begin(10, Tick, 1));
    run := Extend(run, LockOk(10));
    run := Extend(run, StartLoad(10));
    run := Extend(run, DropSession(1));
    run := Extend(run, Begin(11, Trigger, 2));
    run := Extend(run, LockOk(11));
    run := Extend(run, StartLoad(11));
    var last := run[|run| - 1];
    assert last.calls[10].Loading? && last.calls[11].Loading?;
  }

  lemma Extend(run: seq<State>, step: Step) returns (longer: seq<State>)
    requires IsRun(true, run) && Enabled(run[|run| - 1], step)
    ensures IsRun(true, longer) && longer[|longer| - 1] == Apply(run[|run| - 1], step)
  {
    longer := run + [Apply(run[|run| - 1], step)];
    forall i | 0 <= i < |longer| - 1
      ensures Next(true, longer[i], longer[i + 1])
    {
      if i < |run| - 1 {
        assert Next(true, run[i], run[i + 1]);
      }
    }
  }
}
