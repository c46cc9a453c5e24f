/** All requests that use the version cache together (data_marts/service/cache.go, reader_pg.go): each critical section,
    clock reading and query is a step of its own, and the steps of different requests mix freely. */
module CacheHistory {
  import opened Basics
  import opened VersionCache

  type Reader = int

  /** What happened, with its time. Stored tells where in the log its version was queried, Returned also where it
      was stored. */
  datatype Event =
    | Committed(v: Version, at: int)
    | Queried(v: Version, at: int)
    | Stored(key: string, v: Version, at: int, query: nat)
    | Returned(key: string, v: Version, at: int, query: nat, put: nat)
    | Dropped(key: string, at: int)
    | Invalidated(key: string, at: int)

  /** An entry and where in the log its version was queried and stored. */
  datatype Held = Held(version: Version, expiresAt: int, query: nat, put: nat)

  datatype Phase =
    | Looked(key: string, e: Held)
    | Expired(key: string)
    | Missed(key: string)
    | Fetched(key: string, v: Version, query: nat)

  datatype State = State(now: int, current: Option<Version>, entries: map<string, Held>,
                         readers: map<Reader, Phase>, log: seq<Event>)

  datatype Step =
    | Tick(to: int)
    | Commit(v: Version)
    | Look(r: Reader, key: string)
    | Judge(r: Reader)
    | Evict(r: Reader)
    | Query(r: Reader)
    | NoVersion(r: Reader)
    | Store(r: Reader)
    | Invalidate(key: string)

  ghost predicate Init(s: State) { s == State(s.now, None, map[], map[], []) }

  ghost predicate Enabled(s: State, step: Step) {
    match step
    case Tick(to) => s.now <= to
    case Commit(_) => true
    case Look(r, _) => r !in s.readers
    case Judge(r) => r in s.readers && s.readers[r].Looked?
    case Evict(r) => r in s.readers && s.readers[r].Expired?
    case Query(r) => r in s.readers && s.readers[r].Missed? && s.current.Some?
    case NoVersion(r) => r in s.readers && s.readers[r].Missed?
    case Store(r) => r in s.readers && s.readers[r].Fetched?
    case Invalidate(_) => true
  }

  function Go(s: State, r: Reader, p: Phase): State { s.(readers := s.readers[r := p]) }

  function Leave(s: State, r: Reader): State { s.(readers := s.readers - {r}) }

  function Log(s: State, e: Event): State { s.(log := s.log + [e]) }

  ghost function Apply(ttl: int, s: State, step: Step): State
    requires Enabled(s, step)
  {
    match step
    case Tick(to) => s.(now := to)
    case Commit(v) => Log(s, Committed(v, s.now)).(current := Some(v))
    case Look(r, key) => Go(s, r, if key in s.entries then Looked(key, s.entries[key]) else Missed(key))
    case Judge(r) =>
      var p := s.readers[r];
      if s.now > p.e.expiresAt then Go(s, r, Expired(p.key))
      else Leave(Log(s, Returned(p.key, p.e.version, s.now, p.e.query, p.e.put)), r)
    case Evict(r) =>
      var key := s.readers[r].key;
      if key in s.entries && !(s.now < s.entries[key].expiresAt)
      then Go(Log(s, Dropped(key, s.now)), r, Missed(key)).(entries := s.entries - {key})
      else Go(s, r, Missed(key))
    case Query(r) => Go(Log(s, Queried(s.current.value, s.now)), r, Fetched(s.readers[r].key, s.current.value, |s.log|))
    case NoVersion(r) => Leave(s, r)
    case Store(r) =>
      var p := s.readers[r];
      var held := Held(p.v, s.now + ttl, p.query, |s.log|);
      var stored := Log(s, Stored(p.key, p.v, s.now, p.query)).(entries := s.entries[p.key := held]);
      Leave(Log(stored, Returned(p.key, p.v, s.now, p.query, |s.log|)), r)
    case Invalidate(key) => Log(s, Invalidated(key, s.now)).(entries := s.entries - {key})
  }

  ghost predicate Next(ttl: int, s: State, t: State) {
    exists step :: Enabled(s, step) && t == Apply(ttl, s, step)
  }

  ghost predicate IsRun(ttl: int, run: seq<State>) {
    && run != [] && Init(run[0])
    && forall i | 0 <= i < |run| - 1 :: Next(ttl, run[i], run[i + 1])
  }

  /** The version that is current behind a log. */
  function CurrentAfter(log: seq<Event>): Option<Version> {
    if log == [] then None
    else if log[|log| - 1].Committed? then Some(log[|log| - 1].v)
    else CurrentAfter(log[..|log| - 1])
  }

  // The invariant.

  ghost predicate WasQueried(log: seq<Event>, v: Version, query: nat) {
    query < |log| && log[query].Queried? && log[query].v == v
  }

  ghost predicate WasStored(log: seq<Event>, key: string, v: Version, query: nat, put: nat, at: int) {
    query < put < |log| && log[put] == Stored(key, v, at, query)
  }

  /** A returned version was queried, then stored, at most ttl before it was returned. */
  ghost predicate Fresh(ttl: int, log: seq<Event>, e: Event)
    requires e.Returned?
  {
    && WasQueried(log, e.v, e.query) && e.put < |log| && log[e.put].Stored?
    && WasStored(log, e.key, e.v, e.query, e.put, log[e.put].at)
    && e.at - ttl <= log[e.put].at <= e.at
  }

  ghost predicate EventOk(ttl: int, log: seq<Event>, i: int)
    requires 0 <= i < |log|
  {
    && (log[i].Queried? ==> CurrentAfter(log[..i]) == Some(log[i].v))
    && (log[i].Stored? ==> WasQueried(log, log[i].v, log[i].query) && log[i].query < i)
    && (log[i].Returned? ==> log[i].put < i && Fresh(ttl, log, log[i]))
  }

  ghost predicate HeldOk(ttl: int, log: seq<Event>, key: string, e: Held, now: int) {
    && WasQueried(log, e.version, e.query)
    && WasStored(log, key, e.version, e.query, e.put, e.expiresAt - ttl) && e.expiresAt - ttl <= now
  }

  ghost predicate PhaseOk(ttl: int, log: seq<Event>, p: Phase, now: int) {
    match p
    case Looked(key, e) => HeldOk(ttl, log, key, e, now)
    case Fetched(_, v, query) => WasQueried(log, v, query)
    case Expired(_) => true
    case Missed(_) => true
  }

  ghost predicate Inv(ttl: int, s: State) {
    && (forall i | 0 <= i < |s.log| :: EventOk(ttl, s.log, i))
    && (forall key | key in s.entries :: HeldOk(ttl, s.log, key, s.entries[key], s.now))
    && (forall r | r in s.readers :: PhaseOk(ttl, s.log, s.readers[r], s.now))
    && s.current == CurrentAfter(s.log)
  }

  /** What holds of a log holds of every longer one. */
  lemma LongerLog(ttl: int, log: seq<Event>, more: seq<Event>, now: int, later: int)
    requires now <= later
    ensures forall i | 0 <= i < |log| && EventOk(ttl, log, i) :: EventOk(ttl, log + more, i)
    ensures forall key, e | HeldOk(ttl, log, key, e, now) :: HeldOk(ttl, log + more, key, e, later)
    ensures forall p | PhaseOk(ttl, log, p, now) :: PhaseOk(ttl, log + more, p, later)
  {
    forall i | 0 <= i < |log|
      ensures (log + more)[..i] == log[..i]
    {}
  }

  lemma CurrentAfterMore(log: seq<Event>, e: Event)
    ensures CurrentAfter(log + [e]) == if e.Committed? then Some(e.v) else CurrentAfter(log)
  {
    assert (log + [e])[..|log|] == log;
  }

  /** It is enough to look at what is new. */
  lemma InvFrame(ttl: int, s: State, t: State)
    requires Inv(ttl, s) && s.log <= t.log && s.now <= t.now
    requires forall i | |s.log| <= i < |t.log| :: EventOk(ttl, t.log, i)
    requires forall key | key in t.entries && !(key in s.entries && t.entries[key] == s.entries[key]) ::
               HeldOk(ttl, t.log, key, t.entries[key], t.now)
    requires forall r | r in t.readers && !(r in s.readers && t.readers[r] == s.readers[r]) ::
               PhaseOk(ttl, t.log, t.readers[r], t.now)
    requires t.current == CurrentAfter(t.log)
    ensures Inv(ttl, t)
  {
    hide EventOk, HeldOk, PhaseOk, CurrentAfter;
    var more := t.log[|s.log|..];
    assert t.log == s.log + more;
    LongerLog(ttl, s.log, more, s.now, t.now);
  }

  lemma InvCommit(ttl: int, s: State, v: Version)
    requires ttl >= 0 && Inv(ttl, s)
    ensures Inv(ttl, Apply(ttl, s, Commit(v)))
  {
    CurrentAfterMore(s.log, Committed(v, s.now));
    InvFrame(ttl, s, Apply(ttl, s, Commit(v)));
  }

  lemma InvJudge(ttl: int, s: State, r: Reader)
    requires ttl >= 0 && Inv(ttl, s) && Enabled(s, Judge(r))
    ensures Inv(ttl, Apply(ttl, s, Judge(r)))
  {
    var p := s.readers[r];
    assert HeldOk(ttl, s.log, p.key, p.e, s.now);
    CurrentAfterMore(s.log, Returned(p.key, p.e.version, s.now, p.e.query, p.e.put));
    InvFrame(ttl, s, Apply(ttl, s, Judge(r)));
  }

  lemma InvEvict(ttl: int, s: State, r: Reader)
    requires ttl >= 0 && Inv(ttl, s) && Enabled(s, Evict(r))
    ensures Inv(ttl, Apply(ttl, s, Evict(r)))
  {
    CurrentAfterMore(s.log, Dropped(s.readers[r].key, s.now));
    InvFrame(ttl, s, Apply(ttl, s, Evict(r)));
  }

  lemma InvQuery(ttl: int, s: State, r: Reader)
    requires ttl >= 0 && Inv(ttl, s) && Enabled(s, Query(r))
    ensures Inv(ttl, Apply(ttl, s, Query(r)))
  {
    var t := Apply(ttl, s, Query(r));
    CurrentAfterMore(s.log, Queried(s.current.value, s.now));
    assert t.log[..|s.log|] == s.log;
    InvFrame(ttl, s, t);
  }

  lemma InvInvalidate(ttl: int, s: State, key: string)
    requires ttl >= 0 && Inv(ttl, s)
    ensures Inv(ttl, Apply(ttl, s, Invalidate(key)))
  {
    CurrentAfterMore(s.log, Invalidated(key, s.now));
    InvFrame(ttl, s, Apply(ttl, s, Invalidate(key)));
  }

  lemma InvStore(ttl: int, s: State, r: Reader)
    requires ttl >= 0 && Inv(ttl, s) && Enabled(s, Store(r))
    ensures Inv(ttl, Apply(ttl, s, Store(r)))
  {
    var p, t := s.readers[r], Apply(ttl, s, Store(r));
    assert WasQueried(s.log, p.v, p.query);
    var stored, returned := Stored(p.key, p.v, s.now, p.query), Returned(p.key, p.v, s.now, p.query, |s.log|);
    CurrentAfterMore(s.log, stored);
    CurrentAfterMore(s.log + [stored], returned);
    InvFrame(ttl, s, t);
  }

  lemma InvStep(ttl: int, s: State, step: Step)
    requires ttl >= 0 && Inv(ttl, s) && Enabled(s, step)
    ensures Inv(ttl, Apply(ttl, s, step))
  {
    match step {
      case Commit(v) => InvCommit(ttl, s, v);
      case Judge(r) => InvJudge(ttl, s, r);
      case Evict(r) => InvEvict(ttl, s, r);
      case Query(r) => InvQuery(ttl, s, r);
      case Store(r) => InvStore(ttl, s, r);
      case Tick(_) => InvFrame(ttl, s, Apply(ttl, s, step));
      case Look(_, _) => InvFrame(ttl, s, Apply(ttl, s, step));
      case NoVersion(_) => InvFrame(ttl, s, Apply(ttl, s, step));
      case Invalidate(key) => InvInvalidate(ttl, s, key);
    }
  }

  lemma BeforeIsRun(ttl: int, run: seq<State>)
    requires IsRun(ttl, run) && |run| > 1
    ensures IsRun(ttl, run[..|run| - 1])
  {
    hide Next;
    var before := run[..|run| - 1];
    forall i | 0 <= i < |before| - 1
      ensures Next(ttl, before[i], before[i + 1])
    {
      assert Next(ttl, run[i], run[i + 1]);
    }
  }

  lemma StepAt(ttl: int, run: seq<State>, i: nat) returns (step: Step)
    requires IsRun(ttl, run) && i + 1 < |run|
    ensures Enabled(run[i], step) && run[i + 1] == Apply(ttl, run[i], step)
  {
    hide Apply, Enabled;
    assert Next(ttl, run[i], run[i + 1]);
    step :| Enabled(run[i], step) && run[i + 1] == Apply(ttl, run[i], step);
  }

  lemma InvInit(ttl: int, run: seq<State>)
    requires IsRun(ttl, run)
    ensures Inv(ttl, run[0])
  {
  }

  lemma {:induction false} InvRun(ttl: int, run: seq<State>, i: nat)
    requires ttl >= 0 && IsRun(ttl, run) && i < |run|
    ensures Inv(ttl, run[i])
  {
    hide *;
    if i == 0 {
      InvInit(ttl, run);
    } else {
      InvRun(ttl, run, i - 1);
      var step := StepAt(ttl, run, i - 1);
      InvStep(ttl, run[i - 1], step);
    }
  }

  ghost function LogOf(run: seq<State>): seq<Event>
    requires run != []
  {
    run[|run| - 1].log
  }

  // How old a version can be.

  /** v is current in some state of the run whose time is at least `since`. */
  ghost predicate CurrentSince(run: seq<State>, v: Version, since: int) {
    exists j :: 0 <= j < |run| && run[j].current == Some(v) && since <= run[j].now
  }

  /** Each request stores what it has read within d. */
  ghost predicate StoresWithin(log: seq<Event>, d: int) {
    forall i | 0 <= i < |log| && log[i].Stored? && log[i].query < |log| && log[log[i].query].Queried? ::
      log[i].at - log[log[i].query].at <= d
  }

  /** What a query read was current when it read it. */
  lemma {:induction false} ReadWhileCurrent(ttl: int, run: seq<State>, k: nat)
    requires IsRun(ttl, run) && k < |LogOf(run)| && LogOf(run)[k].Queried?
    ensures CurrentSince(run, LogOf(run)[k].v, LogOf(run)[k].at)
  {
    if |run| > 1 {
      var n := |run| - 1;
      var before := run[..n];
      BeforeIsRun(ttl, run);
      var step := StepAt(ttl, run, n - 1);
      if k < |run[n - 1].log| {
        ReadWhileCurrent(ttl, before, k);
        var e := LogOf(before)[k];
        var j :| 0 <= j < |before| && before[j].current == Some(e.v) && e.at <= before[j].now;
        assert run[j] == before[j];
      } else {
        assert run[n - 1].current == Some(LogOf(run)[k].v);
      }
    }
  }

  /** Bounded staleness: a version returned at time t was the current one when some request read it, and that
      request stored it no earlier than t - ttl; however slow the request was, and whatever was committed since. */
  lemma BoundedStaleness(ttl: int, run: seq<State>, i: nat)
    requires ttl >= 0 && IsRun(ttl, run) && i < |LogOf(run)| && LogOf(run)[i].Returned?
    ensures var log := LogOf(run);
            && log[i].query < log[i].put < i
            && log[log[i].query].Queried? && log[log[i].query].v == log[i].v
            && CurrentSince(run, log[i].v, log[log[i].query].at)
            && log[log[i].put] == Stored(log[i].key, log[i].v, log[log[i].put].at, log[i].query)
            && log[i].at - ttl <= log[log[i].put].at <= log[i].at
  {
    InvRun(ttl, run, |run| - 1);
    assert EventOk(ttl, LogOf(run), i);
    ReadWhileCurrent(ttl, run, LogOf(run)[i].query);
  }

  /** Counted from the reading: if every request stores within d, a version returned at time t was current no earlier
      than t - ttl - d. */
  lemma StalenessFromReading(ttl: int, d: int, run: seq<State>, i: nat)
    requires ttl >= 0 && IsRun(ttl, run) && i < |LogOf(run)| && LogOf(run)[i].Returned?
    requires StoresWithin(LogOf(run), d)
    ensures CurrentSince(run, LogOf(run)[i].v, LogOf(run)[i].at - ttl - d)
  {
    hide IsRun;
    BoundedStaleness(ttl, run, i);
    var log := LogOf(run);
    var e := log[i];
    assert log[e.put].at - log[e.query].at <= d;
    var j :| 0 <= j < |run| && run[j].current == Some(e.v) && log[e.query].at <= run[j].now;
  }

  /** The last commit between the read at `query` and position i is that of another version. */
  ghost predicate Overtaken(log: seq<Event>, query: nat, i: nat, v: Version)
    requires i <= |log|
  {
    exists k :: query < k < i && log[k].Committed? && log[k].v != v && NoCommits(log, k + 1, i)
  }

  ghost predicate NoCommits(log: seq<Event>, from: nat, to: nat)
    requires to <= |log|
  {
    forall m | from <= m < to :: !log[m].Committed?
  }

  lemma {:induction false} CurrentUnlessOvertaken(log: seq<Event>, query: nat, i: nat, v: Version)
    requires query < i <= |log| && !log[query].Committed? && CurrentAfter(log[..query]) == Some(v)
    ensures CurrentAfter(log[..i]) == Some(v) <==> !Overtaken(log, query, i, v)
  {
    assert log[..i][..i - 1] == log[..i - 1];
    if i == query + 1 {
      assert !Overtaken(log, query, i, v);
    } else if log[i - 1].Committed? {
      assert NoCommits(log, i, i);
      assert log[i - 1].v != v ==> Overtaken(log, query, i, v);
    } else {
      CurrentUnlessOvertaken(log, query, i - 1, v);
      if Overtaken(log, query, i, v) {
        var k :| query < k < i && log[k].Committed? && log[k].v != v && NoCommits(log, k + 1, i);
        assert NoCommits(log, k + 1, i - 1);
      }
      if Overtaken(log, query, i - 1, v) {
        var k :| query < k < i - 1 && log[k].Committed? && log[k].v != v && NoCommits(log, k + 1, i - 1);
        assert NoCommits(log, k + 1, i);
      }
    }
  }

  /** A version is still the current one when a request stores it, or returns it, if and only if the last commit since
      it was read is not that of another version. */
  lemma StaleIffOvertaken(ttl: int, run: seq<State>, i: nat)
    requires ttl >= 0 && IsRun(ttl, run) && i < |LogOf(run)| && (LogOf(run)[i].Stored? || LogOf(run)[i].Returned?)
    ensures var log := LogOf(run);
            CurrentAfter(log[..i]) == Some(log[i].v) <==> !Overtaken(log, log[i].query, i, log[i].v)
  {
    hide CurrentAfter, Overtaken;
    InvRun(ttl, run, |run| - 1);
    var log := LogOf(run);
    assert EventOk(ttl, log, i) && EventOk(ttl, log, log[i].query);
    CurrentUnlessOvertaken(log, log[i].query, i, log[i].v);
  }

  /** The key is not invalidated from position `from` on. */
  ghost predicate NotInvalidated(log: seq<Event>, from: nat, key: string) {
    forall k | from <= k < |log| && log[k].Invalidated? :: log[k].key != key
  }

  /** One step, for an entry that has not expired. */
  lemma LiveEntryStays(ttl: int, s: State, step: Step, key: string, from: nat)
    requires Enabled(s, step) && key in s.entries && s.now < s.entries[key].expiresAt && from <= |s.log|
    ensures var t := Apply(ttl, s, step);
            && s.log <= t.log && s.now <= t.now
            && (NotInvalidated(t.log, from, key) ==>
                  && NotInvalidated(s.log, from, key) && key in t.entries
                  && (t.entries[key] == s.entries[key]
                      || (t.entries[key].put == |s.log| && t.entries[key].expiresAt == s.now + ttl)))
  {
    var t := Apply(ttl, s, step);
    assert s.log <= t.log;
    if NotInvalidated(t.log, from, key) {
      if step.Invalidate? {
        assert t.log[|s.log|] == Invalidated(step.key, s.now);
      }
      forall k | from <= k < |s.log| ensures s.log[k] == t.log[k] {}
    }
  }

  /** While an entry has not expired it stays, unless it is invalidated or stored anew: an eviction looks again before
      it removes anything. */
  lemma {:induction false} LiveEntriesStay(ttl: int, run: seq<State>, i: nat, j: nat, key: string)
    requires ttl >= 0 && IsRun(ttl, run) && i <= j < |run| && key in run[i].entries
    requires run[j].now < run[i].entries[key].expiresAt && NotInvalidated(run[j].log, |run[i].log|, key)
    ensures run[i].log <= run[j].log
    ensures key in run[j].entries && run[i].entries[key].expiresAt <= run[j].entries[key].expiresAt
    ensures run[j].entries[key] == run[i].entries[key] || |run[i].log| <= run[j].entries[key].put
    decreases j - i
  {
    hide IsRun, Inv, NotInvalidated, Apply, Enabled;
    if i < j {
      var step := StepAt(ttl, run, j - 1);
      LogGrows(ttl, run, i, j - 1);
      GrowsBy(ttl, run[j - 1], step);
      StillNotInvalidated(run[j - 1].log, run[j].log, |run[i].log|, key);
      LiveEntriesStay(ttl, run, i, j - 1, key);
      LiveEntryStays(ttl, run[j - 1], step, key, |run[i].log|);
      StoredLater(ttl, run, i, j - 1, key);
    }
  }

  lemma GrowsBy(ttl: int, s: State, step: Step)
    requires Enabled(s, step)
    ensures s.log <= Apply(ttl, s, step).log && s.now <= Apply(ttl, s, step).now
  {
  }

  lemma {:induction false} LogGrows(ttl: int, run: seq<State>, i: nat, j: nat)
    requires IsRun(ttl, run) && i <= j < |run|
    ensures run[i].log <= run[j].log && run[i].now <= run[j].now
    decreases j - i
  {
    hide IsRun, Apply, Enabled;
    if i < j {
      var step := StepAt(ttl, run, j - 1);
      LogGrows(ttl, run, i, j - 1);
      GrowsBy(ttl, run[j - 1], step);
    }
  }

  lemma StillNotInvalidated(shorter: seq<Event>, log: seq<Event>, from: nat, key: string)
    requires shorter <= log && NotInvalidated(log, from, key)
    ensures NotInvalidated(shorter, from, key)
  {
    forall k | from <= k < |shorter| ensures shorter[k] == log[k] {}
  }

  /** What is stored now expires no earlier than what was stored before. */
  lemma StoredLater(ttl: int, run: seq<State>, i: nat, j: nat, key: string)
    requires ttl >= 0 && IsRun(ttl, run) && i <= j < |run| && key in run[i].entries
    ensures run[i].entries[key].expiresAt - ttl <= run[j].now
  {
    hide IsRun;
    InvRun(ttl, run, i);
    LogGrows(ttl, run, i, j);
  }

  /** v is current at no time later than `until`. */
  ghost predicate CurrentOnlyUntil(run: seq<State>, v: Version, until: int) {
    forall j | 0 <= j < |run| && run[j].current == Some(v) :: run[j].now <= until
  }

  /** A version is returned ttl + d after the last moment at which it was current, though every request stores within
      d; at that time the cache holds it over a newer one. */
  ghost predicate AsStaleAsCanBe(ttl: int, d: int, run: seq<State>, key: string, older: Version, newer: Version) {
    && run != [] && StoresWithin(LogOf(run), d)
    && (exists i :: 0 <= i < |LogOf(run)| && LogOf(run)[i].Returned? && LogOf(run)[i].v == older
                    && CurrentOnlyUntil(run, older, LogOf(run)[i].at - ttl - d))
    && var last := run[|run| - 1];
    last.current == Some(newer) && key in last.entries && last.entries[key].version == older
  }

  /** The bound of StalenessFromReading is reached for every ttl and d: a request that takes d to store puts an old
      version over a newer one. */
  lemma SlowReader(ttl: int, d: int, older: Version, newer: Version, key: string)
    requires ttl >= 0 && d >= 0 && older != newer
    ensures exists run :: IsRun(ttl, run) && AsStaleAsCanBe(ttl, d, run, key, older, newer)
  {
    var run := ReadAndOvertaken(ttl, older, newer, key);
    run := StoreAndReturn(ttl, d, run, older, newer, key);
    var log := LogOf(run);
    assert log[5] == Returned(key, older, d + ttl, 1, 3);
    assert CurrentOnlyUntil(run, older, log[5].at - ttl - d);
    assert AsStaleAsCanBe(ttl, d, run, key, older, newer) by { hide IsRun, CurrentOnlyUntil; }
  }

  lemma ReadAndOvertaken(ttl: int, older: Version, newer: Version, key: string) returns (run: seq<State>)
    requires older != newer
    ensures IsRun(ttl, run) && CurrentOnlyUntil(run, older, 0)
    ensures run[|run| - 1] == State(0, Some(newer), map[], map[1 := Fetched(key, older, 1)],
                                    [Committed(older, 0), Queried(older, 0), Committed(newer, 0)])
  {
    run := [State(0, None, map[], map[], [])];
    assert IsRun(ttl, run) && CurrentOnlyUntil(run, older, 0);
    hide IsRun, CurrentOnlyUntil;
    run := Extend(ttl, run, Commit(older), older);
    run := Extend(ttl, run, Look(1, key), older);
    run := Extend(ttl, run, Query(1), older);
    run := Extend(ttl, run, Commit(newer), older);
  }

  lemma StoreAndReturn(ttl: int, d: int, before: seq<State>, older: Version, newer: Version, key: string)
    returns (run: seq<State>)
    requires ttl >= 0 && d >= 0 && older != newer && IsRun(ttl, before) && CurrentOnlyUntil(before, older, 0)
    requires before[|before| - 1] == State(0, Some(newer), map[], map[1 := Fetched(key, older, 1)],
                                           [Committed(older, 0), Queried(older, 0), Committed(newer, 0)])
    ensures IsRun(ttl, run) && CurrentOnlyUntil(run, older, 0)
    ensures var last := run[|run| - 1];
            && last.now == d + ttl && last.current == Some(newer)
            && last.entries == map[key := Held(older, d + ttl, 1, 3)]
            && last.log == [Committed(older, 0), Queried(older, 0), Committed(newer, 0), Stored(key, older, d, 1),
                            Returned(key, older, d, 1, 3), Returned(key, older, d + ttl, 1, 3)]
  {
    hide IsRun, CurrentOnlyUntil;
    run := Extend(ttl, before, Tick(d), older);
    run := Extend(ttl, run, Store(1), older);
    run := Extend(ttl, run, Tick(d + ttl), older);
    run := Extend(ttl, run, Look(1, key), older);
    run := Extend(ttl, run, Judge(1), older);
  }

  lemma Extend(ttl: int, run: seq<State>, step: Step, older: Version) returns (longer: seq<State>)
    requires IsRun(ttl, run) && Enabled(run[|run| - 1], step) && CurrentOnlyUntil(run, older, 0)
    requires var t := Apply(ttl, run[|run| - 1], step); t.current == Some(older) ==> t.now <= 0
    ensures IsRun(ttl, longer) && CurrentOnlyUntil(longer, older, 0)
    ensures longer[|longer| - 1] == Apply(ttl, run[|run| - 1], step)
  {
    longer := run + [Apply(ttl, run[|run| - 1], step)];
    forall i | 0 <= i < |longer| - 1
      ensures Next(ttl, longer[i], longer[i + 1])
    {
      if i < |run| - 1 {
        assert Next(ttl, run[i], run[i + 1]);
      }
    }
  }
}
