/** The rule engine every load loop asks about every line (validation/engine.go, builtin.go). */
module Validation {
  import opened Basics
  import opened LoadReport

  datatype Severity = Critical | Soft

  datatype Value = Null | Str(s: string) | Num(n: real) | Time(t: int) | Other

  type Payload = map<string, Value>

  datatype Check = NegativeQty | NegativeStock | FutureEventTime | DuplicatePk | MissingRequired
                 | NumericRange | RegexMatch | Unknown

  datatype Rule = Rule(check: Check, field: string, fields: seq<string>, pattern: string,
                       min: Option<real>, max: Option<real>, severity: Severity)

  datatype Violation = Violation(rule: Rule, severity: Severity)

  /** Library calls of the checks: %v of a float, RFC 3339 parsing, regular expressions
      (None for a pattern that does not compile) and white-space trimming. */
  datatype Host = Host(show: real -> string, parseTime: string -> Option<int>,
                       matches: (string, string) -> Option<bool>, isBlank: string -> bool)

  const FIFTEEN_MINUTES: int := 900

  function Lookup(p: Payload, field: string): Value {
    if field == "" || field !in p then Null else p[field]
  }

  function FieldOr(field: string, default: string): string { if field == "" then default else field }

  function NotNegative(p: Payload, field: string): bool {
    var v := Lookup(p, field);
    v.Num? ==> v.n >= 0.0
  }

  function NotInFuture(h: Host, v: Value, now: int): bool {
    match v
    case Null => true
    case Time(t) => t <= now + FIFTEEN_MINUTES
    case Str(s) => h.parseTime(s).Some? && h.parseTime(s).value <= now + FIFTEEN_MINUTES
    case Num(_) => false
    case Other => false
  }

  function IsPresent(h: Host, p: Payload, field: string): bool {
    field in p && p[field] != Null && (p[field].Str? ==> !h.isBlank(p[field].s))
  }

  function InRange(rule: Rule, v: Value): bool {
    v.Num? ==> (rule.min.Some? ==> rule.min.value <= v.n) && (rule.max.Some? ==> v.n <= rule.max.value)
  }

  function MatchesPattern(h: Host, rule: Rule, v: Value): bool {
    v.Str? && rule.pattern != "" ==> h.matches(rule.pattern, v.s) == Some(true)
  }

  /** The key a duplicate_pk rule looks at; None means the rule lets the line through. */
  function PkOf(h: Host, rule: Rule, p: Payload): Option<string> {
    match Lookup(p, rule.field)
    case Str(s) => Some(s)
    case Num(n) => Some(h.show(n))
    case Null => None
    case Time(_) => None
    case Other => None
  }

  /** The verdict of one rule, given the primary keys seen so far. */
  function Passes(h: Host, rule: Rule, p: Payload, now: int, seen: set<string>): bool {
    match rule.check
    case NegativeQty => NotNegative(p, FieldOr(rule.field, "qty"))
    case NegativeStock => NotNegative(p, FieldOr(rule.field, "qty_on_hand"))
    case FutureEventTime => NotInFuture(h, Lookup(p, FieldOr(rule.field, "event_time")), now)
    case DuplicatePk => PkOf(h, rule, p).Some? ==> PkOf(h, rule, p).value !in seen
    case MissingRequired => forall f | f in rule.fields :: IsPresent(h, p, f)
    case NumericRange => InRange(rule, Lookup(p, rule.field))
    case RegexMatch => MatchesPattern(h, rule, Lookup(p, rule.field))
    case Unknown => false
  }

  /** The primary keys seen after the rule has run. */
  function SeenAfter(h: Host, rule: Rule, p: Payload, seen: set<string>): set<string> {
    if rule.check.DuplicatePk? && PkOf(h, rule, p).Some? then seen + {PkOf(h, rule, p).value} else seen
  }

  /** All rules run, in order, even after a violation. */
  function SeenAfterAll(h: Host, rules: seq<Rule>, p: Payload, seen: set<string>): set<string> {
    if rules == [] then seen
    else SeenAfter(h, rules[|rules| - 1], p, SeenAfterAll(h, rules[..|rules| - 1], p, seen))
  }

  function Violations(h: Host, rules: seq<Rule>, p: Payload, now: int, seen: set<string>): seq<Violation> {
    if rules == [] then []
    else
      var init, last := rules[..|rules| - 1], rules[|rules| - 1];
      Violations(h, init, p, now, seen) +
      if Passes(h, last, p, now, SeenAfterAll(h, init, p, seen)) then []
      else [Violation(last, if last.check.Unknown? then Critical else last.severity)]
  }

  // What a rule asks of a line.

  /** The line breaks the rule. A value of the wrong kind breaks only the time rule; a missing one only
      missing_required; a key of the primary-key rule is a text or a number. */
  ghost predicate Breaks(h: Host, rule: Rule, p: Payload, now: int, seen: set<string>) {
    var f := rule.field;
    match rule.check
    case NegativeQty => var q := if f == "" then "qty" else f; q in p && p[q].Num? && p[q].n < 0.0
    case NegativeStock => var q := if f == "" then "qty_on_hand" else f; q in p && p[q].Num? && p[q].n < 0.0
    case FutureEventTime =>
      var q := if f == "" then "event_time" else f;
      q in p && (match p[q]
                 case Null => false
                 case Time(t) => t > now + 15 * 60
                 case Str(s) => h.parseTime(s).None? || h.parseTime(s).value > now + 15 * 60
                 case _ => true)
    case DuplicatePk =>
      f != "" && f in p && ((p[f].Str? && p[f].s in seen) || (p[f].Num? && h.show(p[f].n) in seen))
    case MissingRequired =>
      exists q | q in rule.fields :: q !in p || p[q].Null? || (p[q].Str? && h.isBlank(p[q].s))
    case NumericRange =>
      && f != "" && f in p && p[f].Num?
      && ((rule.min.Some? && p[f].n < rule.min.value) || (rule.max.Some? && p[f].n > rule.max.value))
    case RegexMatch =>
      f != "" && f in p && p[f].Str? && rule.pattern != "" && h.matches(rule.pattern, p[f].s) != Some(true)
    case Unknown => true
  }

  /** The key that the line brings to a primary-key rule. */
  ghost function Brought(h: Host, rule: Rule, p: Payload): set<string> {
    if rule.check != DuplicatePk || rule.field == "" || rule.field !in p then {}
    else if p[rule.field].Str? then {p[rule.field].s}
    else if p[rule.field].Num? then {h.show(p[rule.field].n)}
    else {}
  }

  lemma PassesUnlessBroken(h: Host, rule: Rule, p: Payload, now: int, seen: set<string>)
    ensures Passes(h, rule, p, now, seen) <==> !Breaks(h, rule, p, now, seen)
    ensures SeenAfter(h, rule, p, seen) == seen + Brought(h, rule, p)
  {
  }

  /** A broken rule is reported with its severity, an unknown one as critical. */
  ghost function Report(h: Host, rule: Rule, p: Payload, now: int, seen: set<string>): seq<Violation> {
    if !Breaks(h, rule, p, now, seen) then []
    else [Violation(rule, if rule.check == Unknown then Critical else rule.severity)]
  }

  /** The reports of the rules from first to last; each sees the keys that the rules before it have brought. */
  ghost function Reports(h: Host, rules: seq<Rule>, p: Payload, now: int, seen: set<string>): seq<Violation> {
    if rules == [] then []
    else Report(h, rules[0], p, now, seen) + Reports(h, rules[1..], p, now, seen + Brought(h, rules[0], p))
  }

  ghost function BroughtByAll(h: Host, rules: seq<Rule>, p: Payload): set<string> {
    if rules == [] then {} else Brought(h, rules[0], p) + BroughtByAll(h, rules[1..], p)
  }

  lemma {:induction false} OneMoreReport(h: Host, rules: seq<Rule>, r: Rule, p: Payload, now: int, seen: set<string>)
    ensures Reports(h, rules + [r], p, now, seen)
         == Reports(h, rules, p, now, seen) + Report(h, r, p, now, seen + BroughtByAll(h, rules, p))
    ensures BroughtByAll(h, rules + [r], p) == BroughtByAll(h, rules, p) + Brought(h, r, p)
  {
    hide Report, Brought;
    if rules == [] {
      assert [r][1..] == [] && rules + [r] == [r];
      assert Reports(h, [], p, now, seen + Brought(h, r, p)) == [];
      assert seen + {} == seen;
    } else {
      var first := Brought(h, rules[0], p);
      assert (rules + [r])[1..] == rules[1..] + [r];
      OneMoreReport(h, rules[1..], r, p, now, seen + first);
      assert seen + first + BroughtByAll(h, rules[1..], p) == seen + (first + BroughtByAll(h, rules[1..], p));
    }
  }

  /** The engine's list of violations is that of the reports, and its memory is what the rules brought. */
  lemma {:induction false} ViolationsAreReports(h: Host, rules: seq<Rule>, p: Payload, now: int, seen: set<string>)
    ensures Violations(h, rules, p, now, seen) == Reports(h, rules, p, now, seen)
    ensures SeenAfterAll(h, rules, p, seen) == seen + BroughtByAll(h, rules, p)
  {
    if rules != [] {
      hide Passes, SeenAfter, Breaks, Brought, Report, Reports, BroughtByAll, PkOf;
      var init, last := rules[..|rules| - 1], rules[|rules| - 1];
      ViolationsAreReports(h, init, p, now, seen);
      OneMoreReport(h, init, last, p, now, seen);
      PassesUnlessBroken(h, last, p, now, SeenAfterAll(h, init, p, seen));
      assert rules == init + [last];
    }
  }

  ghost predicate HasCriticalIn(vs: seq<Violation>) { exists v | v in vs :: v.severity == Critical }

  /** The keys seen in the course of one load, per entity. */
  class State {
    var seen: map<Entity, set<string>>

    constructor ()
      ensures seen == map[]
    {
      seen := map[];
    }

    function SeenOf(e: Entity): set<string>
      reads this
    {
      if e in seen then seen[e] else {}
    }

    /** True when the key is new for the entity, which then remembers it. */
    method MarkPk(e: Entity, pk: string) returns (isNew: bool)
      modifies this
      ensures isNew <==> pk !in old(SeenOf(e))
      ensures SeenOf(e) == old(SeenOf(e)) + {pk}
      ensures forall x | x != e :: SeenOf(x) == old(SeenOf(x))
    {
      if e !in seen {
        seen := seen[e := {}];
      }
      if pk in seen[e] {
        return false;
      }
      seen := seen[e := seen[e] + {pk}];
      return true;
    }
  }

  /** One rule against one line: only duplicate_pk touches the state. */
  method RunCheck(h: Host, e: Entity, rule: Rule, p: Payload, now: int, state: State) returns (ok: bool)
    requires !rule.check.Unknown?
    modifies state
    ensures ok == Passes(h, rule, p, now, old(state.SeenOf(e)))
    ensures state.SeenOf(e) == SeenAfter(h, rule, p, old(state.SeenOf(e)))
    ensures ok <==> !Breaks(h, rule, p, now, old(state.SeenOf(e)))
    ensures state.SeenOf(e) == old(state.SeenOf(e)) + Brought(h, rule, p)
    ensures forall x | x != e :: state.SeenOf(x) == old(state.SeenOf(x))
  {
    PassesUnlessBroken(h, rule, p, now, state.SeenOf(e));
    hide Breaks, Brought;
    if rule.check.DuplicatePk? {
      var pk := PkOf(h, rule, p);
      if pk.None? { return true; }
      ok := state.MarkPk(e, pk.value);
    } else if rule.check.MissingRequired? {
      var i, missing := 0, [];
      while i < |rule.fields|
        invariant 0 <= i <= |rule.fields|
        invariant missing == [] <==> forall k | 0 <= k < i :: IsPresent(h, p, rule.fields[k])
      {
        if !IsPresent(h, p, rule.fields[i]) {
          missing := missing + [rule.fields[i]];
        }
        i := i + 1;
      }
      ok := missing == [];
    } else {
      ok := Passes(h, rule, p, now, {});
    }
  }

  /** Engine.Check: the violations of every rule of the entity, in rule order. */
  method CheckLine(h: Host, rules: seq<Rule>, e: Entity, p: Payload, now: int, state: State)
    returns (out: seq<Violation>)
    modifies state
    ensures out == Violations(h, rules, p, now, old(state.SeenOf(e))) == Reports(h, rules, p, now, old(state.SeenOf(e)))
    ensures state.SeenOf(e) == SeenAfterAll(h, rules, p, old(state.SeenOf(e)))
    ensures state.SeenOf(e) == old(state.SeenOf(e)) + BroughtByAll(h, rules, p)
    ensures forall x | x != e :: state.SeenOf(x) == old(state.SeenOf(x))
  {
    hide Passes, SeenAfter, SeenAfterAll, Violations, Breaks, Brought, Reports, BroughtByAll;
    ViolationsAreReports(h, rules, p, now, state.SeenOf(e));
    out := [];
    var i := 0;
    NoRules(h, p, now, old(state.SeenOf(e)));
    while i < |rules|
      invariant 0 <= i <= |rules|
      invariant out == Violations(h, rules[..i], p, now, old(state.SeenOf(e)))
      invariant state.SeenOf(e) == SeenAfterAll(h, rules[..i], p, old(state.SeenOf(e)))
      invariant forall x | x != e :: state.SeenOf(x) == old(state.SeenOf(x))
    {
      var r := rules[i];
      OneMoreRule(h, rules, i, p, now, old(state.SeenOf(e)));
      if r.check.Unknown? {
        out := out + [Violation(r, Critical)];
      } else {
        var ok := RunCheck(h, e, r, p, now, state);
        if !ok {
          out := out + [Violation(r, r.severity)];
        }
      }
      i := i + 1;
    }
    assert rules[..i] == rules;
  }

  lemma NoRules(h: Host, p: Payload, now: int, seen: set<string>)
    ensures forall rules: seq<Rule> | rules == [] ::
              Violations(h, rules, p, now, seen) == [] && SeenAfterAll(h, rules, p, seen) == seen
  {}

  lemma OneMoreRule(h: Host, rules: seq<Rule>, i: nat, p: Payload, now: int, seen: set<string>)
    requires i < |rules|
    ensures var r, before := rules[i], SeenAfterAll(h, rules[..i], p, seen);
            && SeenAfterAll(h, rules[..i + 1], p, seen) == SeenAfter(h, r, p, before)
            && (r.check.Unknown? ==> SeenAfter(h, r, p, before) == before)
            && Violations(h, rules[..i + 1], p, now, seen)
               == Violations(h, rules[..i], p, now, seen)
                  + if !r.check.Unknown? && Passes(h, r, p, now, before) then []
                  else [Violation(r, if r.check.Unknown? then Critical else r.severity)]
  {
    assert rules[..i + 1][..i] == rules[..i];
  }

  method HasCritical(vs: seq<Violation>) returns (found: bool)
    ensures found <==> HasCriticalIn(vs)
  {
    for i := 0 to |vs|
      invariant forall k | 0 <= k < i :: vs[k].severity != Critical
    {
      if vs[i].severity == Critical { return true; }
    }
    return false;
  }

  // ---------------------------------------------------------------- the stream of one entity

  /** A source line: what the engine sees of it, when it looks, and the row it becomes. */
  datatype Item<R> = Item(payload: Payload, checkedAt: int, row: R)

  datatype Scanned<R> = Scanned(accepted: seq<Item<R>>, rejected: seq<Item<R>>, seen: set<string>)

  /** Which lines of the stream are accepted and which rejected, in order. */
  ghost function Scan<R>(h: Host, rules: seq<Rule>, items: seq<Item<R>>): Scanned<R> {
    if items == [] then Scanned([], [], {})
    else
      var before, it := Scan(h, rules, items[..|items| - 1]), items[|items| - 1];
      var seen := SeenAfterAll(h, rules, it.payload, before.seen);
      if HasCriticalIn(Violations(h, rules, it.payload, it.checkedAt, before.seen))
      then Scanned(before.accepted, before.rejected + [it], seen)
      else Scanned(before.accepted + [it], before.rejected, seen)
  }

  /** A line breaks a rule that counts: one that is critical, or whose check is unknown. */
  ghost predicate Condemned(h: Host, rules: seq<Rule>, p: Payload, now: int, seen: set<string>) {
    exists k :: 0 <= k < |rules| && CondemnedBy(h, rules, p, now, seen, k)
  }

  ghost predicate CondemnedBy(h: Host, rules: seq<Rule>, p: Payload, now: int, seen: set<string>, k: nat)
    requires k < |rules|
  {
    && (rules[k].severity == Critical || rules[k].check == Unknown)
    && Breaks(h, rules[k], p, now, seen + BroughtByAll(h, rules[..k], p))
  }

  lemma {:induction false} CriticalMeansCondemned(h: Host, rules: seq<Rule>, p: Payload, now: int, seen: set<string>)
    ensures HasCriticalIn(Reports(h, rules, p, now, seen)) <==> Condemned(h, rules, p, now, seen)
  {
    if rules != [] {
      hide Breaks, Brought, BroughtByAll, Reports;
      var n := |rules| - 1;
      var init, last := rules[..n], rules[n];
      CriticalMeansCondemned(h, init, p, now, seen);
      OneMoreReport(h, init, last, p, now, seen);
      assert rules == init + [last];
      forall k | 0 <= k < n
        ensures CondemnedBy(h, rules, p, now, seen, k) == CondemnedBy(h, init, p, now, seen, k)
      {
        assert init[..k] == rules[..k];
      }
      assert Condemned(h, rules, p, now, seen) <==>
             Condemned(h, init, p, now, seen) || CondemnedBy(h, rules, p, now, seen, n);
      CriticalOfSum(Reports(h, init, p, now, seen), Report(h, last, p, now, seen + BroughtByAll(h, init, p)));
    } else {
      assert Reports(h, rules, p, now, seen) == [];
    }
  }

  lemma CriticalOfSum(a: seq<Violation>, b: seq<Violation>)
    ensures HasCriticalIn(a + b) <==> HasCriticalIn(a) || HasCriticalIn(b)
  {
    if HasCriticalIn(a) {
      var v :| v in a && v.severity == Critical;
      assert v in a + b;
    }
    if HasCriticalIn(b) {
      var v :| v in b && v.severity == Critical;
      assert v in a + b;
    }
  }

  /** One more line is rejected exactly when it breaks a critical rule or one whose check is unknown; rules of any other
      severity reject nothing. */
  lemma OneMoreLine<R>(h: Host, rules: seq<Rule>, items: seq<Item<R>>, it: Item<R>)
    ensures var s, t := Scan(h, rules, items), Scan(h, rules, items + [it]);
            && t.seen == s.seen + BroughtByAll(h, rules, it.payload)
            && if Condemned(h, rules, it.payload, it.checkedAt, s.seen)
               then t.accepted == s.accepted && t.rejected == s.rejected + [it]
               else t.accepted == s.accepted + [it] && t.rejected == s.rejected
  {
    hide HasCriticalIn, Condemned, Violations, SeenAfterAll, Reports, BroughtByAll;
    assert (items + [it])[..|items|] == items;
    var s := Scan(h, rules, items);
    ViolationsAreReports(h, rules, it.payload, it.checkedAt, s.seen);
    CriticalMeansCondemned(h, rules, it.payload, it.checkedAt, s.seen);
  }

  lemma {:induction false} EveryLineIsCounted<R>(h: Host, rules: seq<Rule>, items: seq<Item<R>>)
    ensures var s := Scan(h, rules, items);
            |items| == |s.accepted| + |s.rejected| && multiset(items) == multiset(s.accepted) + multiset(s.rejected)
  {
    hide SeenAfterAll, Violations, HasCriticalIn;
    if items != [] {
      var init := items[..|items| - 1];
      EveryLineIsCounted(h, rules, init);
      assert multiset(items) == multiset(init) + multiset{items[|items| - 1]} by {
        assert items == init + [items[|items| - 1]];
      }
    }
  }

  ghost predicate GuardsField(rule: Rule, field: string) {
    rule.check == DuplicatePk && rule.severity == Critical && rule.field == field && field != ""
  }

  ghost predicate HasKey<R>(it: Item<R>, field: string) {
    field in it.payload && it.payload[field].Str?
  }

  ghost function KeyOf<R>(it: Item<R>, field: string): string
    requires HasKey(it, field)
  {
    it.payload[field].s
  }

  /** Rules only ever add keys. */
  lemma {:induction false} SeenGrows(h: Host, rules: seq<Rule>, p: Payload, seen: set<string>)
    ensures seen <= SeenAfterAll(h, rules, p, seen)
  {
    if rules != [] { SeenGrows(h, rules[..|rules| - 1], p, seen); }
  }

  /** A line without a critical violation brought a key its duplicate_pk rule had not seen. */
  lemma {:induction false} AcceptedKeyIsNew(h: Host, rules: seq<Rule>, p: Payload, now: int, seen: set<string>, rule: Rule)
    requires rule in rules && GuardsField(rule, rule.field) && rule.field in p && p[rule.field].Str?
    ensures p[rule.field].s in SeenAfterAll(h, rules, p, seen)
    ensures !HasCriticalIn(Violations(h, rules, p, now, seen)) ==> p[rule.field].s !in seen
  {
    var init, last := rules[..|rules| - 1], rules[|rules| - 1];
    SeenGrows(h, init, p, seen);
    if last != rule {
      AcceptedKeyIsNew(h, init, p, now, seen, rule);
      if HasCriticalIn(Violations(h, init, p, now, seen)) {
        var v :| v in Violations(h, init, p, now, seen) && v.severity == Critical;
        assert v in Violations(h, rules, p, now, seen);
      }
    } else if !Passes(h, last, p, now, SeenAfterAll(h, init, p, seen)) {
      assert Violation(last, Critical) in Violations(h, rules, p, now, seen);
    }
  }

  ghost predicate KeysDistinct<R>(items: seq<Item<R>>, field: string)
    requires forall it | it in items :: HasKey(it, field)
  {
    forall i, j | 0 <= i < j < |items| :: KeyOf(items[i], field) != KeyOf(items[j], field)
  }

  lemma {:induction false} ScanSelects<R>(h: Host, rules: seq<Rule>, items: seq<Item<R>>)
    ensures forall it | it in Scan(h, rules, items).accepted :: it in items
  {
    if items != [] { ScanSelects(h, rules, items[..|items| - 1]); }
  }

  /** With a critical duplicate_pk rule among the rules and its string field in every line,
      no two accepted lines have the same key, whatever the other rules do. */
  lemma {:induction false} AcceptedKeysDistinct<R>(h: Host, rules: seq<Rule>, items: seq<Item<R>>, rule: Rule)
    requires rule in rules && GuardsField(rule, rule.field)
    requires forall it | it in items :: HasKey(it, rule.field)
    ensures var s := Scan(h, rules, items);
            && (forall it | it in s.accepted :: HasKey(it, rule.field) && KeyOf(it, rule.field) in s.seen)
            && KeysDistinct(s.accepted, rule.field)
  {
    if items != [] {
      var init, it := items[..|items| - 1], items[|items| - 1];
      assert forall x | x in init :: x in items;
      assert it in items && HasKey(it, rule.field);
      AcceptedKeysDistinct(h, rules, init, rule);
      var before := Scan(h, rules, init);
      SeenGrows(h, rules, it.payload, before.seen);
      AcceptedKeyIsNew(h, rules, it.payload, it.checkedAt, before.seen, rule);
    }
  }

  /** The reference: of the lines with the same key, the first. */
  ghost function FirstOfEachKey<R>(items: seq<Item<R>>, field: string): seq<Item<R>>
    requires forall it | it in items :: HasKey(it, field)
  {
    if items == [] then []
    else
      var init, it := items[..|items| - 1], items[|items| - 1];
      FirstOfEachKey(init, field) + if KeyOf(it, field) in KeysIn(init, field) then [] else [it]
  }

  ghost function KeysIn<R>(items: seq<Item<R>>, field: string): set<string>
    requires forall it | it in items :: HasKey(it, field)
  {
    set it | it in items :: KeyOf(it, field)
  }

  /** With that rule alone, exactly the first line of every key is accepted. */
  lemma {:induction false} FirstOfEachKeyAccepted<R>(h: Host, items: seq<Item<R>>, rule: Rule)
    requires GuardsField(rule, rule.field)
    requires forall it | it in items :: HasKey(it, rule.field)
    ensures Scan(h, [rule], items).seen == KeysIn(items, rule.field)
    ensures Scan(h, [rule], items).accepted == FirstOfEachKey(items, rule.field)
  {
    hide SeenAfterAll, Violations, HasCriticalIn, GuardsField;
    if items != [] {
      var init, it := items[..|items| - 1], items[|items| - 1];
      assert forall x | x in init :: x in items;
      assert it in items && HasKey(it, rule.field);
      FirstOfEachKeyAccepted(h, init, rule);
      OneRule(h, rule, it.payload, it.checkedAt, Scan(h, [rule], init).seen);
      KeysInSnoc(init, it, rule.field);
      hide KeysIn;
      assert items == init + [it];
    }
  }

  lemma KeysInSnoc<R>(init: seq<Item<R>>, it: Item<R>, field: string)
    requires HasKey(it, field) && forall x | x in init :: HasKey(x, field)
    ensures KeysIn(init + [it], field) == KeysIn(init, field) + {KeyOf(it, field)}
  {
    var all := init + [it];
    forall x | x in init ensures x in all {}
    assert all[|init|] == it;
    forall k | k in KeysIn(all, field) ensures k in KeysIn(init, field) + {KeyOf(it, field)} {
      var x :| x in all && KeyOf(x, field) == k;
    }
  }

  lemma OneRule(h: Host, rule: Rule, p: Payload, now: int, seen: set<string>)
    requires GuardsField(rule, rule.field) && rule.field in p && p[rule.field].Str?
    ensures SeenAfterAll(h, [rule], p, seen) == seen + {p[rule.field].s}
    ensures HasCriticalIn(Violations(h, [rule], p, now, seen)) <==> p[rule.field].s in seen
  {
    var init := [rule][..0];
    assert init == [];
    assert SeenAfterAll(h, init, p, seen) == seen;
    assert Violations(h, init, p, now, seen) == [];
    var vs := Violations(h, [rule], p, now, seen);
    if p[rule.field].s in seen {
      assert !Passes(h, rule, p, now, seen);
      assert vs == [Violation(rule, Critical)];
      assert vs[0].severity == Critical;
    } else {
      assert vs == [];
    }
  }
}
