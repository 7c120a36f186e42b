/** What a rule's scope does, in the fields of the scope: which part of a schedule a rule looks at, rule
    kind by rule kind, and what that makes of the built model. */
module ScopeMeaning {
  import opened Wrappers
  import opened Calendar
  import opened Problems
  import opened LinearModel
  import opened RuleMeaning
  import opened MemberByDate
  import opened HardRules
  import opened Compiler
  import opened CompiledMeaning

  // ---------------------------------------------------------------- the fields of a scope

  /** The memberships a scope names, and the staff groups: an empty list names everybody, two names of one
      list are either of them, and a member has to be named by both lists. */
  predicate NamesMember(p: Problem, scope: Scope, m: Id) {
    && (|scope.memberships| == 0 || exists i :: 0 <= i < |scope.memberships| && scope.memberships[i] == m)
    && (|scope.staffGroups| == 0
        || exists g :: g in scope.staffGroups && g in p.staffGroups && m in p.staffGroups[g])
  }

  predicate NamesCode(p: Problem, scope: Scope, s: Id) {
    |scope.codes| == 0 || (s in p.codeOf && exists i :: 0 <= i < |scope.codes| && scope.codes[i] == p.codeOf[s])
  }

  predicate NamesDate(scope: Scope, d: int) {
    scope.range.None? || scope.range.value.0 <= d <= scope.range.value.1
  }

  /** An assignment in scope: on a date of the horizon, and its date, shift type and member are named. */
  predicate InScope(p: Problem, scope: Scope, c: Cell) {
    p.start <= c.d <= p.end && NamesDate(scope, c.d) && NamesCode(p, scope, c.s) && NamesMember(p, scope, c.m)
  }

  /** A shift type the member is eligible for, on a date of the horizon the member is not off. */
  predicate CanBeTaken(p: Problem, c: Cell) {
    c.m in p.members && p.start <= c.d <= p.end && (c.m, c.d) !in p.hardOff && c.s in p.shiftIds
    && (c.m, c.s) in p.eligible
  }

  /** The same scope for all members; for all shift types; for all dates. */
  function ForAll(scope: Scope): Scope {
    scope.(memberships := [], staffGroups := [])
  }

  function AnyCode(scope: Scope): Scope {
    scope.(codes := [])
  }

  function AnyDate(scope: Scope): Scope {
    scope.(range := None)
  }

  /** The assignments of the members named. */
  ghost function NamedPart(p: Problem, scope: Scope, x: set<Cell>): set<Cell> {
    set c | c in x && NamesMember(p, scope, c.m)
  }

  ghost function MembersPart(x: set<Cell>, m: Id): set<Cell> {
    set c | c in x && c.m == m
  }

  ghost function CodesPart(p: Problem, scope: Scope, x: set<Cell>): set<Cell> {
    set c | c in x && NamesCode(p, scope, c.s)
  }

  ghost function DatesPart(scope: Scope, x: set<Cell>): set<Cell> {
    set c | c in x && NamesDate(scope, c.d)
  }

  lemma AdmitsByField(p: Problem, scope: Scope, c: Cell)
    ensures Admits(p, scope, c) <==> Admits(p, ForAll(scope), c) && NamesMember(p, scope, c.m)
    ensures Admits(p, scope, c) <==> Admits(p, AnyCode(scope), c) && NamesCode(p, scope, c.s)
    ensures Admits(p, scope, c) <==> Admits(p, AnyDate(scope), c) && NamesDate(scope, c.d)
    ensures Admits(p, scope, c) <==> InScope(p, scope, c)
  {
  }

  /** Empty lists filter nothing, a single membership leaves its own assignments, and naming more memberships,
      shift types or staff groups admits what each of the two lists admits. */
  lemma NamingMoreIsEither(p: Problem, scope: Scope, a: seq<Id>, b: seq<Id>, codes: seq<Code>, more: seq<Code>, m: Id,
                           c: Cell)
    ensures Admits(p, EVERYTHING, c) <==> p.start <= c.d <= p.end
    ensures Admits(p, scope.(memberships := [m]), c) <==> Admits(p, scope.(memberships := []), c) && c.m == m
    ensures a != [] && b != [] ==>
              (Admits(p, scope.(memberships := a + b), c)
               <==> Admits(p, scope.(memberships := a), c) || Admits(p, scope.(memberships := b), c))
    ensures a != [] && b != [] ==>
              (Admits(p, scope.(staffGroups := a + b), c)
               <==> Admits(p, scope.(staffGroups := a), c) || Admits(p, scope.(staffGroups := b), c))
    ensures codes != [] && more != [] ==>
              (Admits(p, scope.(codes := codes + more), c)
               <==> Admits(p, scope.(codes := codes), c) || Admits(p, scope.(codes := more), c))
  {
    GroupsAdmit(p, scope, a + b, c);
    GroupsAdmit(p, scope, a, c);
    GroupsAdmit(p, scope, b, c);
    assert forall g :: g in a + b <==> g in a || g in b;
    assert forall code :: code in codes + more <==> code in codes || code in more;
    hide InWindow, InStaffGroup;
  }

  lemma GroupsAdmit(p: Problem, scope: Scope, groups: seq<Id>, c: Cell)
    ensures groups != [] ==>
              (Admits(p, scope.(staffGroups := groups), c) <==>
               Admits(p, scope.(staffGroups := []), c) && exists g :: g in groups && InStaffGroup(p, g, c.m))
  {
  }

  // ---------------------------------------------------------------- members

  predicate LooksAtScope(kind: Kind) {
    !kind.FixedAssignment? && !kind.ProtectedRange?
  }

  lemma CountsOfNamed(p: Problem, scope: Scope, x: set<Cell>)
    ensures forall d, s :: OnDateShift(p, scope, x, d, s) == OnDateShift(p, ForAll(scope), NamedPart(p, scope, x), d, s)
    ensures forall m, lo, hi ::
              Between(p, scope, x, m, lo, hi) == Between(p, ForAll(scope), NamedPart(p, scope, x), m, lo, hi)
    ensures forall m, w :: OnWeekday(p, scope, x, m, w) == OnWeekday(p, ForAll(scope), NamedPart(p, scope, x), m, w)
  {
    forall c { AdmitsByField(p, scope, c); }
    hide Admits, NamesMember;
  }

  lemma WorksOfNamed(p: Problem, scope: Scope, x: set<Cell>)
    ensures forall m, d :: WorksOn(p, scope, x, m, d) <==> WorksOn(p, ForAll(scope), NamedPart(p, scope, x), m, d)
    ensures forall m, d, code ::
              WorksCode(p, scope, x, m, d, code) <==> WorksCode(p, ForAll(scope), NamedPart(p, scope, x), m, d, code)
    ensures forall a, b :: Together(p, scope, x, a, b) <==> Together(p, ForAll(scope), NamedPart(p, scope, x), a, b)
  {
    forall c { AdmitsByField(p, scope, c); }
    hide Admits, NamesMember;
    forall m, d ensures WorksOn(p, scope, x, m, d) <==> WorksOn(p, ForAll(scope), NamedPart(p, scope, x), m, d) {
    }
  }

  /** Somebody who is not named has no cell of a code in scope, and works none. */
  lemma CodesOfNamed(p: Problem, scope: Scope, x: set<Cell>, m: Id, d: int)
    ensures forall code :: HasCode(p, scope, m, d, code) <==>
              HasCode(p, ForAll(scope), m, d, code) && NamesMember(p, scope, m)
    ensures !NamesMember(p, scope, m) ==>
              forall code :: !WorksCode(p, ForAll(scope), NamedPart(p, scope, x), m, d, code)
  {
    forall c { AdmitsByField(p, scope, c); }
    hide Admits, NamesMember, IsCell;
  }

  lemma LinksOfNamed(p: Problem, scope: Scope, x: set<Cell>, m: Id, d: int, names: seq<Code>)
    ensures (HasAll(p, scope, m, d, names) ==> AllOrNone(p, scope, x, m, d, names))
       <==> (HasAll(p, ForAll(scope), m, d, names) ==> AllOrNone(p, ForAll(scope), NamedPart(p, scope, x), m, d, names))
    ensures (HasAll(p, scope, m, d, names) ==> AtMostOne(p, scope, x, m, d, names))
       <==> (HasAll(p, ForAll(scope), m, d, names) ==> AtMostOne(p, ForAll(scope), NamedPart(p, scope, x), m, d, names))
  {
    CodesOfNamed(p, scope, x, m, d);
    WorksOfNamed(p, scope, x);
    hide HasCode, WorksCode, NamesMember;
  }

  lemma ImplicationOfNamed(p: Problem, scope: Scope, x: set<Cell>, m: Id, d: int, a: Code, b: Code)
    ensures (HasAll(p, scope, m, d, [a, b]) && WorksCode(p, scope, x, m, d, a) ==> WorksCode(p, scope, x, m, d, b))
       <==> (HasAll(p, ForAll(scope), m, d, [a, b]) && WorksCode(p, ForAll(scope), NamedPart(p, scope, x), m, d, a) ==>
              WorksCode(p, ForAll(scope), NamedPart(p, scope, x), m, d, b))
  {
    CodesOfNamed(p, scope, x, m, d);
    WorksOfNamed(p, scope, x);
    hide HasCode, WorksCode, NamesMember;
  }

  lemma SegmentOfNamed(p: Problem, scope: Scope, x: set<Cell>, m: Id, d: int, target: int, trigger: Code, code: Code)
    ensures (WorksCode(p, scope, x, m, d, trigger) ==> Followed(p, scope, x, m, target, code))
       <==> (WorksCode(p, ForAll(scope), NamedPart(p, scope, x), m, d, trigger) ==>
              Followed(p, ForAll(scope), NamedPart(p, scope, x), m, target, code))
  {
    CodesOfNamed(p, scope, x, m, d);
    CodesOfNamed(p, scope, x, m, target);
    WorksOfNamed(p, scope, x);
    hide HasCode, WorksCode, NamesMember;
  }

  lemma WindowsAreDates(p: Problem, scope: Scope)
    ensures forall d :: InWindow(p, scope, d) <==> InWindow(p, ForAll(scope), d)
    ensures WindowStart(p, scope) == WindowStart(p, ForAll(scope))
    ensures forall w :: WeekdayDates(p, scope, w) == WeekdayDates(p, ForAll(scope), w)
    ensures forall code :: CoverageCode(p, scope, code) <==> CoverageCode(p, ForAll(scope), code)
  {
  }

  /** A scope that names members and staff groups makes of a rule the same rule for everybody, on the
      assignments of those members alone. */
  lemma ScopeIsItsMembers(p: Problem, scope: Scope, kind: Kind, x: set<Cell>)
    requires Resolved(p) && Modellable(p, Hard("", scope, kind)) && LooksAtScope(kind)
    ensures Modellable(p, Hard("", ForAll(scope), kind))
    ensures Accepts(p, scope, kind, x) <==> Accepts(p, ForAll(scope), kind, NamedPart(p, scope, x))
  {
    hide Accepts, NamedPart;
    if Bars(kind) {
      BarsOfNamed(p, scope, kind, x);
    } else if Counts(kind) || kind.MaxAssignmentsInWindow? {
      CountingOfNamed(p, scope, kind, x);
    } else if kind.LinkedShifts? || kind.MutuallyExclusive? || kind.ImpliesAssignment? || kind.PatternRule? {
      NamingOfNamed(p, scope, kind, x);
    } else {
      RunsOfNamed(p, scope, kind, x);
    }
  }

  lemma NamingOfNamed(p: Problem, scope: Scope, kind: Kind, x: set<Cell>)
    requires Resolved(p) && Modellable(p, Hard("", scope, kind))
    requires kind.LinkedShifts? || kind.MutuallyExclusive? || kind.ImpliesAssignment? || kind.PatternRule?
    ensures Accepts(p, scope, kind, x) <==> Accepts(p, ForAll(scope), kind, NamedPart(p, scope, x))
  {
    hide HasAll, AllOrNone, AtMostOne, WorksCode, Followed, NamedPart, ForAll;
    match kind
    case LinkedShifts(names) => forall m, d { LinksOfNamed(p, scope, x, m, d, names); }
    case MutuallyExclusive(names) => forall m, d { LinksOfNamed(p, scope, x, m, d, names); }
    case ImpliesAssignment(a, b) => forall m, d { ImplicationOfNamed(p, scope, x, m, d, a, b); }
    case PatternRule(trigger, days, segments) =>
      forall m, d, target, code { SegmentOfNamed(p, scope, x, m, d, target, trigger, code); }
  }

  lemma BarsOfNamed(p: Problem, scope: Scope, kind: Kind, x: set<Cell>)
    requires Resolved(p) && Modellable(p, Hard("", scope, kind)) && Bars(kind)
    ensures Accepts(p, scope, kind, x) <==> Accepts(p, ForAll(scope), kind, NamedPart(p, scope, x))
  {
    forall c { AdmitsByField(p, scope, c); }
    hide Admits, NamesMember, HoldsOn;
  }

  lemma CountingOfNamed(p: Problem, scope: Scope, kind: Kind, x: set<Cell>)
    requires Resolved(p) && Modellable(p, Hard("", scope, kind)) && (Counts(kind) || kind.MaxAssignmentsInWindow?)
    ensures Accepts(p, scope, kind, x) <==> Accepts(p, ForAll(scope), kind, NamedPart(p, scope, x))
  {
    CountsOfNamed(p, scope, x);
    WindowsAreDates(p, scope);
    hide OnDateShift, Between, OnWeekday, WeekdayDates, NamedPart, CoverageCode, FteLimit, InWindow;
  }

  lemma RunsOfNamed(p: Problem, scope: Scope, kind: Kind, x: set<Cell>)
    requires Resolved(p) && Modellable(p, Hard("", scope, kind))
    requires kind.MaxConsecutive? || kind.MinimumRestBetween? || kind.CallSpacing? || kind.NoAdjacent?
             || kind.ForbiddenSequence? || kind.AlternatingWeek?
    ensures Accepts(p, scope, kind, x) <==> Accepts(p, ForAll(scope), kind, NamedPart(p, scope, x))
  {
    WorksOfNamed(p, scope, x);
    WindowsAreDates(p, scope);
    hide WorksOn, WorksCode, Together, NamedPart, InWindow, WindowStart, TooClose, RestPair, OnCall, WorksThrough,
      RunsThrough, ClassOf;
    match kind
    case MaxConsecutive(k) => StretchesOfNamed(p, scope, x);
    case ForbiddenSequence(sequence) => SequencesOfNamed(p, scope, sequence, x);
    case AlternatingWeek(code, cycle) =>
      if cycle >= 1 { ClassesOfNamed(p, scope, cycle); }
    case _ =>
  }

  lemma StretchesOfNamed(p: Problem, scope: Scope, x: set<Cell>)
    ensures forall m, lo, hi ::
              WorksThrough(p, scope, x, m, lo, hi) <==>
              WorksThrough(p, ForAll(scope), NamedPart(p, scope, x), m, lo, hi)
  {
    WorksOfNamed(p, scope, x);
    hide WorksOn, NamedPart;
  }

  lemma SequencesOfNamed(p: Problem, scope: Scope, sequence: seq<Code>, x: set<Cell>)
    ensures forall m, d ::
              RunsThrough(p, scope, x, m, d, sequence) <==>
              RunsThrough(p, ForAll(scope), NamedPart(p, scope, x), m, d, sequence)
  {
    WorksOfNamed(p, scope, x);
    hide WorksCode, NamedPart;
  }

  lemma ClassesOfNamed(p: Problem, scope: Scope, cycle: int)
    requires cycle >= 1
    ensures forall d :: ClassOf(p, scope, d, cycle) == ClassOf(p, ForAll(scope), d, cycle)
  {
    WindowsAreDates(p, scope);
  }

  // ---------------------------------------------------------------- member by member

  /** What one member's assignments say of the member, and that they say nothing of anybody else. */
  lemma WorksOfMember(p: Problem, scope: Scope, x: set<Cell>, n: Id)
    ensures forall d, code :: WorksCode(p, scope, MembersPart(x, n), n, d, code) <==> WorksCode(p, scope, x, n, d, code)
    ensures forall m, d, code :: m != n ==> !WorksCode(p, scope, MembersPart(x, n), m, d, code)
    ensures forall d :: WorksOn(p, scope, MembersPart(x, n), n, d) <==> WorksOn(p, scope, x, n, d)
    ensures forall m, d :: m != n ==> !WorksOn(p, scope, MembersPart(x, n), m, d)
    ensures forall a: Cell, b: Cell :: a.m == n == b.m ==>
              (Together(p, scope, MembersPart(x, n), a, b) <==> Together(p, scope, x, a, b))
    ensures forall a: Cell, b: Cell :: a.m != n ==> !Together(p, scope, MembersPart(x, n), a, b)
  {
    hide Admits;
    forall d ensures WorksOn(p, scope, MembersPart(x, n), n, d) <==> WorksOn(p, scope, x, n, d) {
    }
  }

  lemma CountsOfMember(p: Problem, scope: Scope, x: set<Cell>, n: Id)
    ensures forall lo, hi :: Between(p, scope, MembersPart(x, n), n, lo, hi) == Between(p, scope, x, n, lo, hi)
    ensures forall m, lo, hi :: m != n ==> Between(p, scope, MembersPart(x, n), m, lo, hi) == {}
    ensures forall w :: OnWeekday(p, scope, MembersPart(x, n), n, w) == OnWeekday(p, scope, x, n, w)
    ensures forall m, w :: m != n ==> OnWeekday(p, scope, MembersPart(x, n), m, w) == {}
  {
    hide Admits;
  }

  /** The kinds that look at one member at a time: all but coverage and the kept inputs. */
  predicate ByMember(kind: Kind) {
    LooksAtScope(kind) && !kind.RequiredCount? && !kind.MinCoverage? && !kind.MaxCoverage?
  }

  /** Such a rule accepts a schedule exactly if it accepts each member's part. */
  lemma MemberByMember(p: Problem, scope: Scope, kind: Kind, x: set<Cell>)
    requires Resolved(p) && OnGrid(p, x) && Modellable(p, Hard("", scope, kind)) && ByMember(kind)
    ensures Accepts(p, scope, kind, x) <==> forall n :: Accepts(p, scope, kind, MembersPart(x, n))
  {
    if Accepts(p, scope, kind, x) {
      forall n ensures Accepts(p, scope, kind, MembersPart(x, n)) { PartAccepted(p, scope, kind, x, n); }
    }
    if forall n :: Accepts(p, scope, kind, MembersPart(x, n)) { PartsAccepted(p, scope, kind, x); }
  }

  lemma StretchOfMember(p: Problem, scope: Scope, x: set<Cell>, n: Id, m: Id, lo: int, hi: int)
    ensures WorksThrough(p, scope, MembersPart(x, n), n, lo, hi) <==> WorksThrough(p, scope, x, n, lo, hi)
    ensures m != n && lo <= hi ==> !WorksThrough(p, scope, MembersPart(x, n), m, lo, hi)
  {
    WorksOfMember(p, scope, x, n);
    hide WorksOn;
    if m != n && lo <= hi {
      assert !WorksOn(p, scope, MembersPart(x, n), m, lo);
    }
  }

  lemma RunsOfMember(p: Problem, scope: Scope, x: set<Cell>, n: Id, m: Id, k: nat)
    ensures NoLongRun(p, scope, MembersPart(x, n), n, k) <==> NoLongRun(p, scope, x, n, k)
    ensures m != n ==> NoLongRun(p, scope, MembersPart(x, n), m, k)
  {
    forall lo, hi { StretchOfMember(p, scope, x, n, m, lo, hi); }
    hide WorksThrough, InWindow;
  }

  lemma SequencesOfMember(p: Problem, scope: Scope, x: set<Cell>, n: Id, m: Id, d: int, sequence: seq<Code>)
    ensures RunsThrough(p, scope, MembersPart(x, n), n, d, sequence) <==> RunsThrough(p, scope, x, n, d, sequence)
    ensures m != n && sequence != [] ==> !RunsThrough(p, scope, MembersPart(x, n), m, d, sequence)
  {
    WorksOfMember(p, scope, x, n);
    hide WorksCode;
    if m != n && sequence != [] {
      assert !WorksCode(p, scope, MembersPart(x, n), m, d + 0, sequence[0]);
    }
  }

  lemma LinksOfMember(p: Problem, scope: Scope, x: set<Cell>, n: Id, m: Id, d: int, names: seq<Code>)
    ensures AllOrNone(p, scope, MembersPart(x, n), n, d, names) <==> AllOrNone(p, scope, x, n, d, names)
    ensures AtMostOne(p, scope, MembersPart(x, n), n, d, names) <==> AtMostOne(p, scope, x, n, d, names)
    ensures m != n ==> AllOrNone(p, scope, MembersPart(x, n), m, d, names)
    ensures m != n ==> AtMostOne(p, scope, MembersPart(x, n), m, d, names)
  {
    WorksOfMember(p, scope, x, n);
    hide WorksCode;
  }

  lemma TailsOfMember(p: Problem, scope: Scope, x: set<Cell>, n: Id, target: int, code: Code)
    ensures Followed(p, scope, MembersPart(x, n), n, target, code) <==> Followed(p, scope, x, n, target, code)
  {
    WorksOfMember(p, scope, x, n);
    hide WorksCode, HasCode;
  }

  lemma NobodyIsOver(p: Problem, scope: Scope, w: Weekday, fraction: real)
    requires Resolved(p) && fraction >= 0.0
    ensures forall m :: FteLimit(p, m, w, fraction, |WeekdayDates(p, scope, w)|) >= 0
  {
    forall m { FteLimitNatural(p, m, w, fraction, |WeekdayDates(p, scope, w)|); }
  }

  lemma PartAccepted(p: Problem, scope: Scope, kind: Kind, x: set<Cell>, n: Id)
    requires Resolved(p) && Modellable(p, Hard("", scope, kind)) && ByMember(kind) && Accepts(p, scope, kind, x)
    ensures Accepts(p, scope, kind, MembersPart(x, n))
  {
    match kind
    case MaxConsecutive(k) => forall m { RunsOfMember(p, scope, x, n, m, k); }
    case ForbiddenSequence(sequence) => forall m, d { SequencesOfMember(p, scope, x, n, m, d, sequence); }
    case LinkedShifts(names) => forall m, d { LinksOfMember(p, scope, x, n, m, d, names); }
    case MutuallyExclusive(names) => forall m, d { LinksOfMember(p, scope, x, n, m, d, names); }
    case PatternRule(trigger, days, segments) =>
      WorksOfMember(p, scope, x, n);
      forall target, code { TailsOfMember(p, scope, x, n, target, code); }
      hide WorksCode, Followed;
    case WeekdayFteLimit(w, fraction) =>
      NobodyIsOver(p, scope, w, fraction);
      CountsOfMember(p, scope, x, n);
      hide OnWeekday, FteLimit, WeekdayDates;
    case _ => OtherPartAccepted(p, scope, kind, x, n);
  }

  lemma OtherPartAccepted(p: Problem, scope: Scope, kind: Kind, x: set<Cell>, n: Id)
    requires Resolved(p) && Modellable(p, Hard("", scope, kind)) && Accepts(p, scope, kind, x)
    requires Bars(kind) || kind.PickPositionRestriction? || kind.MaxAssignmentsInWindow? || kind.MinimumRestBetween?
             || kind.CallSpacing? || kind.NoAdjacent? || kind.ImpliesAssignment? || kind.AlternatingWeek?
    ensures Accepts(p, scope, kind, MembersPart(x, n))
  {
    WorksOfMember(p, scope, x, n);
    CountsOfMember(p, scope, x, n);
    hide WorksCode, Between, HasCode, Admits, HoldsOn, TooClose, RestPair, OnCall, InWindow, ClassOf;
  }

  /** Put together again from the parts, kind by kind. */
  lemma PartsAccepted(p: Problem, scope: Scope, kind: Kind, x: set<Cell>)
    requires Resolved(p) && OnGrid(p, x) && Modellable(p, Hard("", scope, kind)) && ByMember(kind)
    requires forall n :: Accepts(p, scope, kind, MembersPart(x, n))
    ensures Accepts(p, scope, kind, x)
  {
    match kind
    case MaxConsecutive(k) =>
      forall n | n in p.members ensures NoLongRun(p, scope, x, n, k) {
        assert Accepts(p, scope, kind, MembersPart(x, n));
        RunsOfMember(p, scope, x, n, n, k);
      }
    case ForbiddenSequence(sequence) =>
      forall n, d | sequence != [] ensures !RunsThrough(p, scope, x, n, d, sequence) {
        assert Accepts(p, scope, kind, MembersPart(x, n));
        SequencesOfMember(p, scope, x, n, n, d, sequence);
      }
    case LinkedShifts(names) =>
      forall n, d | HasAll(p, scope, n, d, names) ensures AllOrNone(p, scope, x, n, d, names) {
        assert Accepts(p, scope, kind, MembersPart(x, n));
        LinksOfMember(p, scope, x, n, n, d, names);
      }
    case MutuallyExclusive(names) =>
      forall n, d | HasAll(p, scope, n, d, names) ensures AtMostOne(p, scope, x, n, d, names) {
        assert Accepts(p, scope, kind, MembersPart(x, n));
        LinksOfMember(p, scope, x, n, n, d, names);
      }
    case PatternRule(trigger, days, segments) => PatternPartsAccepted(p, scope, trigger, days, segments, x);
    case _ =>
      if kind.MinimumRestBetween? || kind.CallSpacing? || Bars(kind) {
        CellPartsAccepted(p, scope, kind, x);
      } else {
        DayPartsAccepted(p, scope, kind, x);
      }
  }

  lemma PatternPartsAccepted(p: Problem, scope: Scope, trigger: Code, days: set<Weekday>, segments: seq<Segment>,
                             x: set<Cell>)
    requires forall n :: Patterned(p, scope, MembersPart(x, n), trigger, days, segments)
    ensures Patterned(p, scope, x, trigger, days, segments)
  {
    forall n, d, i | WorksCode(p, scope, x, n, d, trigger) && WeekdayOfDay(d) in days && 0 <= i < |segments|
      ensures Followed(p, scope, x, n, d + segments[i].offsetDays, segments[i].shiftType)
    {
      assert Patterned(p, scope, MembersPart(x, n), trigger, days, segments);
      WorksOfMember(p, scope, x, n);
      TailsOfMember(p, scope, x, n, d + segments[i].offsetDays, segments[i].shiftType);
      assert WorksCode(p, scope, MembersPart(x, n), n, d, trigger);
      assert Followed(p, scope, MembersPart(x, n), n, d + segments[i].offsetDays, segments[i].shiftType);
    }
  }

  lemma CellPartsAccepted(p: Problem, scope: Scope, kind: Kind, x: set<Cell>)
    requires Resolved(p) && Modellable(p, Hard("", scope, kind))
    requires kind.MinimumRestBetween? || kind.CallSpacing? || Bars(kind)
    requires forall n :: Accepts(p, scope, kind, MembersPart(x, n))
    ensures Accepts(p, scope, kind, x)
  {
    hide Admits, HoldsOn, TooClose, OnCall;
    if kind.MinimumRestBetween? {
      forall a, b | Together(p, scope, x, a, b) && RestPair(kind.minMinutes, a, b)
        ensures !TooClose(p, kind.minMinutes, a, b)
      {
        assert Accepts(p, scope, kind, MembersPart(x, a.m));
        assert Together(p, scope, MembersPart(x, a.m), a, b);
      }
    } else if kind.CallSpacing? {
      forall a, b | Together(p, scope, x, a, b) && OnCall(p, a.s) && OnCall(p, b.s) && a.m == b.m && a != b
        && a.d <= b.d
        ensures a.d < b.d && b.d - a.d >= kind.minDaysBetweenCalls
      {
        assert Accepts(p, scope, kind, MembersPart(x, a.m));
        assert Together(p, scope, MembersPart(x, a.m), a, b);
      }
    } else {
      forall c | c in x ensures c in MembersPart(x, c.m) && Accepts(p, scope, kind, MembersPart(x, c.m)) {
      }
    }
  }

  lemma DayPartsAccepted(p: Problem, scope: Scope, kind: Kind, x: set<Cell>)
    requires Resolved(p) && Modellable(p, Hard("", scope, kind))
    requires kind.WeekdayFteLimit? || kind.PickPositionRestriction? || kind.MaxAssignmentsInWindow? || kind.NoAdjacent?
             || kind.ImpliesAssignment? || kind.AlternatingWeek?
    requires forall n :: Accepts(p, scope, kind, MembersPart(x, n))
    ensures Accepts(p, scope, kind, x)
  {
    hide WorksCode, HasCode, Between, OnWeekday, Admits, InWindow, FteLimit, ClassOf;
    forall n
      ensures Accepts(p, scope, kind, MembersPart(x, n))
      ensures forall d, code :: WorksCode(p, scope, MembersPart(x, n), n, d, code) <==>
                WorksCode(p, scope, x, n, d, code)
      ensures forall lo, hi :: Between(p, scope, MembersPart(x, n), n, lo, hi) == Between(p, scope, x, n, lo, hi)
      ensures forall w :: OnWeekday(p, scope, MembersPart(x, n), n, w) == OnWeekday(p, scope, x, n, w)
    {
      WorksOfMember(p, scope, x, n);
      CountsOfMember(p, scope, x, n);
    }
    match kind
    case WeekdayFteLimit(w, fraction) =>
      forall m | m in p.members
        ensures |OnWeekday(p, scope, x, m, w)| <= FteLimit(p, m, w, fraction, |WeekdayDates(p, scope, w)|)
      {
        assert Accepts(p, scope, kind, MembersPart(x, m));
      }
    case MaxAssignmentsInWindow(k, span) =>
      forall m | m in p.members ensures WindowsBounded(p, scope, x, m, k, span) {
        assert Accepts(p, scope, kind, MembersPart(x, m));
        assert WindowsBounded(p, scope, MembersPart(x, m), m, k, span);
      }
    case NoAdjacent(a, b) =>
      forall m, d | InWindow(p, scope, d) && InWindow(p, scope, d + 1)
        ensures !(WorksCode(p, scope, x, m, d, a) && WorksCode(p, scope, x, m, d + 1, b))
        ensures !(WorksCode(p, scope, x, m, d, b) && WorksCode(p, scope, x, m, d + 1, a))
      {
        assert Accepts(p, scope, kind, MembersPart(x, m));
        assert NotAdjacent(p, scope, MembersPart(x, m), a, b);
      }
    case ImpliesAssignment(a, b) =>
      forall m, d | HasAll(p, scope, m, d, [a, b]) && WorksCode(p, scope, x, m, d, a)
        ensures WorksCode(p, scope, x, m, d, b)
      {
        assert Accepts(p, scope, kind, MembersPart(x, m));
      }
    case AlternatingWeek(code, cycle) =>
      if cycle >= 1 {
        forall m, d, e | WorksCode(p, scope, x, m, d, code) && WorksCode(p, scope, x, m, e, code)
          ensures ClassOf(p, scope, d, cycle) == ClassOf(p, scope, e, cycle)
        {
          assert Accepts(p, scope, kind, MembersPart(x, m));
          assert OneClass(p, scope, MembersPart(x, m), code, cycle);
        }
      }
    case PickPositionRestriction =>
  }

  lemma NothingIsAccepted(p: Problem, scope: Scope, kind: Kind)
    requires Resolved(p) && Modellable(p, Hard("", scope, kind)) && ByMember(kind)
    ensures Accepts(p, scope, kind, {})
  {
    hide HasCode, Admits, HoldsOn, InWindow, FteLimit, TooClose, RestPair, OnCall, ClassOf, HasAll, WeekdayDates;
    match kind
    case WeekdayFteLimit(w, fraction) => NobodyIsOver(p, scope, w, fraction);
    case MaxConsecutive(k) =>
      forall m, lo, hi ensures lo <= hi ==> !WorksThrough(p, scope, {}, m, lo, hi) {
        assert !WorksOn(p, scope, {}, m, lo);
      }
    case ForbiddenSequence(sequence) =>
      forall m, d | sequence != [] ensures !RunsThrough(p, scope, {}, m, d, sequence) {
        assert !WorksCode(p, scope, {}, m, d + 0, sequence[0]);
      }
    case _ =>
  }

  /** A rule scoped to some members is the rule for everybody on each of them alone. So naming `[m]` binds `m`
      and nobody else, and naming two memberships, or two staff groups, binds each of them. */
  lemma ScopedMembersAreBound(p: Problem, scope: Scope, kind: Kind, x: set<Cell>)
    requires Resolved(p) && OnGrid(p, x) && Modellable(p, Hard("", scope, kind)) && ByMember(kind)
    ensures Modellable(p, Hard("", ForAll(scope), kind))
    ensures Accepts(p, scope, kind, x)
       <==> forall m :: NamesMember(p, scope, m) ==> Accepts(p, ForAll(scope), kind, MembersPart(x, m))
  {
    ScopeIsItsMembers(p, scope, kind, x);
    MemberByMember(p, ForAll(scope), kind, NamedPart(p, scope, x));
    NothingIsAccepted(p, ForAll(scope), kind);
    hide Accepts, NamesMember;
    forall m
      ensures MembersPart(NamedPart(p, scope, x), m) == if NamesMember(p, scope, m) then MembersPart(x, m) else {}
    {
    }
  }

  /** On schedules that agree on the members named, the verdict is the same. */
  lemma OthersDoNotMatter(p: Problem, scope: Scope, kind: Kind, x: set<Cell>, y: set<Cell>)
    requires Resolved(p) && Modellable(p, Hard("", scope, kind)) && LooksAtScope(kind)
    requires forall c: Cell :: NamesMember(p, scope, c.m) ==> (c in x <==> c in y)
    ensures Accepts(p, scope, kind, x) <==> Accepts(p, scope, kind, y)
  {
    ScopeIsItsMembers(p, scope, kind, x);
    ScopeIsItsMembers(p, scope, kind, y);
    assert NamedPart(p, scope, x) == NamedPart(p, scope, y);
  }

  // ---------------------------------------------------------------- shift types and dates

  /** The kinds that name no shift type themselves and count no coverage. */
  predicate AnyShift(kind: Kind) {
    Bars(kind) || kind.WeekdayFteLimit? || kind.MaxConsecutive? || kind.MaxAssignmentsInWindow?
    || kind.MinimumRestBetween? || kind.CallSpacing?
  }

  /** For these a list of shift types leaves the assignments of those types. */
  lemma ScopeIsItsCodes(p: Problem, scope: Scope, kind: Kind, x: set<Cell>)
    requires Resolved(p) && Modellable(p, Hard("", scope, kind)) && AnyShift(kind)
    ensures Modellable(p, Hard("", AnyCode(scope), kind))
    ensures Accepts(p, scope, kind, x) <==> Accepts(p, AnyCode(scope), kind, CodesPart(p, scope, x))
  {
    var y := CodesPart(p, scope, x);
    CodesCounts(p, scope, x);
    CodesWindows(p, scope);
    if kind.MaxConsecutive? {
      RunsOfCodes(p, scope, kind.maxDays, x);
    } else {
      CodesTogether(p, scope, x);
      forall c { AdmitsByField(p, scope, c); }
      hide Admits, NamesCode, Between, OnWeekday, Together, InWindow, WeekdayDates, TooClose, RestPair, OnCall, HoldsOn,
        FteLimit;
    }
  }

  lemma CodesCounts(p: Problem, scope: Scope, x: set<Cell>)
    ensures forall m, lo, hi ::
              Between(p, scope, x, m, lo, hi) == Between(p, AnyCode(scope), CodesPart(p, scope, x), m, lo, hi)
    ensures forall m, w :: OnWeekday(p, scope, x, m, w) == OnWeekday(p, AnyCode(scope), CodesPart(p, scope, x), m, w)
  {
    forall c { AdmitsByField(p, scope, c); }
    hide Admits, NamesCode;
  }

  lemma CodesTogether(p: Problem, scope: Scope, x: set<Cell>)
    ensures forall a, b :: Together(p, scope, x, a, b) <==> Together(p, AnyCode(scope), CodesPart(p, scope, x), a, b)
  {
    forall c { AdmitsByField(p, scope, c); }
    hide Admits, NamesCode;
  }

  lemma RunsOfCodes(p: Problem, scope: Scope, k: nat, x: set<Cell>)
    ensures forall m :: NoLongRun(p, scope, x, m, k) <==> NoLongRun(p, AnyCode(scope), CodesPart(p, scope, x), m, k)
  {
    var y := CodesPart(p, scope, x);
    CodesWindows(p, scope);
    forall c { AdmitsByField(p, scope, c); }
    hide Admits, NamesCode, InWindow;
    forall m, d ensures WorksOn(p, scope, x, m, d) <==> WorksOn(p, AnyCode(scope), y, m, d) {
    }
    hide WorksOn;
    forall m, lo, hi
      ensures WorksThrough(p, scope, x, m, lo, hi) <==> WorksThrough(p, AnyCode(scope), y, m, lo, hi)
    {
    }
    hide WorksThrough;
  }

  lemma CodesWindows(p: Problem, scope: Scope)
    ensures forall d :: InWindow(p, scope, d) <==> InWindow(p, AnyCode(scope), d)
    ensures forall w :: WeekdayDates(p, scope, w) == WeekdayDates(p, AnyCode(scope), w)
  {
  }

  /** A coverage rule on a list of shift types is the rule on each of them. */
  lemma CoverageCodeByCode(p: Problem, scope: Scope, kind: Kind, x: set<Cell>)
    requires Resolved(p) && Modellable(p, Hard("", scope, kind)) && scope.codes != []
    requires kind.RequiredCount? || kind.MinCoverage? || kind.MaxCoverage?
    ensures forall i :: 0 <= i < |scope.codes| ==> Modellable(p, Hard("", scope.(codes := [scope.codes[i]]), kind))
    ensures Accepts(p, scope, kind, x)
       <==> forall i :: 0 <= i < |scope.codes| ==> Accepts(p, scope.(codes := [scope.codes[i]]), kind, x)
  {
    var cmp := if kind.RequiredCount? then Eq else if kind.MinCoverage? then Ge else Le;
    var bound := if kind.RequiredCount? then kind.count else if kind.MinCoverage? then kind.min else kind.max;
    forall i | 0 <= i < |scope.codes|
      ensures Coverage(p, scope.(codes := [scope.codes[i]]), x, cmp, bound)
         <==> forall d :: InWindow(p, scope, d) ==> CoverageCell(p, scope, x, cmp, bound, d, scope.codes[i])
    {
      OneCodeCovered(p, scope, x, cmp, bound, scope.codes[i]);
    }
    hide OnDateShift, InWindow;
  }

  lemma OneCodeCovered(p: Problem, scope: Scope, x: set<Cell>, cmp: Cmp, bound: int, code: Code)
    requires Resolved(p) && code in scope.codes && code in p.idOfCode
    ensures Coverage(p, scope.(codes := [code]), x, cmp, bound)
       <==> forall d :: InWindow(p, scope, d) ==> CoverageCell(p, scope, x, cmp, bound, d, code)
  {
    var one := scope.(codes := [code]);
    forall d ensures OnDateShift(p, one, x, d, p.idOfCode[code]) == OnDateShift(p, scope, x, d, p.idOfCode[code]) {
    }
    assert forall d :: InWindow(p, one, d) <==> InWindow(p, scope, d);
    assert forall other :: CoverageCode(p, one, other) <==> other == code;
    hide OnDateShift, InWindow, CoverageCode;
  }

  /** For rules on single assignments and on pairs of them a range leaves the assignments on its dates. */
  lemma ScopeIsItsDates(p: Problem, scope: Scope, kind: Kind, x: set<Cell>)
    requires Resolved(p) && Modellable(p, Hard("", scope, kind))
    requires Bars(kind) || kind.MinimumRestBetween? || kind.CallSpacing?
    ensures Modellable(p, Hard("", AnyDate(scope), kind))
    ensures Accepts(p, scope, kind, x) <==> Accepts(p, AnyDate(scope), kind, DatesPart(scope, x))
  {
    var y := DatesPart(scope, x);
    forall c { AdmitsByField(p, scope, c); }
    assert forall a, b :: Together(p, scope, x, a, b) <==> Together(p, AnyDate(scope), y, a, b);
    hide Admits, NamesDate, Together, TooClose, RestPair, OnCall, HoldsOn;
  }

  // ---------------------------------------------------------------- in the built model

  /** So a HARD rule scoped to some members adds to the model what the rule for everybody asks of each of
      them alone, and nothing of the others. */
  lemma ScopedRuleInTheModel(p: Problem, rules: seq<Rule>, posted: seq<Posted>, reify: bool, lits: set<Key>,
                             x: set<Cell>,
                             at: nat)
    requires Resolved(p) && AllModellable(p, rules) && OnGrid(p, x)
    requires Extendable(p, posted, lits, x) <==> MetBy(p, rules, reify, lits, x)
    requires at < |rules| && rules[at].Hard? && ByMember(rules[at].kind)
    ensures Modellable(p, Hard("", ForAll(rules[at].scope), rules[at].kind))
    ensures AllModellable(p, rules[..at] + rules[at + 1..])
    ensures Extendable(p, posted, lits, x)
       <==> MetBy(p, rules[..at] + rules[at + 1..], reify, lits, x)
            && (On(reify, rules[at].key, lits) ==> forall m :: NamesMember(p, rules[at].scope, m) ==>
                 Accepts(p, ForAll(rules[at].scope), rules[at].kind, MembersPart(x, m)))
  {
    ScopedMembersAreBound(p, rules[at].scope, rules[at].kind, x);
    OneRuleApart(p, rules, reify, lits, x, at);
    hide Accepts, MetBy, Extendable, NamesMember;
  }

  lemma OneRuleApart(p: Problem, rules: seq<Rule>, reify: bool, lits: set<Key>, x: set<Cell>, at: nat)
    requires Resolved(p) && AllModellable(p, rules) && at < |rules|
    ensures AllModellable(p, rules[..at] + rules[at + 1..])
    ensures MetBy(p, rules, reify, lits, x)
       <==> MetBy(p, rules[..at] + rules[at + 1..], reify, lits, x) && RuleMet(p, rules[at], reify, lits, x)
  {
    var rest := rules[..at] + rules[at + 1..];
    forall i | 0 <= i < |rest| ensures rest[i] == if i < at then rules[i] else rules[i + 1] {
    }
    hide RuleMet, Modellable;
    if MetBy(p, rest, reify, lits, x) && RuleMet(p, rules[at], reify, lits, x) {
      forall i | 0 <= i < |rules| ensures RuleMet(p, rules[i], reify, lits, x) {
        if i < at { assert RuleMet(p, rest[i], reify, lits, x); }
        if i > at { assert RuleMet(p, rest[i - 1], reify, lits, x); }
      }
    }
  }

  /** Two members, one of whom is wanted for the only shift. */
  function EitherOfTwo(): Problem {
    Problem(0, 0, [1], map[1 := "D"], map["D" := 1], map[1 := false], map[1 := Times(480, 960, false)], map[],
            [1, 2], {(1, 1), (2, 1)}, map[(0, 1) := 1], map[], map[], map[], map[], map[], {}, [])
  }

  lemma EitherWillDo(m: Id)
    requires m == 1 || m == 2
    ensures Resolved(EitherOfTwo()) && OnGrid(EitherOfTwo(), {Cell(m, 0, 1)})
    ensures MetBy(EitherOfTwo(), [], false, {}, {Cell(m, 0, 1)})
  {
    var p, x := EitherOfTwo(), {Cell(m, 0, 1)};
    assert 1 in p.members && 2 in p.members && 1 in p.shiftIds;
    assert Staffing(p, x, 0, 1) == x;
    assert IsCell(p, Cell(1, 0, 1)) && SlotMet(p, x, 0, 1);
  }

  function OffTheDate(m: Id): seq<Rule> {
    [Hard("k", Scope(None, [], [m], []), AvoidDate(0))]
  }

  /** A rule that keeps one member off a date leaves the shift to the other. */
  method AvoidedByOne(m: Id) returns (b: Built)
    requires m == 1 || m == 2
    ensures fresh(b)
    ensures !Extendable(EitherOfTwo(), b.posted, {}, {Cell(m, 0, 1)})
    ensures Extendable(EitherOfTwo(), b.posted, {}, {Cell(3 - m, 0, 1)})
  {
    hide *;
    EitherWillDo(m);
    EitherWillDo(3 - m);
    OffTheDateIsModellable(m);
    b := Build(EitherOfTwo(), OffTheDate(m), false);
    OnlyTheOtherWorks(m, m, b.posted);
    OnlyTheOtherWorks(m, 3 - m, b.posted);
  }

  lemma OffTheDateIsModellable(m: Id)
    ensures AllModellable(EitherOfTwo(), OffTheDate(m))
  {
  }

  lemma OnlyTheOtherWorks(m: Id, worker: Id, posted: seq<Posted>)
    requires (m == 1 || m == 2) && (worker == 1 || worker == 2)
    requires Resolved(EitherOfTwo()) && AllModellable(EitherOfTwo(), OffTheDate(m))
    requires Extendable(EitherOfTwo(), posted, {}, {Cell(worker, 0, 1)})
        <==> MetBy(EitherOfTwo(), OffTheDate(m), false, {}, {Cell(worker, 0, 1)})
    ensures Extendable(EitherOfTwo(), posted, {}, {Cell(worker, 0, 1)}) <==> worker != m
  {
    EitherWillDo(worker);
    ScopedRuleInTheModel(EitherOfTwo(), OffTheDate(m), posted, false, {}, {Cell(worker, 0, 1)}, 0);
    assert OffTheDate(m)[..0] + OffTheDate(m)[1..] == [];
    AvoidedParts(m);
    hide MetBy, Extendable, EitherOfTwo, Accepts, AllModellable, Resolved, OnGrid, Modellable, MembersPart;
    forall n | n == m ensures NamesMember(EitherOfTwo(), Scope(None, [], [m], []), n) {
    }
  }

  lemma AvoidedParts(m: Id)
    requires m == 1 || m == 2
    ensures var p, scope := EitherOfTwo(), Scope(None, [], [m], []);
            Resolved(p) && (forall n :: NamesMember(p, scope, n) <==> n == m)
            && !Accepts(p, ForAll(scope), AvoidDate(0), MembersPart({Cell(m, 0, 1)}, m))
            && Accepts(p, ForAll(scope), AvoidDate(0), MembersPart({Cell(3 - m, 0, 1)}, m))
  {
    assert Cell(m, 0, 1) in MembersPart({Cell(m, 0, 1)}, m);
    assert Admits(EitherOfTwo(), ForAll(Scope(None, [], [m], [])), Cell(m, 0, 1));
    assert Scope(None, [], [m], []).memberships[0] == m;
  }
}
