/** The tenant-scoped unit of work: one transaction on one client, savepoints for nested units, and the
    decision to return the client to the pool or to discard it. A callback is a tree of what it does;
    rows are integers. */
module UnitOfWork {
  import opened Wrappers

  // ---------------------------------------------------------------- callbacks and what they mean

  datatype Context = Context(organization: string, group: Option<string>, membership: string, correlation: string)

  datatype Op =
    | Write(row: int)
    | FailingStatement
    | Throw
    | Nested(ctx: Context, body: seq<Op>)
    | Catch(attempt: seq<Op>)

  predicate SameTenant(a: Context, b: Context) {
    a.organization == b.organization && a.group == b.group
  }

  /** The rows written so far in the transaction, whether a failed statement has stopped it, and whether
      the callback returned or threw. */
  datatype Effect = Effect(rows: seq<int>, aborted: bool, returned: bool)

  /** The recursive meaning: a nested unit that fails vanishes, one that finishes merges; a failed
      statement stops the innermost unit until that unit is rolled back. */
  function Meaning(ops: seq<Op>, ctx: Context, rows: seq<int>, aborted: bool): Effect
    decreases ops, 1
  {
    if ops == [] then Effect(rows, aborted, true)
    else
      var e := MeaningOf(ops[0], ctx, rows, aborted);
      if e.returned then Meaning(ops[1..], ctx, e.rows, e.aborted) else e
  }

  function MeaningOf(op: Op, ctx: Context, rows: seq<int>, aborted: bool): Effect
    decreases op, 0
  {
    match op
    case Write(row) => if aborted then Effect(rows, true, false) else Effect(rows + [row], false, true)
    case FailingStatement => Effect(rows, true, false)
    case Throw => Effect(rows, aborted, false)
    case Catch(attempt) =>
      var e := Meaning(attempt, ctx, rows, aborted);
      Effect(e.rows, e.aborted, true)
    case Nested(inner, body) =>
      if !SameTenant(ctx, inner) || aborted then Effect(rows, aborted, false)
      else
        var e := Meaning(body, ctx, rows, false);
        if e.returned && !e.aborted then e else Effect(rows, false, false)
  }

  // ---------------------------------------------------------------- the client

  datatype Save = Save(name: nat, rows: seq<int>)

  datatype Setting = Organization | Group | Membership | Correlation

  const SETTINGS := [Organization, Group, Membership, Correlation]

  function Expected(ctx: Context, s: Setting): string {
    match s
    case Organization => ctx.organization
    case Group => if ctx.group.None? then "" else ctx.group.value
    case Membership => ctx.membership
    case Correlation => ctx.correlation
  }

  datatype Statement =
    | Begin
    | SetConfig(setting: Setting, value: string)
    | ReadBack
    | Row(row: int)
    | Faulty
    | Savepoint(name: nat)
    | Release(name: nat)
    | RollbackTo(name: nat)
    | Commit
    | Rollback

  /** A backend session. `stored` is what it has committed; local settings end with the transaction. */
  datatype Session = Session(
    open: bool,
    aborted: bool,
    gone: bool,
    rows: seq<int>,
    saves: seq<Save>,
    settings: map<Setting, string>,
    stored: seq<int>)

  /** The innermost savepoint of that name. */
  function IndexOf(saves: seq<Save>, name: nat): (i: int)
    ensures -1 <= i < |saves|
    ensures i >= 0 ==> saves[i].name == name
    ensures i < 0 ==> forall k :: 0 <= k < |saves| ==> saves[k].name != name
  {
    if saves == [] then -1
    else if saves[|saves| - 1].name == name then |saves| - 1
    else IndexOf(saves[..|saves| - 1], name)
  }

  predicate Accepted(s: Session, stmt: Statement) {
    match stmt
    case Begin => !s.open
    case Row(_) => s.open && !s.aborted
    case Faulty => false
    case SetConfig(_, _) => s.open && !s.aborted
    case ReadBack => s.open && !s.aborted
    case Savepoint(_) => s.open && !s.aborted
    case Release(name) => s.open && !s.aborted && IndexOf(s.saves, name) >= 0
    case RollbackTo(name) => s.open && IndexOf(s.saves, name) >= 0
    case Commit => true
    case Rollback => true
  }

  function Closed(s: Session, stored: seq<int>): Session {
    s.(open := false, aborted := false, rows := [], saves := [], settings := map k | k in s.settings ::
      "", stored := stored)
  }

  /** What the server does with a statement that reaches it. A refused one stops an open transaction; the
      COMMIT of a stopped transaction rolls it back, and is no error. */
  function Served(s: Session, stmt: Statement): Session {
    if !Accepted(s, stmt) then (if s.open then s.(aborted := true) else s)
    else
      match stmt
      case Begin => s.(open := true, aborted := false, rows := [], saves := [])
      case Row(row) => s.(rows := s.rows + [row])
      case SetConfig(setting, value) => s.(settings := s.settings[setting := value])
      case Savepoint(name) => s.(saves := s.saves + [Save(name, s.rows)])
      case Release(name) => s.(saves := s.saves[..IndexOf(s.saves, name)])
      case RollbackTo(name) =>
        var i := IndexOf(s.saves, name);
        s.(aborted := false, rows := s.saves[i].rows, saves := s.saves[..i + 1])
      case Commit => Closed(s, if s.open && !s.aborted then s.stored + s.rows else s.stored)
      case Rollback => Closed(s, s.stored)
      case _ => s
  }

  /** Outside a transaction only its begin and end are accepted; in a stopped one only what rolls back, and the
      COMMIT that does; and a refused statement stores nothing and stops an open transaction. */
  lemma ServerRules(s: Session, stmt: Statement)
    ensures !s.open && Accepted(s, stmt) ==> stmt == Begin || stmt == Commit || stmt == Rollback
    ensures s.open && s.aborted && Accepted(s, stmt) ==> stmt.RollbackTo? || stmt == Commit || stmt == Rollback
    ensures s.open && Accepted(s, stmt) ==> stmt != Begin && !stmt.Faulty?
    ensures !Accepted(s, stmt) ==>
              Served(s, stmt).stored == s.stored && Served(s, stmt).rows == s.rows
              && Served(s, stmt).aborted == (s.open || s.aborted)
    ensures Served(s, stmt).stored != s.stored ==> stmt == Commit && s.open && !s.aborted
  {
  }

  /** The client no longer reaches the session. Of what it was last sent only a COMMIT can have left a
      trace, in what is stored. */
  function Lost(s: Session, stored: seq<int>): Session {
    s.(gone := true, stored := stored)
  }

  /** Savepoint names grow along the stack. */
  ghost predicate Stacked(saves: seq<Save>, counter: nat) {
    (forall i, j :: 0 <= i < j < |saves| ==> saves[i].name < saves[j].name)
    && forall i :: 0 <= i < |saves| ==> saves[i].name <= counter
  }

  lemma IndexOfIsUnique(saves: seq<Save>, counter: nat, i: nat)
    requires Stacked(saves, counter) && i < |saves|
    ensures IndexOf(saves, saves[i].name) == i
  {
  }

  class Client {
    /** The backend is gone from this statement on, */
    const diesAt: Option<nat>
    /** which the server may still have carried out before its answer was lost. */
    const carriesOut: bool
    var session: Session
    var statements: nat
    var savepointCounter: nat

    constructor (stored: seq<int>, diesAt: Option<nat>, carriesOut: bool)
      ensures this.diesAt == diesAt && this.carriesOut == carriesOut && statements == 0
      ensures session == Session(false, false, false, [], [], map[], stored) && Sound()
    {
      this.diesAt, this.carriesOut := diesAt, carriesOut;
      session := Session(false, false, false, [], [], map[], stored);
      statements, savepointCounter := 0, 0;
    }

    ghost predicate Sound()
      reads this
    {
      Stacked(session.saves, savepointCounter)
    }

    /** Send one statement; false is an error. */
    method Query(stmt: Statement) returns (ok: bool)
      modifies this`session, this`statements
      ensures statements == old(statements) + 1
      ensures old(session.gone) ==> session == old(session) && !ok
      ensures session.gone ==> session == Lost(old(session), session.stored) && !ok
      ensures session.gone && session.stored != old(session.stored) ==>
                carriesOut && stmt == Commit && session.stored == Served(old(session), Commit).stored
      ensures !session.gone ==> session == Served(old(session), stmt) && ok == Accepted(old(session), stmt)
      ensures session.gone <==> old(session.gone) || (diesAt.Some? && statements >= diesAt.value)
    {
      statements := statements + 1;
      if session.gone || (diesAt.Some? && statements >= diesAt.value) {
        var kept := if carriesOut && !session.gone
          && stmt == Commit then Served(session, Commit).stored else session.stored;
        session := Lost(session, kept);
        return false;
      }
      ok := Accepted(session, stmt);
      session := Served(session, stmt);
    }

    /** One operation of a callback running in an open unit of tenant `ctx`. */
    method RunOp(op: Op, ctx: Context) returns (returned: bool)
      requires Sound() && session.open
      modifies this`session, this`statements, this`savepointCounter
      ensures Sound() && session.open && session.stored == old(session.stored)
      ensures old(session.gone) ==> session.gone
      ensures !session.gone ==>
                Refines(old(session), session, MeaningOf(op, ctx, old(session.rows), old(session.aborted)), returned)
      ensures statements >= old(statements)
      decreases op, 0
    {
      match op
      case Write(row) => returned := Query(Row(row));
      case FailingStatement => returned := Query(Faulty);
      case Throw => returned := false;
      case Catch(attempt) =>
        var swallowed := RunAll(attempt, ctx);
        returned := true;
      case Nested(inner, body) => returned := WithNestedUnitOfWork(inner, body, ctx);
    }

    method RunAll(ops: seq<Op>, ctx: Context) returns (returned: bool)
      requires Sound() && session.open
      modifies this`session, this`statements, this`savepointCounter
      ensures Sound() && session.open && session.stored == old(session.stored)
      ensures old(session.gone) ==> session.gone
      ensures !session.gone ==>
                Refines(old(session), session, Meaning(ops, ctx, old(session.rows), old(session.aborted)), returned)
      ensures statements >= old(statements)
      decreases ops, 1
    {
      if ops == [] {
        return true;
      }
      returned := RunOp(ops[0], ctx);
      if returned {
        returned := RunAll(ops[1..], ctx);
      }
    }

    /** Refused before any statement when the organization or the group differs; otherwise a savepoint around
        the body. A nested unit that returned ran under settings of its own organization and group, if the
        enclosing unit did. */
    method WithNestedUnitOfWork(inner: Context, body: seq<Op>, ctx: Context) returns (returned: bool)
      requires Sound() && session.open
      modifies this`session, this`statements, this`savepointCounter
      ensures Sound() && session.open && session.stored == old(session.stored)
      ensures old(session.gone) ==> session.gone
      ensures inner.organization != ctx.organization || inner.group != ctx.group ==>
                !returned && session == old(session) && statements == old(statements)
                && savepointCounter == old(savepointCounter)
      ensures inner.organization == ctx.organization && inner.group == ctx.group ==> statements > old(statements)
      ensures returned ==> !session.gone && session.settings == old(session.settings)
      ensures returned && RunsAs(old(session.settings), ctx.organization, ctx.group) ==>
                RunsAs(session.settings, inner.organization, inner.group)
      ensures !session.gone ==>
                Refines(old(session), session,
                  MeaningOf(Nested(inner, body), ctx, old(session.rows), old(session.aborted)), returned)
      decreases body, 2
    {
      if inner.organization != ctx.organization || inner.group != ctx.group {
        return false;
      }
      savepointCounter := savepointCounter + 1;
      var name := savepointCounter;
      ghost var depth := |session.saves|;
      var ok := Query(Savepoint(name));
      if !ok {
        return false;
      }
      ghost var begun := session;
      returned := RunAll(body, ctx);
      if !session.gone {
        assert session.saves[depth] == Save(name, begun.rows);
        IndexOfIsUnique(session.saves, savepointCounter, depth);
      }
      returned := CloseNested(name, returned);
    }

    /** RELEASE after a body that returned; ROLLBACK TO after one that threw, or when RELEASE fails. */
    method CloseNested(name: nat, finished: bool) returns (returned: bool)
      requires Sound() && session.open
      requires !session.gone ==> IndexOf(session.saves, name) >= 0
      modifies this`session, this`statements
      ensures Sound() && session.open && session.stored == old(session.stored)
      ensures old(session.gone) ==> session.gone
      ensures !session.gone ==>
                returned == (finished && !old(session.aborted)) && session.settings == old(session.settings)
      ensures !session.gone && returned ==>
                session.rows == old(session.rows) && !session.aborted
                && session.saves == old(session.saves)[..IndexOf(old(session.saves), name)]
      ensures !session.gone && !returned ==>
                session.rows == old(session.saves)[IndexOf(old(session.saves), name)].rows && !session.aborted
                && session.saves == old(session.saves)[..IndexOf(old(session.saves), name) + 1]
      ensures returned ==> !session.gone && !old(session.gone)
      ensures statements > old(statements)
    {
      if finished {
        var ok := Query(Release(name));
        if ok {
          return true;
        }
      }
      var undone := Query(RollbackTo(name));
      return false;
    }

    /** Set the transaction-local context; the simulated pooler may lose some of it. */
    method SetContext(ctx: Context, mode: PoolerMode) returns (ok: bool)
      requires Sound() && session.open && !session.aborted && !session.gone
      modifies this`session, this`statements
      ensures Sound() && session.open && session.stored == old(session.stored)
      ensures ok == !session.gone
      ensures ok ==> session == old(session).(settings := session.settings)
      ensures ok ==> forall s :: Lookup(session.settings, s) == Seen(ctx, mode, old(session.settings), s)
      ensures ok && mode == TransactionAffinity ==> ShowsContext(session.settings, ctx)
    {
      assert SETTINGS[..0] == [];
      for i := 0 to |SETTINGS|
        invariant Sound() && session == old(session).(settings := session.settings)
        invariant SeenUpTo(session.settings, ctx, mode, old(session.settings), SETTINGS[..i])
      {
        assert SETTINGS[..i + 1] == SETTINGS[..i] + [SETTINGS[i]];
        if !Kept(mode, SETTINGS[i]) { continue; }
        ok := Query(SetConfig(SETTINGS[i], Expected(ctx, SETTINGS[i])));
        if !ok {
          return;
        }
      }
      assert SETTINGS[..|SETTINGS|] == SETTINGS;
      forall s ensures s in SETTINGS { EverySetting(s); }
      SeenIsShown(session.settings, ctx, mode, old(session.settings));
      ok := true;
    }

    /** One unit of work on a client from the pool: what the caller sees, whether the client is discarded,
        and whether somebody is paged. */
    method WithUnitOfWork(ctx: Context, mode: PoolerMode, ops: seq<Op>)
        returns (returned: bool, poisoned: bool, paged: bool)
      requires Sound() && !session.open && !session.gone
      modifies this`session, this`statements, this`savepointCounter
      ensures Sound()
      ensures !poisoned ==> !session.open && !session.gone && Cleared(session.settings)
      ensures poisoned <==> session.gone || !ReadsBackAs(ctx, mode, old(session.settings))
      ensures paged ==> poisoned && !ReadsBackAs(ctx, mode, old(session.settings))
      ensures returned ==> !poisoned && Returns(ops, ctx) && session.stored == Stored(old(session.stored), ops, ctx)
      ensures !returned && session.stored != old(session.stored) ==>
                carriesOut && session.gone && Returns(ops, ctx)
                  && session.stored == Stored(old(session.stored), ops, ctx)
      ensures !session.gone ==> (returned <==> ReadsBackAs(ctx, mode, old(session.settings)) && Returns(ops, ctx))
      ensures !session.gone ==> (paged <==> !ReadsBackAs(ctx, mode, old(session.settings)))
    {
      hide Meaning, Returns, Stored;
      poisoned, paged := false, false;
      var begun := Query(Begin);
      var contextSent := false;
      if begun { contextSent := SetContext(ctx, mode); }
      var read := false;
      if contextSent { read := Query(ReadBack); }
      if read {
        if !MatchesContext(session.settings, ctx) {
          var undone := Query(Rollback);
          return false, true, true;
        }
        returned := RunAndCommit(ops, ctx);
        if returned { return; }
      }
      var rolledBack := Query(Rollback);
      poisoned := !rolledBack;
      returned := false;
    }

    /** The callback in the opened unit, and COMMIT where it returns. */
    method RunAndCommit(ops: seq<Op>, ctx: Context) returns (returned: bool)
      requires Sound() && session.open && !session.aborted && !session.gone && session.rows == []
      modifies this`session, this`statements, this`savepointCounter
      ensures Sound()
      ensures !session.gone ==> returned == Returns(ops, ctx) && session.open == !returned
      ensures returned ==> Cleared(session.settings)
      ensures returned ==> !session.gone && session.stored == Stored(old(session.stored), ops, ctx)
      ensures !returned && session.stored != old(session.stored) ==>
                carriesOut && session.gone && Returns(ops, ctx)
                  && session.stored == Stored(old(session.stored), ops, ctx)
    {
      MeaningReadOff(ops, ctx, []);
      hide Returns, Meaning, Hits, Wrote;
      returned := RunAll(ops, ctx);
      if returned { returned := Query(Commit); }
    }
  }

  /** How the simulated pooler loses context: not at all, all of it, or the group alone. */
  datatype PoolerMode = TransactionAffinity | DropsSetLocal | DropsGroupId

  predicate Kept(mode: PoolerMode, s: Setting) {
    mode == TransactionAffinity || (mode == DropsGroupId && s != Group)
  }

  function Lookup(settings: map<Setting, string>, s: Setting): Option<string> {
    if s in settings then Some(settings[s]) else None
  }

  /** What the backend has for a setting once the context was sent. */
  function Seen(ctx: Context, mode: PoolerMode, before: map<Setting, string>, s: Setting): Option<string> {
    if Kept(mode, s) then Some(Expected(ctx, s)) else Lookup(before, s)
  }

  ghost predicate SeenUpTo(settings: map<Setting, string>, ctx: Context, mode: PoolerMode, before: map<Setting, string>,
                           sent: seq<Setting>) {
    forall s :: Lookup(settings, s) == if s in sent then Seen(ctx, mode, before, s) else Lookup(before, s)
  }

  lemma EverySetting(s: Setting)
    ensures s in SETTINGS
  {
  }

  /** The settings name this organization and this group; no group is the empty one. */
  predicate RunsAs(settings: map<Setting, string>, organization: string, group: Option<string>) {
    && Organization in settings && settings[Organization] == organization
    && Group in settings && settings[Group] == (if group.None? then "" else group.value)
  }

  /** The settings are those of the context, all four. */
  predicate ShowsContext(settings: map<Setting, string>, ctx: Context) {
    && RunsAs(settings, ctx.organization, ctx.group)
    && Membership in settings && settings[Membership] == ctx.membership
    && Correlation in settings && settings[Correlation] == ctx.correlation
  }

  /** No transaction has left anything in the settings. */
  predicate Cleared(settings: map<Setting, string>) {
    forall s :: s in settings ==> settings[s] == ""
  }

  predicate MatchesContext(settings: map<Setting, string>, ctx: Context) {
    Lookup(settings, Organization) == Some(Expected(ctx, Organization))
      && Lookup(settings, Group) == Some(Expected(ctx, Group))
    && Lookup(settings, Membership) == Some(Expected(ctx, Membership))
    && Lookup(settings, Correlation) == Some(Expected(ctx, Correlation))
  }

  /** The read-back finds every setting as it was sent. */
  ghost predicate ReadsBackAs(ctx: Context, mode: PoolerMode, before: map<Setting, string>) {
    forall s :: Seen(ctx, mode, before, s) == Some(Expected(ctx, s))
  }

  lemma SeenIsShown(settings: map<Setting, string>, ctx: Context, mode: PoolerMode, before: map<Setting, string>)
    requires forall s :: Lookup(settings, s) == Seen(ctx, mode, before, s)
    ensures mode == TransactionAffinity ==> ShowsContext(settings, ctx)
  {
    assert Lookup(settings, Organization) == Seen(ctx, mode, before, Organization);
    assert Lookup(settings, Group) == Seen(ctx, mode, before, Group);
    assert Lookup(settings, Membership) == Seen(ctx, mode, before, Membership);
    assert Lookup(settings, Correlation) == Seen(ctx, mode, before, Correlation);
  }

  /** When the read-back succeeds: always if nothing is lost, and else if what is lost was there before. */
  lemma ReadsBackIff(ctx: Context, mode: PoolerMode, before: map<Setting, string>)
    ensures ReadsBackAs(ctx, TransactionAffinity, before)
    ensures ReadsBackAs(ctx, DropsSetLocal, before) <==> ShowsContext(before, ctx)
    ensures ReadsBackAs(ctx, DropsGroupId, before) <==>
              Group in before && before[Group] == if ctx.group.None? then "" else ctx.group.value
    ensures MatchesContext(before, ctx) <==> ShowsContext(before, ctx)
  {
    hide ReadsBackAs;
    ReadsBackAtEach(ctx, TransactionAffinity, before);
    ReadsBackAtEach(ctx, DropsSetLocal, before);
    ReadsBackAtEach(ctx, DropsGroupId, before);
  }

  lemma ReadsBackAtEach(ctx: Context, mode: PoolerMode, before: map<Setting, string>)
    ensures ReadsBackAs(ctx, mode, before) <==>
              Seen(ctx, mode, before, Organization) == Some(ctx.organization)
              && Seen(ctx, mode, before, Group) == Some(if ctx.group.None? then "" else ctx.group.value)
              && Seen(ctx, mode, before, Membership) == Some(ctx.membership)
              && Seen(ctx, mode, before, Correlation) == Some(ctx.correlation)
  {
    assert Expected(ctx, Organization) == ctx.organization;
    forall s { EverySetting(s); }
  }

  /** On a client that was cleared, a pooler that loses an organization or a group is found out. */
  lemma LossIsFoundOut(ctx: Context, mode: PoolerMode, before: map<Setting, string>)
    requires Cleared(before) && mode != TransactionAffinity
    requires ctx.group.Some? && ctx.group.value != ""
    ensures !ReadsBackAs(ctx, mode, before)
  {
    ReadsBackIff(ctx, mode, before);
    hide ReadsBackAs;
  }

  /** What a unit that returned has stored: nothing, if a failed statement was swallowed outside any
      nested unit. */
  function Stored(before: seq<int>, ops: seq<Op>, ctx: Context): seq<int> {
    if Meaning(ops, ctx, [], false).aborted then before else before + Meaning(ops, ctx, [], false).rows
  }

  /** The session has the rows, the stop and the outcome of the meaning, and the savepoints it started
      with are still there, below whatever failed nested units have left. */
  predicate Refines(before: Session, after: Session, e: Effect, returned: bool) {
    && after.rows == e.rows && after.aborted == e.aborted && returned == e.returned
    && before.saves <= after.saves
    && after.settings == before.settings
  }

  // ---------------------------------------------------------------- a failed block vanishes

  datatype Outcome = Outcome(rows: seq<int>, returned: bool)

  /** The meaning without stopped transactions: a block that fails vanishes, one that finishes merges into
      the block around it. */
  function Plain(ops: seq<Op>, ctx: Context, rows: seq<int>): Outcome
    decreases ops, 1
  {
    if ops == [] then Outcome(rows, true)
    else
      var o := PlainOf(ops[0], ctx, rows);
      if o.returned then Plain(ops[1..], ctx, o.rows) else o
  }

  function PlainOf(op: Op, ctx: Context, rows: seq<int>): Outcome
    decreases op, 0
  {
    match op
    case Write(row) => Outcome(rows + [row], true)
    case FailingStatement => Outcome(rows, false)
    case Throw => Outcome(rows, false)
    case Catch(attempt) => Outcome(Plain(attempt, ctx, rows).rows, true)
    case Nested(inner, body) =>
      var o := Plain(body, ctx, rows);
      if SameTenant(ctx, inner) && o.returned then o else Outcome(rows, false)
  }

  // ---------------------------------------------------------------- read off the callback

  /** A failing statement of this unit is reached, outside any nested unit. */
  predicate Hits(ops: seq<Op>, ctx: Context)
    decreases ops, 1
  {
    ops != [] && (HitsAt(ops[0], ctx) || (ReturnsAt(ops[0], ctx) && Hits(ops[1..], ctx)))
  }

  predicate HitsAt(op: Op, ctx: Context)
    decreases op, 0
  {
    op.FailingStatement? || (op.Catch? && Hits(op.attempt, ctx))
  }

  predicate OnlyCatches(ops: seq<Op>) {
    forall i :: 0 <= i < |ops| ==> ops[i].Catch?
  }

  /** The callback comes to its end. Behind a failing statement only what is caught can be passed. */
  predicate Returns(ops: seq<Op>, ctx: Context)
    decreases ops, 1
  {
    ops == []
      || (ReturnsAt(ops[0], ctx) && if HitsAt(ops[0], ctx) then OnlyCatches(ops[1..]) else Returns(ops[1..], ctx))
  }

  /** A nested unit is left in peace only if it ends without having been hit. */
  predicate ReturnsAt(op: Op, ctx: Context)
    decreases op, 0
  {
    match op
    case Write(_) => true
    case FailingStatement => false
    case Throw => false
    case Catch(_) => true
    case Nested(inner, body) => SameTenant(ctx, inner) && Returns(body, ctx) && !Hits(body, ctx)
  }

  /** The rows written up to the end, to the throw, or to the failing statement. */
  function Wrote(ops: seq<Op>, ctx: Context): seq<int>
    decreases ops, 1
  {
    if ops == [] then []
    else if HitsAt(ops[0], ctx) || !ReturnsAt(ops[0], ctx) then WroteAt(ops[0], ctx)
    else WroteAt(ops[0], ctx) + Wrote(ops[1..], ctx)
  }

  function WroteAt(op: Op, ctx: Context): seq<int>
    decreases op, 0
  {
    match op
    case Write(row) => [row]
    case Catch(attempt) => Wrote(attempt, ctx)
    case Nested(_, body) => if ReturnsAt(op, ctx) then Wrote(body, ctx) else []
    case _ => []
  }

  /** In a stopped transaction nothing more happens. */
  lemma {:induction false} StoppedStays(ops: seq<Op>, ctx: Context, rows: seq<int>)
    ensures Meaning(ops, ctx, rows, true) == Effect(rows, true, OnlyCatches(ops))
    decreases ops
  {
    if ops != [] {
      if ops[0].Catch? {
        StoppedStays(ops[0].attempt, ctx, rows);
        StoppedStays(ops[1..], ctx, rows);
        assert ops == [ops[0]] + ops[1..];
      }
    }
  }

  /** Rows, stop and outcome, read off the callback: the stop is exactly a hit. */
  lemma {:induction false} MeaningReadOff(ops: seq<Op>, ctx: Context, rows: seq<int>)
    ensures Meaning(ops, ctx, rows, false) == Effect(rows + Wrote(ops, ctx), Hits(ops, ctx), Returns(ops, ctx))
    decreases ops, 1
  {
    if ops == [] {
      assert rows + [] == rows;
    } else {
      MeaningOfReadOff(ops[0], ctx, rows);
      if ReturnsAt(ops[0], ctx) {
        var so := rows + WroteAt(ops[0], ctx);
        if HitsAt(ops[0], ctx) {
          StoppedStays(ops[1..], ctx, so);
        } else {
          MeaningReadOff(ops[1..], ctx, so);
          assert so + Wrote(ops[1..], ctx) == rows + (WroteAt(ops[0], ctx) + Wrote(ops[1..], ctx));
        }
      }
    }
  }

  lemma {:induction false} MeaningOfReadOff(op: Op, ctx: Context, rows: seq<int>)
    ensures MeaningOf(op, ctx, rows, false) == Effect(rows + WroteAt(op, ctx), HitsAt(op, ctx), ReturnsAt(op, ctx))
    decreases op, 0
  {
    assert rows + [] == rows;
    match op
    case Catch(attempt) => MeaningReadOff(attempt, ctx, rows);
    case Nested(_, body) => MeaningReadOff(body, ctx, rows);
    case _ =>
  }

  /** A unit that returned has stored what its callback wrote if and only if no failing statement was
      reached outside a nested unit, or nothing was written before it. */
  lemma StoredIff(before: seq<int>, ops: seq<Op>, ctx: Context)
    requires Returns(ops, ctx)
    ensures Meaning(ops, ctx, [], false).returned
    ensures Stored(before, ops, ctx) == before + Wrote(ops, ctx) <==> !Hits(ops, ctx) || Wrote(ops, ctx) == []
    ensures Hits(ops, ctx) ==> Stored(before, ops, ctx) == before
  {
    MeaningReadOff(ops, ctx, []);
    assert [] + Wrote(ops, ctx) == Wrote(ops, ctx);
    if Wrote(ops, ctx) != [] {
      assert |before + Wrote(ops, ctx)| > |before|;
    }
  }

  /** No unit, of those the callback reaches, swallows a failing statement of its own. */
  predicate SwallowsNone(ops: seq<Op>, ctx: Context)
    decreases ops, 1
  {
    ops == [] || (SwallowsNoneAt(ops[0], ctx) && (ReturnsAt(ops[0], ctx) ==> SwallowsNone(ops[1..], ctx)))
  }

  predicate SwallowsNoneAt(op: Op, ctx: Context)
    decreases op, 0
  {
    match op
    case Catch(attempt) => !Hits(attempt, ctx) && SwallowsNone(attempt, ctx)
    case Nested(inner, body) => SameTenant(ctx, inner) ==> SwallowsNone(body, ctx)
    case _ => true
  }

  /** A callback that catches nothing, in no unit of it. */
  predicate CatchesNothing(ops: seq<Op>)
    decreases ops
  {
    forall i :: 0 <= i < |ops| ==> !ops[i].Catch? && (ops[i].Nested? ==> CatchesNothing(ops[i].body))
  }

  /** One in which no statement fails. */
  predicate NothingFails(ops: seq<Op>)
    decreases ops
  {
    forall i :: 0 <= i < |ops| ==>
      !ops[i].FailingStatement? && (ops[i].Nested? ==> NothingFails(ops[i].body))
      && (ops[i].Catch? ==> NothingFails(ops[i].attempt))
  }

  lemma {:induction false} NothingIsHit(ops: seq<Op>, ctx: Context)
    requires NothingFails(ops)
    ensures !Hits(ops, ctx)
    decreases ops
  {
    if ops != [] {
      if ops[0].Catch? { NothingIsHit(ops[0].attempt, ctx); }
      NothingIsHit(ops[1..], ctx);
    }
  }

  /** Neither swallows a failure. */
  lemma {:induction false} NothingToSwallow(ops: seq<Op>, ctx: Context)
    requires CatchesNothing(ops) || NothingFails(ops)
    ensures SwallowsNone(ops, ctx)
    decreases ops
  {
    if ops != [] {
      match ops[0] {
        case Catch(attempt) =>
          NothingIsHit(attempt, ctx);
          NothingToSwallow(attempt, ctx);
        case Nested(_, body) => NothingToSwallow(body, ctx);
        case _ =>
      }
      NothingToSwallow(ops[1..], ctx);
    }
  }

  lemma {:induction false} HitIsThrown(ops: seq<Op>, ctx: Context)
    requires SwallowsNone(ops, ctx)
    ensures Hits(ops, ctx) ==> !Returns(ops, ctx)
    decreases ops
  {
    if ops != [] && ReturnsAt(ops[0], ctx) {
      HitIsThrown(ops[1..], ctx);
    }
  }

  ghost predicate Agrees(e: Effect, o: Outcome) {
    e.returned == o.returned && e.rows == o.rows && (e.returned ==> !e.aborted)
  }

  /** Without swallowed failures a failed block vanishes and a finished one merges, and only a unit that
      threw is stopped. */
  lemma {:induction false} MeaningIsPlain(ops: seq<Op>, ctx: Context, rows: seq<int>)
    requires SwallowsNone(ops, ctx)
    ensures Agrees(Meaning(ops, ctx, rows, false), Plain(ops, ctx, rows))
    decreases ops, 1
  {
    if ops != [] {
      OpIsPlain(ops[0], ctx, rows);
      MeaningOfReadOff(ops[0], ctx, rows);
      var e := MeaningOf(ops[0], ctx, rows, false);
      if e.returned { MeaningIsPlain(ops[1..], ctx, e.rows); }
    }
  }

  lemma {:induction false} OpIsPlain(op: Op, ctx: Context, rows: seq<int>)
    requires SwallowsNoneAt(op, ctx)
    ensures Agrees(MeaningOf(op, ctx, rows, false), PlainOf(op, ctx, rows))
    decreases op, 0
  {
    match op
    case Catch(attempt) =>
      MeaningIsPlain(attempt, ctx, rows);
      MeaningReadOff(attempt, ctx, rows);
    case Nested(inner, body) => if SameTenant(ctx, inner) { MeaningIsPlain(body, ctx, rows); }
    case _ =>
  }

  /** So a unit that returned has stored exactly what the plain meaning says. */
  lemma StoredIsPlain(before: seq<int>, ops: seq<Op>, ctx: Context)
    requires SwallowsNone(ops, ctx) && Returns(ops, ctx)
    ensures Stored(before, ops, ctx) == before + Plain(ops, ctx, []).rows
  {
    MeaningIsPlain(ops, ctx, []);
    MeaningReadOff(ops, ctx, []);
  }

  /** A nested call of another organization or another group changes nothing at all, in either meaning, and
      is never left in peace. */
  lemma RetenantingChangesNothing(inner: Context, body: seq<Op>, ctx: Context, rows: seq<int>, aborted: bool)
    requires inner.organization != ctx.organization || inner.group != ctx.group
    ensures MeaningOf(Nested(inner, body), ctx, rows, aborted) == Effect(rows, aborted, false)
    ensures MeaningOf(Catch([Nested(inner, body)]), ctx, rows, aborted) == Effect(rows, aborted, true)
    ensures PlainOf(Nested(inner, body), ctx, rows) == Outcome(rows, false)
    ensures !ReturnsAt(Nested(inner, body), ctx) && WroteAt(Nested(inner, body), ctx) == []
  {
  }

  /** One of the same organization and group is its body, whatever its membership and correlation. */
  lemma SameTenantRuns(inner: Context, body: seq<Op>, ctx: Context, rows: seq<int>)
    requires inner.organization == ctx.organization && inner.group == ctx.group
    ensures ReturnsAt(Nested(inner, body), ctx) <==> Returns(body, ctx) && !Hits(body, ctx)
    ensures ReturnsAt(Nested(inner, body), ctx) ==>
              MeaningOf(Nested(inner, body), ctx, rows, false) == Effect(rows + Wrote(body, ctx), false, true)
    ensures !ReturnsAt(Nested(inner, body), ctx) ==>
              MeaningOf(Nested(inner, body), ctx, rows, false) == Effect(rows, false, false)
  {
    MeaningReadOff(body, ctx, rows);
  }

  /** A callback that swallows a failed statement is told its unit succeeded while none of its rows is
      stored. */
  lemma SwallowedFailureLosesRows(ctx: Context, row: int, before: seq<int>)
    ensures var ops := [Write(row), Catch([FailingStatement])];
            Returns(ops, ctx) && Hits(ops, ctx) && Wrote(ops, ctx) == [row] && Plain(ops, ctx, []).rows == [row]
            && Stored(before, ops, ctx) == before
  {
    var ops := [Write(row), Catch([FailingStatement])];
    assert ops[1..] == [Catch([FailingStatement])] && ops[1..][1..] == [];
    assert Hits([FailingStatement], ctx) && Wrote([FailingStatement], ctx) == [];
    assert HitsAt(ops[1..][0], ctx) && WroteAt(ops[1..][0], ctx) == [] && OnlyCatches(ops[1..][1..]);
    assert Hits(ops[1..], ctx) && Wrote(ops[1..], ctx) == [] && Returns(ops[1..], ctx);
    assert ReturnsAt(ops[0], ctx) && !HitsAt(ops[0], ctx) && Wrote(ops, ctx) == [row] + [];
    assert Plain([FailingStatement], ctx, [row]) == Outcome([row], false);
    assert Plain(ops[1..], ctx, [row]) == Outcome([row], true);
    assert PlainOf(ops[0], ctx, []) == Outcome([row], true);
    StoredIff(before, ops, ctx);
  }
}
