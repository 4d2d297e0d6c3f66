/** Nested `atomic()` blocks on one pinned connection.

    `Driver*` functions are the SAVEPOINT rules of the database session; `Run*` is the code of
    `_root_tx` / `_nested_tx` over them; `Ideal*` is the nesting a caller is promised. */
module Savepoints {
  import opened Basics

  /** What user code does inside a block. `Execute` is one statement: `None` is a driver error,
      which raises and changes nothing. `Try` is a `try/except` that swallows the exception. */
  datatype Stmt<!D> =
    | Execute(effect: D -> Option<D>)
    | Raise
    | Atomic(body: seq<Stmt<D>>)
    | Try(body: seq<Stmt<D>>)

  /** A block ends normally or with a pending exception. */
  datatype Outcome<+D> = Outcome(db: D, raised: bool)

  // ---------------------------------------------------------------- the promise

  function IdealStmt<D>(s: Stmt<D>, db: D): Outcome<D>
    decreases s
  {
    match s
    case Execute(effect) =>
      (match effect(db) case None => Outcome(db, true) case Some(next) => Outcome(next, false))
    case Raise => Outcome(db, true)
    case Atomic(body) =>
      var o := Ideal(body, db);
      if o.raised then Outcome(db, true) else o
    case Try(body) => Outcome(Ideal(body, db).db, false)
  }

  /** Runs a body up to its first uncaught exception; a failed block restores its entry state. */
  function Ideal<D>(body: seq<Stmt<D>>, db: D): Outcome<D>
    decreases body
  {
    if body == [] then Outcome(db, false) else
    var o := IdealStmt(body[0], db);
    if o.raised then o else Ideal(body[1..], o.db)
  }

  // ---------------------------------------------------------------- the driver session

  datatype Savepoint<+D> = Savepoint(name: nat, saved: D)

  /** `savepoints` is the session's stack, most recent last. A name `endo_sp_<n>` is kept as `n`. */
  datatype Session<+D> = Session(working: D, savepoints: seq<Savepoint<D>>)

  /** Position of the most recent savepoint called `name`, which is the one SQL addresses. */
  function Find<D>(stack: seq<Savepoint<D>>, name: nat): Option<nat>
  {
    if stack == [] then None
    else if stack[|stack| - 1].name == name then Some(|stack| - 1)
    else Find(stack[..|stack| - 1], name)
  }

  function DriverSavepoint<D>(s: Session<D>, name: nat): Session<D> {
    s.(savepoints := s.savepoints + [Savepoint(name, s.working)])
  }

  /** ROLLBACK TO: restore the copy, drop everything above it, keep the savepoint itself. */
  function DriverRollbackTo<D>(s: Session<D>, name: nat): Option<Session<D>> {
    match Find(s.savepoints, name)
    case Some(i) =>
      if i < |s.savepoints| then Some(Session(s.savepoints[i].saved, s.savepoints[..i + 1])) else None
    case None => None
  }

  /** RELEASE: forget the savepoint and everything above it, keep the work. */
  function DriverRelease<D>(s: Session<D>, name: nat): Option<Session<D>> {
    match Find(s.savepoints, name)
    case Some(i) => if i <= |s.savepoints| then Some(s.(savepoints := s.savepoints[..i])) else None
    case None => None
  }

  // ---------------------------------------------------------------- the code, as a function

  /** `None` when a savepoint statement names a savepoint the session does not have. */
  datatype Exec<+D> = Stuck | Ended(session: Session<D>, raised: bool)

  function RunStmt<D>(s: Stmt<D>, depth: nat, session: Session<D>): Exec<D>
    decreases s
  {
    match s
    case Execute(effect) =>
      (match effect(session.working)
       case None => Ended(session, true)
       case Some(next) => Ended(session.(working := next), false))
    case Raise => Ended(session, true)
    case Atomic(body) =>
      (match Run(body, depth + 1, DriverSavepoint(session, depth + 1))
       case Stuck => Stuck
       case Ended(inner, raised) => NestedExit(inner, depth + 1, raised))
    case Try(body) =>
      (match Run(body, depth, session)
       case Stuck => Stuck
       case Ended(inner, _) => Ended(inner, false))
  }

  /** The `except` / `else` arms of `_nested_tx`. */
  function NestedExit<D>(inner: Session<D>, name: nat, raised: bool): Exec<D> {
    match (if raised then DriverRollbackTo(inner, name) else DriverRelease(inner, name))
    case None => Stuck
    case Some(after) => Ended(after, raised)
  }

  function Run<D>(body: seq<Stmt<D>>, depth: nat, session: Session<D>): Exec<D>
    decreases body
  {
    if body == [] then Ended(session, false) else
    match RunStmt(body[0], depth, session)
    case Stuck => Stuck
    case Ended(next, raised) => if raised then Ended(next, true) else Run(body[1..], depth, next)
  }

  // ---------------------------------------------------------------- refinement

  /** The savepoints a body leaves behind: one per caught failure of a direct inner block, each
      named one level deeper and holding the state that block started from. */
  function Leftovers<D>(body: seq<Stmt<D>>, depth: nat, db: D): seq<Savepoint<D>>
    decreases body
  {
    if body == [] then [] else
    var o := IdealStmt(body[0], db);
    LeftoversOf(body[0], depth, db) + if o.raised then [] else Leftovers(body[1..], depth, o.db)
  }

  function LeftoversOf<D>(s: Stmt<D>, depth: nat, db: D): seq<Savepoint<D>>
    decreases s
  {
    match s
    case Execute(_) => []
    case Raise => []
    case Atomic(body) => if Ideal(body, db).raised then [Savepoint(depth + 1, db)] else []
    case Try(body) => Leftovers(body, depth, db)
  }

  /** Names repeat: every savepoint a body leaves carries the same, next deeper, name. */
  lemma {:induction false} LeftoverNames<D(!new)>(body: seq<Stmt<D>>, depth: nat, db: D)
    ensures forall p :: p in Leftovers(body, depth, db) ==> p.name == depth + 1
    decreases body
  {
    if body != [] {
      if body[0].Try? { LeftoverNames(body[0].body, depth, db); }
      LeftoverNames(body[1..], depth, IdealStmt(body[0], db).db);
    }
  }

  /** A block finds its own savepoint under any number of leftovers with deeper names. */
  lemma {:induction false} FindBelowLeftovers<D(!new)>(stack: seq<Savepoint<D>>, i: nat)
    requires i < |stack|
    requires forall j :: i < j < |stack| ==> stack[j].name > stack[i].name
    ensures Find(stack, stack[i].name) == Some(i)
  {
    if i + 1 < |stack| {
      var shorter := stack[..|stack| - 1];
      assert forall j :: 0 <= j < |shorter| ==> shorter[j] == stack[j];
      FindBelowLeftovers(shorter, i);
    }
  }

  /** Main result: whatever is already on the stack, a body ends in the promised database with the
      promised outcome, never names a missing savepoint, and leaves exactly `Leftovers` behind. */
  lemma {:induction false} RunRefinesIdeal<D(!new)>(body: seq<Stmt<D>>, depth: nat, session: Session<D>)
    ensures var want := Ideal(body, session.working);
      Run(body, depth, session) ==
      Ended(Session(want.db, session.savepoints + Leftovers(body, depth, session.working)), want.raised)
    decreases body
  {
    if body == [] {
      assert session.savepoints + [] == session.savepoints;
    } else {
      StmtRefinesIdeal(body[0], depth, session);
      var first := RunStmt(body[0], depth, session);
      var left := LeftoversOf(body[0], depth, session.working);
      if first.raised {
        assert left + [] == left;
      } else {
        RunRefinesIdeal(body[1..], depth, first.session);
        var rest := Leftovers(body[1..], depth, first.session.working);
        assert (session.savepoints + left) + rest == session.savepoints + (left + rest);
      }
    }
  }

  lemma {:induction false} StmtRefinesIdeal<D(!new)>(s: Stmt<D>, depth: nat, session: Session<D>)
    ensures var want := IdealStmt(s, session.working);
      RunStmt(s, depth, session) ==
      Ended(Session(want.db, session.savepoints + LeftoversOf(s, depth, session.working)), want.raised)
    decreases s
  {
    assert session.savepoints + [] == session.savepoints;
    match s
    case Execute(_) =>
    case Raise =>
    case Try(body) => RunRefinesIdeal(body, depth, session);
    case Atomic(body) =>
      var entered := DriverSavepoint(session, depth + 1);
      RunRefinesIdeal(body, depth + 1, entered);
      LeftoverNames(body, depth + 1, session.working);
      ExitRestoresOwn(session, depth + 1, Leftovers(body, depth + 1, session.working), Ideal(body, session.working));
  }

  /** Leaving a block with deeper leftovers on top undoes or keeps exactly its own work. */
  lemma ExitRestoresOwn<D(!new)>(before: Session<D>, name: nat, left: seq<Savepoint<D>>, body: Outcome<D>)
    requires forall p :: p in left ==> p.name > name
    ensures var own := Savepoint(name, before.working);
      NestedExit(Session(body.db, (before.savepoints + [own]) + left), name, body.raised) ==
      if body.raised then Ended(Session(before.working, before.savepoints + [own]), true)
      else Ended(Session(body.db, before.savepoints), false)
  {
    var stack := (before.savepoints + [Savepoint(name, before.working)]) + left;
    var own := |before.savepoints|;
    assert forall j :: own < j < |stack| ==> stack[j] == left[j - own - 1] && stack[j] in left;
    FindBelowLeftovers(stack, own);
    assert stack[..own] == before.savepoints;
    assert stack[..own + 1] == before.savepoints + [Savepoint(name, before.working)];
  }

  // ---------------------------------------------------------------- the code, on a connection

  /** A raw connection pinned by a root transaction, together with `_TxState.depth`. */
  class PinnedConnection<D(!new)> {
    var committed: D
    var session: Session<D>
    var depth: nat

    constructor (db: D)
      ensures committed == db && session == Session(db, []) && depth == 1
    {
      committed, session, depth := db, Session(db, []), 1;
    }

    /** The statements of a `with` body, up to the first uncaught exception. */
    method RunBody(body: seq<Stmt<D>>) returns (raised: bool)
      modifies this`session, this`depth
      ensures depth == old(depth)
      ensures Ended(session, raised) == Run(body, old(depth), old(session))
      decreases body, 0
    {
      RunRefinesIdeal(body, depth, session);
      if body == [] { return false; }
      StmtRefinesIdeal(body[0], depth, session);
      match body[0] {
        case Execute(effect) =>
          match effect(session.working) {
            case None => raised := true;
            case Some(next) => session := session.(working := next); raised := false;
          }
        case Raise => raised := true;
        case Atomic(inner) => raised := NestedTx(inner);
        case Try(inner) =>
          var _ := RunBody(inner);
          raised := false;
      }
      if !raised { raised := RunBody(body[1..]); }
    }

    /** `_nested_tx`: depth up, SAVEPOINT, body, ROLLBACK TO or RELEASE, depth down. */
    method NestedTx(body: seq<Stmt<D>>) returns (raised: bool)
      modifies this`session, this`depth
      ensures depth == old(depth)
      ensures Ended(session, raised) == RunStmt(Atomic(body), old(depth), old(session))
      decreases body, 1
    {
      StmtRefinesIdeal(Atomic(body), depth, session);
      depth := depth + 1;
      var name := depth;
      session := DriverSavepoint(session, name);
      raised := RunBody(body);
      if raised {
        session := DriverRollbackTo(session, name).value;
      } else {
        session := DriverRelease(session, name).value;
      }
      depth := depth - 1;
    }

    /** `_root_tx`: the block's work becomes the committed state, or nothing does. */
    method RootTx(body: seq<Stmt<D>>) returns (raised: bool)
      requires session == Session(committed, []) && depth == 1
      modifies this
      ensures raised == Ideal(body, old(committed)).raised
      ensures committed == if raised then old(committed) else Ideal(body, old(committed)).db
      ensures session == Session(committed, []) && depth == 1
    {
      RunRefinesIdeal(body, depth, session);
      raised := RunBody(body);
      if !raised { committed := session.working; }
      session := Session(committed, []);
    }
  }
}
