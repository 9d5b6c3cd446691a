/**
 * The database connection (`tim::sqlite_db`): opening, one-shot statement
 * execution with busy-retry, the reentrant transaction counter, savepoints,
 * `transaction(sql)`, setting the schema version, and the backup copy loop.
 *
 * Every native call is answered by the engine (`Retry.Answers`); an operation
 * reports how many native calls it made, so the next operation starts after them.
 */
module SqliteDb {
  import opened Retry
  import Text
  import Wrappers

  /** The statements the connection hands to `sqlite3_exec`. */
  datatype Statement =
    | Pragmas
    | BeginStmt
    | CommitStmt
    | RollbackStmt
    | Savepoint(name: string)
    | ReleaseSavepoint(name: string)
    | RollbackToSavepoint(name: string)
    | UserVersion(version: nat)
    | Sql(text: string)

  const UserVersionPrefix: string := "PRAGMA user_version = "

  /** The SQL text of each statement. */
  function StatementText(s: Statement): string {
    match s
    case Pragmas =>
      "PRAGMA encoding = 'UTF-8';\nPRAGMA foreign_keys = ON;\nPRAGMA case_sensitive_like = OFF;"
    case BeginStmt => "BEGIN"
    case CommitStmt => "COMMIT"
    case RollbackStmt => "ROLLBACK"
    case Savepoint(n) => "SAVEPOINT " + n
    case ReleaseSavepoint(n) => "RELEASE SAVEPOINT " + n
    case RollbackToSavepoint(n) => "ROLLBACK TRANSACTION TO SAVEPOINT " + n
    case UserVersion(v) => UserVersionPrefix + Text.ToDecimal(v)
    case Sql(t) => t
  }

  /**
   * The statement `set_version(v)` sends carries `v` itself: its text is the
   * pragma prefix followed by a decimal numeral that reads back as `v`.
   */
  lemma UserVersionTextCarriesVersion(v: nat)
    ensures Text.StartsWith(StatementText(UserVersion(v)), UserVersionPrefix)
    ensures Text.ParseDecimal(StatementText(UserVersion(v))[|UserVersionPrefix|..]) == Wrappers.Some(v)
  {
    var t := StatementText(UserVersion(v));
    assert t[|UserVersionPrefix|..] == Text.ToDecimal(v);
    assert t[..|UserVersionPrefix|] == UserVersionPrefix;
    Text.DecimalRoundTrip(v);
  }

  /**
   * The connection: whether a native handle is open, the reentrant transaction
   * counter, and whether the engine is inside a transaction (the negation of
   * `sqlite3_get_autocommit`).
   */
  datatype Db = Db(open: bool, count: nat, active: bool)

  /**
   * The result of one operation: its boolean result, the connection afterwards,
   * the statements it handed to `exec` (each once, however often `exec` retried
   * it) and the number of native calls made.
   */
  datatype Step = Step(ok: bool, db: Db, issued: seq<Statement>, calls: nat)

  /**
   * `exec(sql)`: up to `tries` attempts; the first `SQLITE_OK` succeeds, only
   * `SQLITE_BUSY` is retried, any other code fails at once, and a spent budget
   * fails.
   */
  function Exec(db: Db, s: Statement, answer: Answers, tries: nat): (r: Step)
    requires db.open
    ensures r.issued == [s] && r.db == db
    ensures r.calls <= tries
    ensures forall j :: 0 <= j < r.calls - 1 ==> answer(j) == Busy
    ensures r.ok <==> 1 <= r.calls && answer(r.calls - 1) == Ok
    ensures !r.ok && r.calls < tries ==> 1 <= r.calls && answer(r.calls - 1) != Busy
    ensures tries == 0 ==> !r.ok && r.calls == 0
  {
    var o := Run(StatementVerdict, answer, tries);
    Step(o.success, db, [s], o.attempts)
  }

  /** With an engine that always answers `SQLITE_OK`, a statement succeeds on its first call. */
  lemma ExecAllOk(db: Db, s: Statement, answer: Answers, tries: nat)
    requires db.open && AllOk(answer) && 1 <= tries
    ensures Exec(db, s, answer, tries) == Step(true, db, [s], 1)
  {
    assert answer(0) == Ok;
  }

  /**
   * `begin()`: outside a transaction it issues one BEGIN and, when that succeeds,
   * sets the counter to 1; inside one it only increments the counter.
   */
  function Begin(db: Db, answer: Answers, tries: nat): (r: Step)
    requires db.open
    ensures r.db.open
    ensures db.active ==> r == Step(true, db.(count := db.count + 1), [], 0)
    ensures !db.active ==> r.issued == [BeginStmt]
    ensures !db.active ==> (r.ok <==> Exec(db, BeginStmt, answer, tries).ok)
    ensures !db.active && r.ok ==> r.db == db.(count := 1, active := true)
    ensures !r.ok ==> r.db == db
  {
    if !db.active then
      var e := Exec(db, BeginStmt, answer, tries);
      if !e.ok then e else Step(true, db.(count := 1, active := true), e.issued, e.calls)
    else
      Step(true, db.(count := db.count + 1), [], 0)
  }

  /**
   * `commit()`: with the counter below 1 or no transaction active it fails and
   * touches nothing; at depth 1 it issues COMMIT and drops to 0 only if COMMIT
   * succeeds; deeper, it only decrements the counter.
   */
  function Commit(db: Db, answer: Answers, tries: nat): (r: Step)
    requires db.open
    ensures r.db.open
    ensures db.count < 1 || !db.active ==> r == Step(false, db, [], 0)
    ensures CommitStmt in r.issued ==> db.count == 1
    ensures db.count == 1 && db.active ==> r.issued == [CommitStmt]
    ensures db.count == 1 && db.active ==> (r.ok <==> Exec(db, CommitStmt, answer, tries).ok)
    ensures db.count == 1 && r.ok ==> r.db == db.(count := 0, active := false)
    ensures 1 < db.count && db.active ==> r == Step(true, db.(count := db.count - 1), [], 0)
    ensures !r.ok ==> r.db == db
  {
    if db.count < 1 || !db.active then
      Step(false, db, [], 0)
    else if db.count == 1 then
      var e := Exec(db, CommitStmt, answer, tries);
      if !e.ok then e else Step(true, db.(count := 0, active := false), e.issued, e.calls)
    else
      Step(true, db.(count := db.count - 1), [], 0)
  }

  /**
   * `rollback()`: issues ROLLBACK only inside a transaction; any success leaves
   * the counter at 0 whatever the depth was, a failed ROLLBACK leaves it alone.
   */
  function Rollback(db: Db, answer: Answers, tries: nat): (r: Step)
    requires db.open
    ensures r.db.open
    ensures db.active ==> r.issued == [RollbackStmt]
    ensures db.active ==> (r.ok <==> Exec(db, RollbackStmt, answer, tries).ok)
    ensures !db.active ==> r == Step(true, db.(count := 0), [], 0)
    ensures r.ok ==> r.db == db.(count := 0, active := false)
    ensures !r.ok ==> r.db == db
  {
    if db.active then
      var e := Exec(db, RollbackStmt, answer, tries);
      if !e.ok then e else Step(true, db.(count := 0, active := false), e.issued, e.calls)
    else
      Step(true, db.(count := 0), [], 0)
  }

  /**
   * The engine answers `begin()`, `commit()` and `rollback()` consume: those of the
   * one statement each issues, and none when it issues nothing. `transaction(sql)`
   * reads the statement's and the closing call's answers from this position on.
   */
  lemma BracketCalls(db: Db, answer: Answers, tries: nat)
    requires db.open
    ensures Begin(db, answer, tries).calls == (if db.active then 0 else Exec(db, BeginStmt, answer, tries).calls)
    ensures Commit(db, answer, tries).calls ==
            (if db.count == 1 && db.active then Exec(db, CommitStmt, answer, tries).calls else 0)
    ensures Rollback(db, answer, tries).calls == (if db.active then Exec(db, RollbackStmt, answer, tries).calls else 0)
  {
  }

  /**
   * `begin(save_point)`: one SAVEPOINT statement; the counter is not touched. A
   * savepoint opened outside a transaction starts one in the engine.
   */
  function BeginSavepoint(db: Db, name: string, answer: Answers, tries: nat): (r: Step)
    requires db.open && |name| > 0
    ensures r.issued == [Savepoint(name)]
    ensures r.db.count == db.count && r.db.open
    ensures r.ok <==> Exec(db, Savepoint(name), answer, tries).ok
    ensures r.ok ==> r.db.active
    ensures !r.ok ==> r.db == db
  {
    var e := Exec(db, Savepoint(name), answer, tries);
    if e.ok then e.(db := db.(active := true)) else e
  }

  /** `commit(save_point)`: one RELEASE SAVEPOINT statement; the counter is not touched. */
  function CommitSavepoint(db: Db, name: string, answer: Answers, tries: nat): (r: Step)
    requires db.open && |name| > 0
    ensures r.issued == [ReleaseSavepoint(name)]
    ensures r.db == db
    ensures r.ok <==> Exec(db, ReleaseSavepoint(name), answer, tries).ok
  {
    Exec(db, ReleaseSavepoint(name), answer, tries)
  }

  /** `rollback(save_point)`: one ROLLBACK TO SAVEPOINT statement; the counter is not touched. */
  function RollbackSavepoint(db: Db, name: string, answer: Answers, tries: nat): (r: Step)
    requires db.open && |name| > 0
    ensures r.issued == [RollbackToSavepoint(name)]
    ensures r.db == db
    ensures r.ok <==> Exec(db, RollbackToSavepoint(name), answer, tries).ok
  {
    Exec(db, RollbackToSavepoint(name), answer, tries)
  }

  /** `set_version(v)`: one `PRAGMA user_version = v` statement. */
  function SetVersion(db: Db, version: nat, answer: Answers, tries: nat): (r: Step)
    requires db.open && version < 0x1_0000_0000
    ensures r.issued == [UserVersion(version)] && r.db == db
    ensures r.ok <==> Exec(db, UserVersion(version), answer, tries).ok
  {
    Exec(db, UserVersion(version), answer, tries)
  }

  // ---------------------------------------------------------------------------
  // transaction(sql)

  /**
   * `transaction(sql)` as the source writes it: begin, run `sql`, then commit if it
   * succeeded or roll back if it failed, and return the result of that last call.
   */
  function TransactionAsWritten(db: Db, sql: string, answer: Answers, tries: nat): (r: Step)
    requires db.open && |sql| > 0
    ensures r.db.open
  {
    var b := Begin(db, answer, tries);
    if !b.ok then b
    else
      var e := Exec(b.db, Sql(sql), Shift(answer, b.calls), tries);
      var rest := Shift(answer, b.calls + e.calls);
      var f := if e.ok then Commit(b.db, rest, tries) else Rollback(b.db, rest, tries);
      Step(f.ok, f.db, b.issued + e.issued + f.issued, b.calls + e.calls + f.calls)
  }

  /**
   * The as-written `transaction` reports success for a statement that failed: the
   * statement is rejected, ROLLBACK succeeds, and `rollback()`'s `true` is returned.
   */
  lemma TransactionAsWrittenHidesFailure()
    ensures var answer: Answers := (k: nat) => if k == 1 then Failed else Ok;
            var r := TransactionAsWritten(Db(true, 0, false), "INSERT", answer, 1);
            r.ok && r.issued == [BeginStmt, Sql("INSERT"), RollbackStmt]
  {
    var answer: Answers := (k: nat) => if k == 1 then Failed else Ok;
    var db := Db(true, 0, false);
    var b := Begin(db, answer, 1);
    assert Exec(db, BeginStmt, answer, 1).ok;
    assert b == Step(true, Db(true, 1, true), [BeginStmt], 1);
    var e := Exec(b.db, Sql("INSERT"), Shift(answer, 1), 1);
    assert Shift(answer, 1)(0) == Failed;
    assert !e.ok && e.calls == 1;
    var f := Rollback(b.db, Shift(answer, 2), 1);
    assert Shift(answer, 2)(0) == Ok;
    assert f.ok;
  }

  /**
   * `transaction(sql)` as intended: begin, run `sql`, commit on success or roll
   * back on failure, and succeed only when `sql` ran and was committed.
   */
  function Transaction(db: Db, sql: string, answer: Answers, tries: nat): (r: Step)
    requires db.open && |sql| > 0
    ensures r.db.open
    ensures !Begin(db, answer, tries).ok ==> r == Begin(db, answer, tries)
    ensures !Begin(db, answer, tries).ok ==> Sql(sql) !in r.issued
    ensures Begin(db, answer, tries).ok ==> Sql(sql) in r.issued
    ensures r.ok ==> RollbackStmt !in r.issued
    ensures RollbackStmt in r.issued ==> !r.ok
    ensures r.ok && !db.active ==> r.issued == [BeginStmt, Sql(sql), CommitStmt]
    ensures r.ok && !db.active ==> r.db == db.(count := 0, active := false)
    ensures var b := Begin(db, answer, tries);
            var e := Exec(b.db, Sql(sql), Shift(answer, b.calls), tries);
            // a failed statement is rolled back and reported as a failure
            (b.ok && !e.ok ==> !r.ok && r.issued == b.issued + [Sql(sql), RollbackStmt]) &&
            (r.ok ==> b.ok && e.ok) &&
            // inside a transaction a successful statement is all that happens
            (db.active && 1 <= db.count && e.ok ==> r.ok && r.db == db && r.issued == [Sql(sql)]) &&
            // outside one, a successful statement is committed, and the result is COMMIT's
            (b.ok && e.ok && !db.active ==>
               r.issued == [BeginStmt, Sql(sql), CommitStmt] &&
               (r.ok <==> Exec(b.db, CommitStmt, Shift(answer, b.calls + e.calls), tries).ok) &&
               (!r.ok ==> r.db == b.db))
  {
    var b := Begin(db, answer, tries);
    if !b.ok then b
    else
      var e := Exec(b.db, Sql(sql), Shift(answer, b.calls), tries);
      var rest := Shift(answer, b.calls + e.calls);
      var f := if e.ok then Commit(b.db, rest, tries) else Rollback(b.db, rest, tries);
      Step(e.ok && f.ok, f.db, b.issued + e.issued + f.issued, b.calls + e.calls + f.calls)
  }

  /** The two definitions differ only in the reported result, and only after a rollback. */
  lemma TransactionCorrectionIsMinimal(db: Db, sql: string, answer: Answers, tries: nat)
    requires db.open && |sql| > 0
    ensures var w := TransactionAsWritten(db, sql, answer, tries);
            var c := Transaction(db, sql, answer, tries);
            c.db == w.db && c.issued == w.issued && c.calls == w.calls &&
            (c.ok <==> w.ok && RollbackStmt !in w.issued)
  {
  }

  /**
   * Against an engine that always answers OK, `transaction(sql)` runs `sql`
   * between the effects of one `begin()` and one `commit()`: it succeeds, leaves
   * the connection as that pair would, and issues the pair's statements around
   * `sql`.
   */
  lemma TransactionAllOk(db: Db, sql: string, answer: Answers, tries: nat)
    requires db.open && |sql| > 0 && AllOk(answer) && 1 <= tries
    ensures var t := Transaction(db, sql, answer, tries);
            var b := ApplyOk(db, OpBegin);
            var c := ApplyOk(b.db, OpCommit);
            t.ok && t.db == c.db && t.issued == b.issued + [Sql(sql)] + c.issued
  {
    var b := Begin(db, answer, tries);
    ApplyAllOk(db, OpBegin, answer, tries);
    ShiftAllOk(answer, b.calls);
    var e := Exec(b.db, Sql(sql), Shift(answer, b.calls), tries);
    ExecAllOk(b.db, Sql(sql), Shift(answer, b.calls), tries);
    ShiftAllOk(answer, b.calls + e.calls);
    ApplyAllOk(b.db, OpCommit, Shift(answer, b.calls + e.calls), tries);
  }

  // ---------------------------------------------------------------------------
  // Savepoints inside a transaction

  /**
   * A savepoint opened and then released or rolled back inside a `begin()`…`commit()`
   * pair leaves the connection as it was, so the enclosing `commit()` and
   * `rollback()` behave as if it had never been there.
   */
  lemma SavepointInsideTransaction(db: Db, name: string, release: bool, a1: Answers, a2: Answers, a3: Answers, tries: nat)
    requires db.open && db.active && |name| > 0
    ensures var s := BeginSavepoint(db, name, a1, tries);
            var e := if release then CommitSavepoint(s.db, name, a2, tries) else RollbackSavepoint(s.db, name, a2, tries);
            e.db == db && Commit(e.db, a3, tries) == Commit(db, a3, tries) && Rollback(e.db, a3, tries) == Rollback(db, a3, tries)
  {
  }

  /**
   * Against an always-OK engine, BEGIN, a savepoint, its release and COMMIT issue
   * exactly those four statements and end outside the transaction at counter 0.
   */
  lemma SavepointBracketed(db: Db, name: string, answer: Answers, tries: nat)
    requires db.open && !db.active && |name| > 0 && AllOk(answer) && 1 <= tries
    ensures var b := Begin(db, answer, tries);
            var s := BeginSavepoint(b.db, name, answer, tries);
            var e := CommitSavepoint(s.db, name, answer, tries);
            var c := Commit(e.db, answer, tries);
            b.ok && s.ok && e.ok && c.ok &&
            b.issued + s.issued + e.issued + c.issued == [BeginStmt, Savepoint(name), ReleaseSavepoint(name), CommitStmt] &&
            c.db == db.(count := 0, active := false)
  {
    ExecAllOk(db, BeginStmt, answer, tries);
    var b := Begin(db, answer, tries);
    ExecAllOk(b.db, Savepoint(name), answer, tries);
    ExecAllOk(b.db, ReleaseSavepoint(name), answer, tries);
    ExecAllOk(b.db, CommitStmt, answer, tries);
  }

  // ---------------------------------------------------------------------------
  // Sequences of transaction calls

  datatype Op = OpBegin | OpCommit | OpRollback

  function Apply(db: Db, op: Op, answer: Answers, tries: nat): (r: Step)
    requires db.open
    ensures r.db.open
  {
    match op
    case OpBegin => Begin(db, answer, tries)
    case OpCommit => Commit(db, answer, tries)
    case OpRollback => Rollback(db, answer, tries)
  }

  /** Runs the calls one after another; the result is true when every call returned true. */
  function RunOps(db: Db, ops: seq<Op>, answer: Answers, tries: nat): (r: Step)
    requires db.open
    ensures r.db.open
    decreases |ops|
  {
    if |ops| == 0 then Step(true, db, [], 0)
    else
      var s := Apply(db, ops[0], answer, tries);
      var rest := RunOps(s.db, ops[1..], Shift(answer, s.calls), tries);
      Step(s.ok && rest.ok, rest.db, s.issued + rest.issued, s.calls + rest.calls)
  }

  function Repeat(op: Op, n: nat): (ops: seq<Op>)
    ensures |ops| == n
    ensures forall i :: 0 <= i < n ==> ops[i] == op
  {
    if n == 0 then [] else [op] + Repeat(op, n - 1)
  }

  /**
   * One call against an engine that accepts every statement: `begin()` opens or
   * deepens the transaction, `commit()` fails outside one and closes it at depth 1,
   * `rollback()` always ends with no transaction and the counter at 0.
   */
  function ApplyOk(db: Db, op: Op): Step {
    match op
    case OpBegin =>
      if db.active then Step(true, db.(count := db.count + 1), [], 0)
      else Step(true, db.(count := 1, active := true), [BeginStmt], 1)
    case OpCommit =>
      if db.count < 1 || !db.active then Step(false, db, [], 0)
      else if db.count == 1 then Step(true, db.(count := 0, active := false), [CommitStmt], 1)
      else Step(true, db.(count := db.count - 1), [], 0)
    case OpRollback =>
      if db.active then Step(true, db.(count := 0, active := false), [RollbackStmt], 1)
      else Step(true, db.(count := 0), [], 0)
  }

  /** A call sequence against an engine that accepts every statement. */
  function RunOpsOk(db: Db, ops: seq<Op>): Step
    decreases |ops|
  {
    if |ops| == 0 then Step(true, db, [], 0)
    else
      var s := ApplyOk(db, ops[0]);
      var rest := RunOpsOk(s.db, ops[1..]);
      Step(s.ok && rest.ok, rest.db, s.issued + rest.issued, s.calls + rest.calls)
  }

  /** With every native call succeeding and at least one try, each call behaves as `ApplyOk` says. */
  lemma ApplyAllOk(db: Db, op: Op, answer: Answers, tries: nat)
    requires db.open && AllOk(answer) && 1 <= tries
    ensures Apply(db, op, answer, tries) == ApplyOk(db, op)
  {
    match op {
      case OpBegin => ExecAllOk(db, BeginStmt, answer, tries);
      case OpCommit => ExecAllOk(db, CommitStmt, answer, tries);
      case OpRollback => ExecAllOk(db, RollbackStmt, answer, tries);
    }
  }

  /** With every native call succeeding, a call sequence runs as the reference `RunOpsOk` says. */
  lemma {:induction false} RunOpsAllOk(db: Db, ops: seq<Op>, answer: Answers, tries: nat)
    requires db.open && AllOk(answer) && 1 <= tries
    ensures RunOps(db, ops, answer, tries) == RunOpsOk(db, ops)
    decreases |ops|
  {
    if |ops| > 0 {
      var s := Apply(db, ops[0], answer, tries);
      ApplyAllOk(db, ops[0], answer, tries);
      ShiftAllOk(answer, s.calls);
      RunOpsAllOk(s.db, ops[1..], Shift(answer, s.calls), tries);
    }
  }

  /** The reference run of `a + b` is the run of `a` followed by the run of `b`. */
  lemma {:induction false} RunOpsOkAppend(db: Db, a: seq<Op>, b: seq<Op>)
    ensures var x := RunOpsOk(db, a);
            var y := RunOpsOk(x.db, b);
            RunOpsOk(db, a + b) == Step(x.ok && y.ok, y.db, x.issued + y.issued, x.calls + y.calls)
    decreases |a|
  {
    if |a| == 0 {
      assert a + b == b;
    } else {
      var s := ApplyOk(db, a[0]);
      assert (a + b)[0] == a[0];
      assert (a + b)[1..] == a[1..] + b;
      RunOpsOkAppend(s.db, a[1..], b);
      var x' := RunOpsOk(s.db, a[1..]);
      var y := RunOpsOk(x'.db, b);
      assert s.issued + (x'.issued + y.issued) == (s.issued + x'.issued) + y.issued;
    }
  }

  /** With every native call succeeding, running `a + b` is running `a` and then `b`. */
  lemma RunOpsAppend(db: Db, a: seq<Op>, b: seq<Op>, answer: Answers, tries: nat)
    requires db.open && AllOk(answer) && 1 <= tries
    ensures var x := RunOps(db, a, answer, tries);
            var y := RunOps(x.db, b, answer, tries);
            RunOps(db, a + b, answer, tries) == Step(x.ok && y.ok, y.db, x.issued + y.issued, x.calls + y.calls)
  {
    RunOpsAllOk(db, a, answer, tries);
    RunOpsAllOk(db, a + b, answer, tries);
    RunOpsAllOk(RunOpsOk(db, a).db, b, answer, tries);
    RunOpsOkAppend(db, a, b);
  }

  /** Inside a transaction, `n` further `begin()` calls only raise the counter by `n`. */
  lemma {:induction false} NestedBegins(db: Db, n: nat, answer: Answers, tries: nat)
    requires db.open && db.active
    ensures RunOps(db, Repeat(OpBegin, n), answer, tries) == Step(true, db.(count := db.count + n), [], 0)
    decreases n
  {
    if n > 0 {
      var ops := Repeat(OpBegin, n);
      assert ops[1..] == Repeat(OpBegin, n - 1);
      NestedBegins(db.(count := db.count + 1), n - 1, Shift(answer, 0), tries);
    }
  }

  /** Above depth 1, `n` `commit()` calls only lower the counter by `n`. */
  lemma {:induction false} NestedCommits(db: Db, n: nat, answer: Answers, tries: nat)
    requires db.open && db.active && n < db.count
    ensures RunOps(db, Repeat(OpCommit, n), answer, tries) == Step(true, db.(count := db.count - n), [], 0)
    decreases n
  {
    if n > 0 {
      var ops := Repeat(OpCommit, n);
      assert ops[1..] == Repeat(OpCommit, n - 1);
      NestedCommits(db.(count := db.count - 1), n - 1, Shift(answer, 0), tries);
    }
  }

  /**
   * A balanced run of `n` `begin()` calls and `n` `commit()` calls, starting outside
   * a transaction, issues exactly one BEGIN and one COMMIT, whatever `n`, and ends
   * outside a transaction with the counter at 0.
   */
  lemma BalancedNesting(db: Db, n: nat, answer: Answers, tries: nat)
    requires db.open && !db.active && 1 <= n
    requires AllOk(answer) && 1 <= tries
    ensures RunOps(db, Repeat(OpBegin, n) + Repeat(OpCommit, n), answer, tries)
            == Step(true, db.(count := 0, active := false), [BeginStmt, CommitStmt], 2)
  {
    var begins := Repeat(OpBegin, n);
    var commits := Repeat(OpCommit, n);
    ExecAllOk(db, BeginStmt, answer, tries);
    var inside := db.(count := 1, active := true);
    assert begins == [OpBegin] + Repeat(OpBegin, n - 1);
    RunOpsAppend(db, [OpBegin], Repeat(OpBegin, n - 1), answer, tries);
    assert RunOps(db, [OpBegin], answer, tries) == Step(true, inside, [BeginStmt], 1);
    NestedBegins(inside, n - 1, answer, tries);
    var deep := db.(count := n, active := true);
    assert RunOps(db, begins, answer, tries) == Step(true, deep, [BeginStmt], 1);
    assert commits == Repeat(OpCommit, n - 1) + [OpCommit] by {
      RepeatSnoc(OpCommit, n);
    }
    NestedCommits(deep, n - 1, answer, tries);
    RunOpsAppend(deep, Repeat(OpCommit, n - 1), [OpCommit], answer, tries);
    ExecAllOk(inside, CommitStmt, answer, tries);
    assert RunOps(inside, [OpCommit], answer, tries) == Step(true, db.(count := 0, active := false), [CommitStmt], 1);
    assert RunOps(deep, commits, answer, tries) == Step(true, db.(count := 0, active := false), [CommitStmt], 1);
    RunOpsAppend(db, begins, commits, answer, tries);
  }

  /**
   * However deep the nesting, one `rollback()` returns the counter to 0 and leaves
   * no transaction active, issuing one BEGIN and one ROLLBACK in all.
   */
  lemma RollbackFlattens(db: Db, n: nat, answer: Answers, tries: nat)
    requires db.open && !db.active && 1 <= n
    requires AllOk(answer) && 1 <= tries
    ensures RunOps(db, Repeat(OpBegin, n) + [OpRollback], answer, tries)
            == Step(true, db.(count := 0, active := false), [BeginStmt, RollbackStmt], 2)
  {
    var begins := Repeat(OpBegin, n);
    ExecAllOk(db, BeginStmt, answer, tries);
    var inside := db.(count := 1, active := true);
    assert begins == [OpBegin] + Repeat(OpBegin, n - 1);
    RunOpsAppend(db, [OpBegin], Repeat(OpBegin, n - 1), answer, tries);
    assert RunOps(db, [OpBegin], answer, tries) == Step(true, inside, [BeginStmt], 1);
    NestedBegins(inside, n - 1, answer, tries);
    var deep := db.(count := n, active := true);
    ExecAllOk(deep, RollbackStmt, answer, tries);
    assert RunOps(deep, [OpRollback], answer, tries) == Step(true, db.(count := 0, active := false), [RollbackStmt], 1);
    RunOpsAppend(db, begins, [OpRollback], answer, tries);
  }

  lemma {:induction false} RepeatSnoc(op: Op, n: nat)
    requires 1 <= n
    ensures Repeat(op, n) == Repeat(op, n - 1) + [op]
  {
  }

  // ---------------------------------------------------------------------------
  // open

  /** What the file system and the engine answer while opening. */
  datatype OpenEnv = OpenEnv(folderReady: bool, openCode: Code, extendedCodes: Code, loadExtension: Code)

  /**
   * `open(path)`: fails without a handle when the parent folder cannot be created
   * or any of `sqlite3_open_v2`, `sqlite3_extended_result_codes` and
   * `sqlite3_enable_load_extension` fails; otherwise runs the startup pragmas and
   * returns their result, keeping the handle open even when they fail.
   */
  function Open(db: Db, env: OpenEnv, answer: Answers, tries: nat): (r: Step)
    requires !db.open
    ensures r.db.open <==> env.folderReady && env.openCode == Ok && env.extendedCodes == Ok && env.loadExtension == Ok
    ensures !r.db.open ==> r == Step(false, db, [], 0)
    ensures r.db.open ==> r.issued == [Pragmas] && r.db == Db(true, db.count, false)
    ensures r.db.open ==> (r.ok <==> Exec(Db(true, db.count, false), Pragmas, answer, tries).ok)
    ensures r.ok ==> r.db.open
  {
    if !env.folderReady then Step(false, db, [], 0)
    else if env.openCode != Ok || env.extendedCodes != Ok || env.loadExtension != Ok then Step(false, db, [], 0)
    else Exec(Db(true, db.count, false), Pragmas, answer, tries)
  }

  // ---------------------------------------------------------------------------
  // backup

  /** Backup step codes after which the copy loop goes on. */
  predicate Continues(c: Code) {
    c == Ok || c == Busy || c == Locked
  }

  /** Number of step codes that make the loop pause before the next step. */
  function Pauses(steps: seq<Code>): nat
    decreases |steps|
  {
    if |steps| == 0 then 0
    else Pauses(steps[..|steps| - 1]) + (if steps[|steps| - 1] == Busy || steps[|steps| - 1] == Locked then 1 else 0)
  }

  /**
   * Where the copy loop stands after the step answers given: backup could not be
   * initialised, it is still copying when the answers run out, or it finished after
   * `steps` calls to `sqlite3_backup_step`, reporting progress `reports` times and
   * pausing `pauses` times, with `ok` the result of `sqlite3_backup_finish`.
   */
  datatype Replication = InitFailed | Copying | Finished(ok: bool, steps: nat, reports: nat, pauses: nat)

  /** The position of the first step code after which the copy loop stops, if any. */
  function FirstStop(steps: seq<Code>): (r: Wrappers.Option<nat>)
    ensures r.Some? ==> r.value < |steps| && !Continues(steps[r.value])
    ensures r.Some? ==> forall i :: 0 <= i < r.value ==> Continues(steps[i])
    ensures r.None? ==> forall i :: 0 <= i < |steps| ==> Continues(steps[i])
    decreases |steps|
  {
    if |steps| == 0 then Wrappers.None
    else if !Continues(steps[0]) then Wrappers.Some(0)
    else match FirstStop(steps[1..])
      case None => Wrappers.None
      case Some(k) => Wrappers.Some(k + 1)
  }

  /**
   * The copy loop stated without a loop: it finishes right after the first step
   * that does not continue, having stepped (and reported) once per code up to and
   * including that one.
   */
  function ReplicationOf(initialised: bool, steps: seq<Code>, finish: Code, reporting: bool): (r: Replication)
    ensures r == InitFailed <==> !initialised
  {
    if !initialised then InitFailed
    else match FirstStop(steps)
      case None => Copying
      case Some(k) => Finished(finish == Ok, k + 1, if reporting then k + 1 else 0, Pauses(steps[..k + 1]))
  }

  /**
   * `k` steps that continue followed by one that stops finish the copy after
   * exactly `k + 1` steps, whatever codes come after.
   */
  lemma ContinueThenStop(steps: seq<Code>, k: nat, finish: Code, reporting: bool)
    requires k < |steps| && !Continues(steps[k])
    requires forall i :: 0 <= i < k ==> Continues(steps[i])
    ensures ReplicationOf(true, steps, finish, reporting) ==
            Finished(finish == Ok, k + 1, if reporting then k + 1 else 0, Pauses(steps[..k + 1]))
  {
  }

  /**
   * `p::sqlite_db::replicate`: step, report progress if a callback is given, pause
   * on BUSY or LOCKED, and go on while the step answered OK, BUSY or LOCKED; the
   * result is the result of finishing the backup.
   */
  method Replicate(initialised: bool, steps: seq<Code>, finish: Code, reporting: bool) returns (r: Replication)
    ensures r == InitFailed <==> !initialised
    ensures initialised && (forall i :: 0 <= i < |steps| ==> Continues(steps[i])) ==> r == Copying
    ensures r.Finished? ==> 1 <= r.steps <= |steps|
    ensures r.Finished? ==> forall i :: 0 <= i < r.steps - 1 ==> Continues(steps[i])
    ensures r.Finished? ==> !Continues(steps[r.steps - 1])
    ensures r.Finished? ==> (r.ok <==> finish == Ok)
    ensures r.Finished? ==> r.reports == (if reporting then r.steps else 0)
    ensures r.Finished? ==> r.pauses == Pauses(steps[..r.steps])
    ensures r == ReplicationOf(initialised, steps, finish, reporting)
  {
    if !initialised {
      return InitFailed;
    }
    var n := 0;
    var reports := 0;
    var pauses := 0;
    var res := Ok;
    while Continues(res)
      invariant 0 <= n <= |steps|
      invariant forall i :: 0 <= i < n - 1 ==> Continues(steps[i])
      invariant n > 0 ==> res == steps[n - 1]
      invariant n == 0 ==> res == Ok
      invariant reports == (if reporting then n else 0)
      invariant pauses == Pauses(steps[..n])
      decreases |steps| - n, if Continues(res) then 1 else 0
    {
      if n == |steps| {
        assert forall i :: 0 <= i < |steps| ==> Continues(steps[i]);
        return Copying;
      }
      res := steps[n];
      if reporting {
        reports := reports + 1;
      }
      assert steps[..n + 1][..n] == steps[..n];
      if res == Busy || res == Locked {
        pauses := pauses + 1;
      }
      n := n + 1;
    }
    ContinueThenStop(steps, n - 1, finish, reporting);
    r := Finished(finish == Ok, n, reports, pauses);
  }

  /** What `backup(path)` leaves behind: its result and whether the destination handle is still open. */
  datatype BackupResult = BackupResult(ok: bool, destinationOpen: bool)

  /** `replicate`'s boolean result: the copy finished and `sqlite3_backup_finish` answered OK. */
  predicate Copied(copy: Replication) {
    copy.Finished? && copy.ok
  }

  /**
   * `backup(path)` as the source writes it, given whether the destination folder
   * exists or was created, the code `sqlite3_open_v2` answered and where
   * `replicate` into the destination ended: a failed copy returns before
   * `sqlite3_close(backup_db)`.
   */
  function BackupAsWritten(folderReady: bool, openCode: Code, copy: Replication): (r: BackupResult)
    ensures r.ok <==> folderReady && openCode == Ok && copy.Finished? && copy.ok
    ensures r.destinationOpen <==> folderReady && openCode == Ok && !Copied(copy)
  {
    if !folderReady then BackupResult(false, false)
    else if openCode != Ok then BackupResult(false, false)
    else if !Copied(copy) then BackupResult(false, true)
    else BackupResult(true, false)
  }

  /**
   * A copy that reaches a stopping step and then fails to finish leaves the
   * as-written backup's destination connection open.
   */
  lemma BackupAsWrittenLeaksOnFailedCopy(steps: seq<Code>, finish: Code, reporting: bool)
    requires FirstStop(steps).Some? && finish != Ok
    ensures BackupAsWritten(true, Ok, ReplicationOf(true, steps, finish, reporting)) == BackupResult(false, true)
  {
  }

  /** `backup(path)` as intended: the destination connection is closed on every path. */
  function Backup(folderReady: bool, openCode: Code, copy: Replication): (r: BackupResult)
    ensures !r.destinationOpen
    ensures r.ok == BackupAsWritten(folderReady, openCode, copy).ok
  {
    BackupResult(folderReady && openCode == Ok && Copied(copy), false)
  }

  /**
   * Backup over the copy loop: it succeeds exactly when the folder is ready, the
   * destination opens, the backup initialises, some step code stops the loop and
   * the finish answers OK; while every step answer continues it does not succeed.
   */
  lemma {:induction false} BackupOfReplication(folderReady: bool, openCode: Code, initialised: bool,
                                               steps: seq<Code>, finish: Code, reporting: bool)
    ensures var r := Backup(folderReady, openCode, ReplicationOf(initialised, steps, finish, reporting));
            r.ok <==> folderReady && openCode == Ok && initialised && finish == Ok &&
                      exists k :: 0 <= k < |steps| && !Continues(steps[k])
  {
    if initialised && FirstStop(steps).None? {
      assert forall k :: 0 <= k < |steps| ==> Continues(steps[k]);
    }
  }
}
