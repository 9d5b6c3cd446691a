/**
 * The bounded busy-retry loop shared by `sqlite_db::exec`, `sqlite_query::prepare`
 * and `sqlite_query::next`: call the engine, stop on a decisive answer, try again
 * on a busy answer, and give up once the attempt budget (DB_BUSY_TRIES) is spent.
 * The sleep between attempts has no effect beyond the attempt count and is not
 * modelled.
 */
module Retry {

  /** Engine result codes, as far as the callers tell them apart. */
  datatype Code = Ok | Busy | Locked | Misuse | Row | Done | Range | Failed

  /** How one caller reads one answer of the engine. */
  datatype Verdict = Accept | Again | Reject

  /** The engine's answers: `answer(k)` is the code of the k-th native call. */
  type Answers = nat -> Code

  /** The same answers, starting after the first `n` calls. */
  function Shift(answer: Answers, n: nat): Answers {
    (k: nat) => answer(n + k)
  }

  ghost predicate AllOk(answer: Answers) {
    forall k :: answer(k) == Ok
  }

  lemma ShiftAllOk(answer: Answers, n: nat)
    requires AllOk(answer)
    ensures AllOk(Shift(answer, n))
  {
  }

  /**
   * What the loop reports: whether it succeeded, the last code it saw (`Ok`, the
   * loop variable's initial value, when no attempt was made) and how many native
   * calls it made.
   */
  datatype Outcome = Outcome(success: bool, last: Code, attempts: nat)

  /** The loop from iteration `count` on; helper of `Run`. */
  function Loop(verdict: Code -> Verdict, answer: Answers, budget: nat, count: nat): (r: Outcome)
    requires count <= budget
    ensures count <= r.attempts <= budget
    ensures forall j :: count <= j < r.attempts - 1 ==> verdict(answer(j)) == Again
    ensures r.attempts == count ==> count == budget
    ensures r.attempts == 0 ==> r.last == Ok
    ensures r.attempts > 0 ==> r.last == answer(r.attempts - 1)
    ensures r.success <==> r.attempts > count && verdict(r.last) == Accept
    ensures r.attempts < budget ==> verdict(r.last) != Again
    decreases budget - count
  {
    if count == budget then
      Outcome(false, if count == 0 then Ok else answer(count - 1), count)
    else
      var c := answer(count);
      match verdict(c)
      case Accept => Outcome(true, c, count + 1)
      case Reject => Outcome(false, c, count + 1)
      case Again => Loop(verdict, answer, budget, count + 1)
  }

  /**
   * The retry loop: `for (count = 0; count < budget; ++count)` over the engine's
   * answers. Every answer before the last one asked for another attempt; the loop
   * stops early only on a decisive answer, and succeeds exactly when the last
   * answer is accepted.
   */
  function Run(verdict: Code -> Verdict, answer: Answers, budget: nat): (r: Outcome)
    ensures r.attempts <= budget
    ensures r.attempts == 0 <==> budget == 0
    ensures forall j :: 0 <= j < r.attempts - 1 ==> verdict(answer(j)) == Again
    ensures r.attempts == 0 ==> r.last == Ok && !r.success
    ensures r.attempts > 0 ==> r.last == answer(r.attempts - 1)
    ensures r.success <==> r.attempts > 0 && verdict(r.last) == Accept
    ensures r.attempts < budget ==> verdict(r.last) != Again
  {
    Loop(verdict, answer, budget, 0)
  }

  /** `exec` and `prepare`: `SQLITE_OK` succeeds, `SQLITE_BUSY` retries, anything else fails. */
  function StatementVerdict(c: Code): (v: Verdict)
    ensures v == Accept <==> c == Ok
    ensures v == Again <==> c == Busy
  {
    match c
    case Ok => Accept
    case Busy => Again
    case _ => Reject
  }

  /**
   * `next`: a row or the end of rows succeeds, `SQLITE_BUSY` retries;
   * `SQLITE_MISUSE` fails at once (with its own diagnostic), as does any other code.
   */
  function StepVerdict(c: Code): (v: Verdict)
    ensures v == Accept <==> c == Row || c == Done
    ensures v == Again <==> c == Busy
  {
    match c
    case Row => Accept
    case Done => Accept
    case Busy => Again
    case Misuse => Reject
    case _ => Reject
  }

  /**
   * Contention shorter than the budget is absorbed: `k` busy answers followed by an
   * accepted one succeed after exactly `k + 1` calls.
   */
  lemma {:induction false} BusyThenAccepted(verdict: Code -> Verdict, answer: Answers, budget: nat, k: nat)
    requires k < budget
    requires forall j :: 0 <= j < k ==> verdict(answer(j)) == Again
    requires verdict(answer(k)) == Accept
    ensures Run(verdict, answer, budget) == Outcome(true, answer(k), k + 1)
  {
    LoopAfterBusy(verdict, answer, budget, k, 0);
  }

  /** Contention over the whole budget fails after exactly `budget` calls. */
  lemma BusyThroughout(verdict: Code -> Verdict, answer: Answers, budget: nat)
    requires forall j :: 0 <= j < budget ==> verdict(answer(j)) == Again
    ensures !Run(verdict, answer, budget).success
    ensures Run(verdict, answer, budget).attempts == budget
  {
  }

  lemma {:induction false} LoopAfterBusy(verdict: Code -> Verdict, answer: Answers, budget: nat, k: nat, count: nat)
    requires count <= k < budget
    requires forall j :: count <= j < k ==> verdict(answer(j)) == Again
    requires verdict(answer(k)) == Accept
    ensures Loop(verdict, answer, budget, count) == Outcome(true, answer(k), k + 1)
    decreases k - count
  {
    if count < k {
      LoopAfterBusy(verdict, answer, budget, k, count + 1);
    }
  }
}
