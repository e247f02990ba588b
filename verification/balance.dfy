/**
 The Credit / Debit simulation page (app.py:540-574). The only state kept
 between button presses is the session's current balance. Money is modelled
 as exact reals; the database write is reported as a value, and whether the
 database accepts it is a parameter.
 */
module Balance {
  import opened Wrappers

  /** The minimum balance a withdrawal must leave (app.py:560). */
  const MinimumBalance: real := 1000.0

  /** `st.session_state["curr_balance"]`, absent until a balance is loaded. */
  datatype Session = Session(balance: Option<real>)

  datatype Op = Deposit | Withdraw

  /** The committed `UPDATE accounts SET account_balance = ..., last_updated = ... WHERE customer_id = ...`. */
  datatype Write = Write(customer: string, balance: real, stamp: string)

  /** What the page reports after a button press. */
  datatype Message =
    | AccountNotFound(customer: string)
    | BalanceLoaded(loaded: real)
    | LoadFirst
    | MinimumViolated
    | BalanceUpdated(updated: real)
    | UpdateFailed
    | Silent

  datatype Step = Step(session: Session, message: Message, write: Option<Write>)

  /**
   "Load balance": `rows` are the `account_balance` values the lookup returned
   (none when the query failed). The first row wins; with no row the page
   reports an error and keeps whatever balance the session already held.
   */
  function Load(s: Session, cid: string, rows: seq<real>): (r: Step)
    ensures r.write.None?
    ensures |rows| == 0 ==> r.session == s && r.message == AccountNotFound(cid)
    ensures |rows| > 0 ==> r.session.balance == Some(rows[0]) && r.message == BalanceLoaded(rows[0])
  {
    if |rows| == 0 then Step(s, AccountNotFound(cid), None)
    else Step(Session(Some(rows[0])), BalanceLoaded(rows[0]), None)
  }

  /** True when a withdrawal of `amt` from `cur` is refused by the minimum-balance rule. */
  predicate Refused(op: Op, cur: real, amt: real) {
    op == Withdraw && cur - amt < MinimumBalance
  }

  /** The balance the page settles on before deciding whether to write. */
  function Settle(op: Op, cur: real, amt: real): real {
    match op
    case Deposit => cur + amt
    case Withdraw => if cur - amt < MinimumBalance then cur else cur - amt
  }

  /**
   "Execute transaction". `cid` is the customer id in the text box at the
   time of the press, `now` the timestamp written to `last_updated`, and
   `writeOk` whether the database accepts the UPDATE.
   */
  function Execute(s: Session, cid: string, op: Op, amt: real, now: string, writeOk: bool): (r: Step)
    ensures s.balance.None? ==> r == Step(s, LoadFirst, None)
    ensures r.write.None? ==> r.session == s
    ensures r.write.Some? ==> && s.balance.Some?
                              && r.write.value.balance != s.balance.value
                              && r.session.balance == Some(r.write.value.balance)
                              && r.write.value.customer == cid
                              && r.write.value.stamp == now
    ensures r.write.Some? <==> s.balance.Some? && writeOk && amt != 0.0 && !Refused(op, s.balance.value, amt)
    ensures r.message == MinimumViolated <==> s.balance.Some? && Refused(op, s.balance.value, amt)
    ensures r.write.Some? && op == Deposit ==> r.write.value.balance == s.balance.value + amt
    ensures r.write.Some? && op == Withdraw ==> r.write.value.balance == s.balance.value - amt >= MinimumBalance
  {
    match s.balance
    case None => Step(s, LoadFirst, None)
    case Some(cur) =>
      var newbal := Settle(op, cur, amt);
      if newbal == cur then
        Step(s, if Refused(op, cur, amt) then MinimumViolated else Silent, None)
      else if writeOk then
        Step(Session(Some(newbal)), BalanceUpdated(newbal), Some(Write(cid, newbal, now)))
      else
        Step(s, UpdateFailed, None)
  }

  /** One button press on the page. */
  datatype Press =
    | LoadPress(cid: string, rows: seq<real>)
    | ExecutePress(cid: string, op: Op, amt: real, now: string, writeOk: bool)

  function Apply(s: Session, p: Press): Step {
    match p
    case LoadPress(cid, rows) => Load(s, cid, rows)
    case ExecutePress(cid, op, amt, now, writeOk) => Execute(s, cid, op, amt, now, writeOk)
  }

  /** The session after a sequence of presses. */
  function Run(s: Session, ps: seq<Press>): Session
    decreases |ps|
  {
    if |ps| == 0 then s else Run(Apply(s, ps[0]).session, ps[1..])
  }

  /** Every write the presses commit, in order. */
  function Writes(s: Session, ps: seq<Press>): seq<Write>
    decreases |ps|
  {
    if |ps| == 0 then []
    else
      var step := Apply(s, ps[0]);
      (if step.write.Some? then [step.write.value] else []) + Writes(step.session, ps[1..])
  }

  predicate AtLeastMinimum(s: Session) {
    s.balance.None? || s.balance.value >= MinimumBalance
  }

  /**
   Amounts are never negative: the page's number input has `min_value=0.0`.
   That loaded balances meet the minimum is an assumption about the
   accounts table; the page loads whatever balance the table holds.
   */
  predicate Reasonable(p: Press) {
    match p
    case LoadPress(_, rows) => |rows| > 0 ==> rows[0] >= MinimumBalance
    case ExecutePress(_, _, amt, _, _) => amt >= 0.0
  }

  /**
   Starting from a balance at or above the minimum, no sequence of
   non-negative deposits and withdrawals, and loads of balances that meet
   the minimum, brings the session below it.
   */
  lemma {:induction false} RunKeepsMinimum(s: Session, ps: seq<Press>)
    requires AtLeastMinimum(s)
    requires forall i :: 0 <= i < |ps| ==> Reasonable(ps[i])
    ensures AtLeastMinimum(Run(s, ps))
    decreases |ps|
  {
    if |ps| > 0 {
      assert Reasonable(ps[0]);
      var next := Apply(s, ps[0]).session;
      assert AtLeastMinimum(next);
      assert forall i :: 0 <= i < |ps[1..]| ==> Reasonable(ps[1..][i]) by {
        forall i | 0 <= i < |ps[1..]| ensures Reasonable(ps[1..][i]) {
          assert ps[1..][i] == ps[i + 1];
        }
      }
      RunKeepsMinimum(next, ps[1..]);
    }
  }

  /** The page itself does not enforce the minimum on a load: loading a balance of 500 leaves the session below it. */
  lemma LowLoadBreaksMinimum()
    ensures !AtLeastMinimum(Run(Session(Some(1500.0)), [LoadPress("c1", [500.0])]))
  {
    assert [LoadPress("c1", [500.0])][1..] == [];
  }

  /** Without a loaded balance, execute presses write nothing and leave the session empty. */
  lemma {:induction false} NothingWrittenBeforeLoad(ps: seq<Press>)
    requires forall i :: 0 <= i < |ps| ==> ps[i].ExecutePress?
    ensures Writes(Session(None), ps) == []
    ensures Run(Session(None), ps) == Session(None)
    decreases |ps|
  {
    if |ps| > 0 {
      assert Apply(Session(None), ps[0]) == Step(Session(None), LoadFirst, None);
      assert forall i :: 0 <= i < |ps[1..]| ==> ps[1..][i].ExecutePress? by {
        forall i | 0 <= i < |ps[1..]| ensures ps[1..][i].ExecutePress? {
          assert ps[1..][i] == ps[i + 1];
        }
      }
      NothingWrittenBeforeLoad(ps[1..]);
    }
  }

  /**
   The write goes to the customer id typed at the time of the press, not to
   the one whose balance was loaded: loading customer A and executing with B
   in the box writes A's balance plus the amount to B.
   */
  lemma WriteTargetsTypedCustomer(a: string, b: string, bal: real, amt: real, now: string)
    requires amt > 0.0
    ensures var loaded := Load(Session(None), a, [bal]).session;
            Execute(loaded, b, Deposit, amt, now, true).write == Some(Write(b, bal + amt, now))
  {
  }

  /** Balance 1500: withdrawing 600 is refused, withdrawing 400 leaves 1100, withdrawing 500 leaves exactly the minimum. */
  lemma WithdrawalExamples(cid: string, now: string)
    ensures Execute(Session(Some(1500.0)), cid, Withdraw, 600.0, now, true) == Step(Session(Some(1500.0)), MinimumViolated, None)
    ensures Execute(Session(Some(1500.0)), cid, Withdraw, 400.0, now, true).session == Session(Some(1100.0))
    ensures Execute(Session(Some(1500.0)), cid, Withdraw, 500.0, now, true).session == Session(Some(1000.0))
  {
  }
}
