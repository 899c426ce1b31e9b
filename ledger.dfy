/** The two storage tables of the point service as one value, and what one
    call of the service does to them.

    The balance table (`UserPointTable`) is a map from user id to the latest
    snapshot; an absent key is a `selectById` that returns null. The history
    table (`PointHistoryTable`) is a sequence in insertion order; `insert`
    appends one row, numbered one past the last, and `selectAllByUserId` is
    `HistoryOf`. The step functions below are the specifications that the
    methods of `Service.PointService` are proved against. */
module Ledger {
  import opened Points

  datatype TransactionType = CHARGE | USE

  /** One row of the history table; `kind` is the Java `type` field. */
  datatype PointHistory = PointHistory(id: int, userId: int, amount: int, kind: TransactionType, updateMillis: int)

  datatype Store = Store(balances: map<int, UserPoint>, history: seq<PointHistory>)

  /** The value a call returns together with the tables after the call. */
  datatype Step<T> = Step(result: Result<T>, after: Store)

  /** The rows of `userId`, in insertion order. */
  function HistoryOf(rows: seq<PointHistory>, userId: int): (r: seq<PointHistory>)
    ensures |r| <= |rows|
    ensures forall h :: h in r ==> h in rows && h.userId == userId
    ensures forall h :: h in rows && h.userId == userId ==> h in r
  {
    if rows == [] then []
    else (if rows[0].userId == userId then [rows[0]] else []) + HistoryOf(rows[1..], userId)
  }

  /** Appending a row extends the owner's history by that row and leaves
      everybody else's history as it was. */
  lemma {:induction false} HistoryOfAppend(rows: seq<PointHistory>, row: PointHistory, userId: int)
    ensures HistoryOf(rows + [row], userId)
         == HistoryOf(rows, userId) + (if row.userId == userId then [row] else [])
  {
    if rows == [] {
      assert rows + [row] == [row];
    } else {
      assert (rows + [row])[1..] == rows[1..] + [row];
      HistoryOfAppend(rows[1..], row, userId);
    }
  }

  /** The change in balance that a row records: a charge adds, a use subtracts. */
  function Delta(h: PointHistory): int {
    if h.kind == CHARGE then h.amount else -h.amount
  }

  /** The balance obtained by replaying `rows` from zero. */
  function Net(rows: seq<PointHistory>): int {
    if rows == [] then 0 else Delta(rows[0]) + Net(rows[1..])
  }

  lemma {:induction false} NetAppend(rows: seq<PointHistory>, row: PointHistory)
    ensures Net(rows + [row]) == Net(rows) + Delta(row)
  {
    if rows == [] {
      assert rows + [row] == [row];
    } else {
      assert (rows + [row])[1..] == rows[1..] + [row];
      NetAppend(rows[1..], row);
    }
  }

  /** Every record is stored under its own id with a non-negative balance, and
      the history rows are numbered 1, 2, ... in insertion order and record
      positive amounts. */
  ghost predicate WellFormed(st: Store) {
    && (forall u :: u in st.balances ==> st.balances[u].id == u && st.balances[u].point >= 0)
    && (forall i :: 0 <= i < |st.history| ==> st.history[i].id == i + 1 && st.history[i].amount > 0)
  }

  /** Every known user's balance is what their history replays to from zero. */
  ghost predicate Replayable(st: Store) {
    forall u :: u in st.balances ==> st.balances[u].point == Net(HistoryOf(st.history, u))
  }

  /** The balance table after a call differs from the one before at most in
      the entry of `userId`, and has the same users. */
  ghost predicate OnlyUserChanged(before: map<int, UserPoint>, after: map<int, UserPoint>, userId: int) {
    && after.Keys == before.Keys
    && forall v :: v in before && v != userId ==> after[v] == before[v]
  }

  /** The history after a call is the one before with exactly one row added
      at the end. */
  ghost predicate AppendedOne(before: seq<PointHistory>, after: seq<PointHistory>, row: PointHistory) {
    && |after| == |before| + 1
    && after[..|before|] == before
    && after[|before|] == row
  }

  /** Write the new balance (`insertOrUpdate`), then append one history row
      (`insert`). */
  function Commit(st: Store, userId: int, newPoint: int, amount: int, kind: TransactionType, now: int): Step<UserPoint> {
    var p := UserPoint(userId, newPoint, now);
    Step(Ok(p), Store(st.balances[userId := p], st.history + [PointHistory(|st.history| + 1, userId, amount, kind, now)]))
  }

  /** `PointService.charge`. `chargeKind` is the type written to the history
      row: the service as written passes `USE` (see `Service.CHARGE_ROW_KIND`). */
  function ChargeStep(st: Store, userId: int, amount: int, now: int, chargeKind: TransactionType): (r: Step<UserPoint>)
    ensures amount <= 0 ==> r == Step(Err(InvalidAmount), st)
    ensures amount > 0 && userId !in st.balances ==> r == Step(Err(UserNotFound), st)
    ensures r.result.Err? ==> r.after == st
    ensures r.result.Ok? <==> amount > 0 && userId in st.balances
    ensures r.result.Ok? ==>
      && r.result.value.id == userId
      && r.result.value.point == st.balances[userId].point + amount
      && r.result.value.point > st.balances[userId].point
      && userId in r.after.balances && r.after.balances[userId] == r.result.value
      && OnlyUserChanged(st.balances, r.after.balances, userId)
      && AppendedOne(st.history, r.after.history, PointHistory(|st.history| + 1, userId, amount, chargeKind, now))
  {
    if amount <= 0 then Step(Err(InvalidAmount), st)
    else if userId !in st.balances then Step(Err(UserNotFound), st)
    else Commit(st, userId, st.balances[userId].point + amount, amount, chargeKind, now)
  }

  /** `PointService.usePoint`. */
  function UseStep(st: Store, userId: int, amount: int, now: int): (r: Step<UserPoint>)
    ensures amount <= 0 ==> r == Step(Err(InvalidAmount), st)
    ensures amount > 0 && userId !in st.balances ==> r == Step(Err(UserNotFound), st)
    ensures amount > 0 && userId in st.balances && st.balances[userId].point < amount ==>
      r == Step(Err(InsufficientBalance), st)
    ensures r.result.Err? ==> r.after == st
    ensures r.result.Ok? <==> amount > 0 && userId in st.balances && amount <= st.balances[userId].point
    ensures r.result.Ok? ==>
      && r.result.value.id == userId
      && r.result.value.point == st.balances[userId].point - amount
      && 0 <= r.result.value.point < st.balances[userId].point
      && userId in r.after.balances && r.after.balances[userId] == r.result.value
      && OnlyUserChanged(st.balances, r.after.balances, userId)
      && AppendedOne(st.history, r.after.history, PointHistory(|st.history| + 1, userId, amount, USE, now))
  {
    if amount <= 0 then Step(Err(InvalidAmount), st)
    else if userId !in st.balances then Step(Err(UserNotFound), st)
    else if st.balances[userId].point < amount then Step(Err(InsufficientBalance), st)
    else Commit(st, userId, st.balances[userId].point - amount, amount, USE, now)
  }

  /** The service does its own arithmetic instead of calling the record's
      transitions; what it returns is what the corrected record transitions
      return for the stored snapshot. */
  lemma StepsAgreeWithStrict(st: Store, userId: int, amount: int, now: int, chargeKind: TransactionType)
    requires userId in st.balances && st.balances[userId].id == userId
    ensures ChargeStep(st, userId, amount, now, chargeKind).result == st.balances[userId].StrictCharge(amount, now)
    ensures UseStep(st, userId, amount, now).result == st.balances[userId].StrictUse(amount, now)
  {
  }

  /** A mutating call of the service. */
  datatype Op = ChargeOp(userId: int, amount: int, now: int) | UseOp(userId: int, amount: int, now: int)

  function Apply(st: Store, op: Op, chargeKind: TransactionType): Step<UserPoint> {
    match op
    case ChargeOp(u, a, t) => ChargeStep(st, u, a, t, chargeKind)
    case UseOp(u, a, t) => UseStep(st, u, a, t)
  }

  /** The tables after the calls `ops`, one after the other. */
  function Run(st: Store, ops: seq<Op>, chargeKind: TransactionType): Store
    decreases |ops|
  {
    if ops == [] then st else Run(Apply(st, ops[0], chargeKind).after, ops[1..], chargeKind)
  }

  /** How many of the calls `ops` succeed. */
  function Committed(st: Store, ops: seq<Op>, chargeKind: TransactionType): nat
    decreases |ops|
  {
    if ops == [] then 0
    else (if Apply(st, ops[0], chargeKind).result.Ok? then 1 else 0)
         + Committed(Apply(st, ops[0], chargeKind).after, ops[1..], chargeKind)
  }

  lemma StepPreservesWellFormed(st: Store, op: Op, chargeKind: TransactionType)
    requires WellFormed(st)
    ensures WellFormed(Apply(st, op, chargeKind).after)
  {
  }

  /** No sequence of calls makes a balance negative, re-keys a record, or
      breaks the numbering of the history. */
  lemma {:induction false} RunPreservesWellFormed(st: Store, ops: seq<Op>, chargeKind: TransactionType)
    requires WellFormed(st)
    ensures WellFormed(Run(st, ops, chargeKind))
    decreases |ops|
  {
    if ops != [] {
      StepPreservesWellFormed(st, ops[0], chargeKind);
      RunPreservesWellFormed(Apply(st, ops[0], chargeKind).after, ops[1..], chargeKind);
    }
  }

  /** Over any sequence of calls: no user is created or removed, the history
      that existed is kept as a prefix, and exactly one row is added per
      successful call (so none for a rejected one). */
  lemma {:induction false} RunAppendsOnePerCommit(st: Store, ops: seq<Op>, chargeKind: TransactionType)
    ensures Run(st, ops, chargeKind).balances.Keys == st.balances.Keys
    ensures |Run(st, ops, chargeKind).history| == |st.history| + Committed(st, ops, chargeKind)
    ensures Run(st, ops, chargeKind).history[..|st.history|] == st.history
    decreases |ops|
  {
    if ops != [] {
      var next := Apply(st, ops[0], chargeKind).after;
      RunAppendsOnePerCommit(next, ops[1..], chargeKind);
      var final := Run(next, ops[1..], chargeKind);
      assert |st.history| <= |next.history|;
      assert next.history[..|st.history|] == st.history;
      calc {
        final.history[..|st.history|];
        == final.history[..|next.history|][..|st.history|];
        == next.history[..|st.history|];
      }
    }
  }

  /** Writing a balance that moves by exactly what the appended row records
      keeps every user's balance equal to their replayed history. */
  lemma CommitPreservesReplayable(st: Store, userId: int, newPoint: int, amount: int, kind: TransactionType, now: int)
    requires Replayable(st) && userId in st.balances
    requires newPoint == st.balances[userId].point + Delta(PointHistory(|st.history| + 1, userId, amount, kind, now))
    ensures Replayable(Commit(st, userId, newPoint, amount, kind, now).after)
  {
    var row := PointHistory(|st.history| + 1, userId, amount, kind, now);
    var after := Commit(st, userId, newPoint, amount, kind, now).after;
    assert after.history == st.history + [row];
    forall u | u in after.balances
      ensures after.balances[u].point == Net(HistoryOf(after.history, u))
    {
      HistoryOfAppend(st.history, row, u);
      var was := HistoryOf(st.history, u);
      assert st.balances[u].point == Net(was);
      if u == userId {
        NetAppend(was, row);
        assert HistoryOf(after.history, u) == was + [row];
      } else {
        assert HistoryOf(after.history, u) == was + [];
        assert was + [] == was;
      }
    }
  }

  lemma StepPreservesReplayable(st: Store, op: Op)
    requires Replayable(st)
    ensures Replayable(Apply(st, op, CHARGE).after)
  {
    match op
    case ChargeOp(u, a, t) =>
      if a > 0 && u in st.balances {
        CommitPreservesReplayable(st, u, st.balances[u].point + a, a, CHARGE, t);
      }
    case UseOp(u, a, t) =>
      if a > 0 && u in st.balances && a <= st.balances[u].point {
        CommitPreservesReplayable(st, u, st.balances[u].point - a, a, USE, t);
      }
  }

  /** With charges recorded as `CHARGE`, replaying a user's history from zero
      gives their balance after any sequence of calls, provided it did before. */
  lemma {:induction false} RunReplayConsistent(st: Store, ops: seq<Op>)
    requires Replayable(st)
    ensures Replayable(Run(st, ops, CHARGE))
    decreases |ops|
  {
    if ops != [] {
      StepPreservesReplayable(st, ops[0]);
      RunReplayConsistent(Apply(st, ops[0], CHARGE).after, ops[1..]);
    }
  }

  /** With charges recorded as `USE`, as the service does, a single charge of
      100 on a fresh zero balance already breaks replay: the balance is 100,
      the history replays to -100. */
  lemma ReplayFailsAsWritten()
    ensures Replayable(Store(map[1 := UserPoint.Empty(1, 0)], []))
    ensures !Replayable(Apply(Store(map[1 := UserPoint.Empty(1, 0)], []), ChargeOp(1, 100, 0), USE).after)
  {
    var st := Store(map[1 := UserPoint.Empty(1, 0)], []);
    var after := Apply(st, ChargeOp(1, 100, 0), USE).after;
    var row := PointHistory(1, 1, 100, USE, 0);
    assert after.history == [row];
    assert HistoryOf(after.history, 1) == [row];
    assert Net([row]) == -100;
    assert after.balances[1].point == 100;
  }
}
