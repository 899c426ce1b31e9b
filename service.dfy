/** `PointService`: the ledger object. Its two fields stand for the two tables
    it is wired to; the mutators run the same guard sequence as the Java code
    (amount, then user lookup, then funds for a debit) and only then write the
    balance and append one history row. Each method is proved against the
    step function of the same name in `Ledger`. */
module Service {
  import opened Points
  import opened Ledger

  /** The history type that `charge` writes. The service as written tags a
      charge with `USE`; replay of the history needs `CHARGE` (see
      `Ledger.ReplayFailsAsWritten` and `Ledger.RunReplayConsistent`). */
  const CHARGE_ROW_KIND: TransactionType := USE

  class PointService {
    /** `UserPointTable`: an absent key is a user `selectById` returns null for. */
    var balances: map<int, UserPoint>
    /** `PointHistoryTable`, in insertion order. */
    var history: seq<PointHistory>

    /** Both tables as one value. */
    function State(): Store
      reads this
    {
      Store(balances, history)
    }

    ghost predicate Valid()
      reads this
    {
      WellFormed(State())
    }

    constructor (balances0: map<int, UserPoint>, history0: seq<PointHistory>)
      ensures balances == balances0 && history == history0
    {
      balances := balances0;
      history := history0;
    }

    /** `point`: the balance of a known user. */
    method Point(userId: int) returns (r: Result<int>)
      ensures userId !in balances ==> r == Err(UserNotFound)
      ensures userId in balances ==> r == Ok(balances[userId].point)
      ensures Valid() && r.Ok? ==> r.value >= 0
    {
      if userId !in balances {
        return Err(UserNotFound);
      }
      return Ok(balances[userId].point);
    }

    /** `histories`: the user's rows, in insertion order, or `NoHistory` when
        there are none. */
    method Histories(userId: int) returns (r: Result<seq<PointHistory>>)
      ensures r.Err? <==> HistoryOf(history, userId) == []
      ensures r.Err? ==> r.error == NoHistory
      ensures r.Ok? ==> r.value == HistoryOf(history, userId)
      ensures r.Ok? ==> forall h :: h in r.value ==> h in history && h.userId == userId
    {
      var rows := HistoryOf(history, userId);
      if |rows| == 0 {
        return Err(NoHistory);
      }
      return Ok(rows);
    }

    /** `userPointTable.insertOrUpdate`. */
    method InsertOrUpdate(userId: int, newPoint: int, now: int) returns (p: UserPoint)
      modifies this`balances
      ensures p == UserPoint(userId, newPoint, now)
      ensures balances == old(balances)[userId := p]
    {
      p := UserPoint(userId, newPoint, now);
      balances := balances[userId := p];
    }

    /** `pointHistoryTable.insert`: the new row is numbered one past the last. */
    method InsertHistory(userId: int, amount: int, kind: TransactionType, now: int) returns (row: PointHistory)
      modifies this`history
      ensures row == PointHistory(|old(history)| + 1, userId, amount, kind, now)
      ensures history == old(history) + [row]
    {
      row := PointHistory(|history| + 1, userId, amount, kind, now);
      history := history + [row];
    }

    /** `charge`: credit a known user by a positive amount. */
    method Charge(userId: int, amount: int, now: int) returns (r: Result<UserPoint>)
      modifies this
      ensures Step(r, State()) == ChargeStep(old(State()), userId, amount, now, CHARGE_ROW_KIND)
      ensures r.Err? ==> balances == old(balances) && history == old(history)
      ensures r.Ok? ==> |history| == |old(history)| + 1 && history[..|old(history)|] == old(history)
      ensures old(Valid()) ==> Valid()
    {
      if Valid() {
        StepPreservesWellFormed(State(), ChargeOp(userId, amount, now), CHARGE_ROW_KIND);
      }
      if amount <= 0 {
        return Err(InvalidAmount);
      }
      if userId !in balances {
        return Err(UserNotFound);
      }
      var point := balances[userId];
      point := InsertOrUpdate(userId, point.point + amount, now);
      var _ := InsertHistory(userId, amount, CHARGE_ROW_KIND, now);
      return Ok(point);
    }

    /** `usePoint`: debit a known user by a positive amount they can cover. */
    method UsePoint(userId: int, amount: int, now: int) returns (r: Result<UserPoint>)
      modifies this
      ensures Step(r, State()) == UseStep(old(State()), userId, amount, now)
      ensures r.Err? ==> balances == old(balances) && history == old(history)
      ensures r.Ok? ==> |history| == |old(history)| + 1 && history[..|old(history)|] == old(history)
      ensures r.Ok? ==> r.value.point >= 0
      ensures old(Valid()) ==> Valid()
    {
      if Valid() {
        StepPreservesWellFormed(State(), UseOp(userId, amount, now), CHARGE_ROW_KIND);
      }
      if amount <= 0 {
        return Err(InvalidAmount);
      }
      if userId !in balances {
        return Err(UserNotFound);
      }
      var point := balances[userId];
      if point.point < amount {
        return Err(InsufficientBalance);
      }
      point := InsertOrUpdate(userId, point.point - amount, now);
      var _ := InsertHistory(userId, amount, USE, now);
      return Ok(point);
    }
  }
}
