# Point ledger

A model of the point ledger of `io.hhplus.tdd.point`. The ledger keeps one balance record per
user id and an append-only history of transactions.

- `Points` (points.dfy) holds the immutable balance snapshot `UserPoint`. It offers `Empty` and the
  pure transitions `Charge` and `Use`, each of which returns a new snapshot or an error. It also
  defines the error kinds that stand for the service's exceptions: `UserNotFound`,
  `InvalidAmount`, `InsufficientBalance` and `NoHistory`.
- `Ledger` (ledger.dfy) treats the two storage tables as one value, `Store`. The balance table is a
  `map` from user id to snapshot, where an absent key means `selectById` returned null. The history
  table is a `seq` of `PointHistory` rows in insertion order. `ChargeStep` and `UseStep` state what
  one call of the service returns and leaves behind. `Run` applies a sequence of calls. The lemmas
  cover whole sequences of calls: balances stay non-negative, one row is added per successful
  call, and the history replays to the balance.
- `Service` (service.dfy) holds the class `PointService`. Its fields `balances` and `history` stand
  for the two tables. `Charge` and `UsePoint` take the same steps as the Java code: check the
  amount, look up the user, check the funds (debit only), write the balance, then append one row.
  Each of the two is proved equal to its step function. `Point` and `Histories` read the state and
  change nothing.

Where the code and its tests disagree, the model follows the code:

- `charge` tags its history row `USE` (PointService.java:76), but the test expects `CHARGE`
  (PointServiceTest.java:147). The service passes `Service.CHARGE_ROW_KIND`, which is `USE`. The
  step functions take this tag as a parameter, so the same lemmas can cover the intended `CHARGE`.
- The history amount is the requested delta (PointService.java:76, :105). The tests expect the new
  total (PointServiceTest.java:147, :188). The model records the delta. Replay consistency depends
  on recording the delta.
- `UserPoint.charge`/`use` reject only `amount < 0`, so they accept 0. The service rejects
  `amount <= 0`. See Findings.

## Model

| member | source | states |
|---|---|---|
| `Points.UserPoint.Empty` | src/main/java/io/hhplus/tdd/point/UserPoint.java:9-11 | the result has the given id and point 0 |
| `Points.UserPoint.Charge` | src/main/java/io/hhplus/tdd/point/UserPoint.java:14-19 | fails with InvalidAmount exactly when amount < 0; otherwise the new snapshot has the same id and point + amount, never below the old point |
| `Points.UserPoint.Use` | src/main/java/io/hhplus/tdd/point/UserPoint.java:22-30 | amount < 0 gives InvalidAmount, checked before funds; point < amount gives InsufficientBalance; succeeds exactly when 0 <= amount <= point, with the same id and point - amount, which lies between 0 and the old point |
| `Points.UserPoint.StrictCharge` | src/main/java/io/hhplus/tdd/point/UserPoint.java:14-19 | corrected charge: fails exactly when amount <= 0, and on success the point strictly increases by amount |
| `Points.UserPoint.StrictUse` | src/main/java/io/hhplus/tdd/point/UserPoint.java:22-30 | corrected use: InvalidAmount exactly for amount <= 0; succeeds exactly when 0 < amount <= point; the result is non-negative and strictly below the old point |
| `Points.ChargeThenUse` | src/main/java/io/hhplus/tdd/point/UserPoint.java:14-29 | round trip: for amount >= 0 and a non-negative balance, charge then use of the same amount both succeed and give back the same id and point |
| `Points.ZeroAmountAccepted` | src/main/java/io/hhplus/tdd/point/UserPoint.java:14-29 | as written, charge(0) succeeds with the point unchanged, and so does use(0) on a non-negative balance |
| `Points.StrictDiffersOnlyAtZero` | src/main/java/io/hhplus/tdd/point/UserPoint.java:14-29 | the corrected transitions reject 0 and agree with the as-written ones on every other amount |
| `Ledger.HistoryOf` | src/main/java/io/hhplus/tdd/point/service/PointService.java:48 | `selectAllByUserId`: holds exactly the rows of that user, each taken from the table, and no more rows than the table |
| `Ledger.HistoryOfAppend` | src/main/java/io/hhplus/tdd/point/service/PointService.java:104-105 | appending a row adds it at the end of its owner's history and leaves every other user's history the same, so order is kept |
| `Ledger.NetAppend` | src/main/java/io/hhplus/tdd/point/service/PointService.java:104-105 | replaying a history with one more row adds that row's signed amount (CHARGE adds, USE subtracts) |
| `Ledger.ChargeStep` | src/main/java/io/hhplus/tdd/point/service/PointService.java:62-79 | amount <= 0 gives InvalidAmount, then an unknown user gives UserNotFound; any error leaves both tables unchanged; success comes exactly when amount > 0 and the user is known; it returns and stores the snapshot with point old + amount, leaves other users unchanged, adds no user, keeps the history prefix and appends exactly one row (that user, the delta amount, the given type) |
| `Ledger.UseStep` | src/main/java/io/hhplus/tdd/point/service/PointService.java:87-108 | InvalidAmount, then UserNotFound, then InsufficientBalance when old < amount; any error leaves both tables unchanged; success comes exactly when 0 < amount <= old; the stored point old - amount is >= 0; other users are unchanged and exactly one USE row with the delta is appended |
| `Ledger.StepsAgreeWithStrict` | src/main/java/io/hhplus/tdd/point/service/PointService.java:62-108 | for a stored user, what charge/usePoint return equals what the corrected record transitions return for the stored snapshot |
| `Ledger.StepPreservesWellFormed` | src/main/java/io/hhplus/tdd/point/service/PointService.java:62-108 | one call keeps every balance non-negative and keyed by its own id, and keeps the history numbered 1..n with positive amounts |
| `Ledger.RunPreservesWellFormed` | src/main/java/io/hhplus/tdd/point/service/PointService.java:97-102 | over any sequence of charge/use calls the balance never goes negative (and the rest of the well-formedness is kept) |
| `Ledger.RunAppendsOnePerCommit` | src/main/java/io/hhplus/tdd/point/service/PointService.java:62-108 | over any sequence of calls no user is created or removed, the old history stays a prefix, and the history grows by exactly the number of successful calls, so a rejected call adds nothing |
| `Ledger.CommitPreservesReplayable` | src/main/java/io/hhplus/tdd/point/service/PointService.java:73-76 | when the balance write moves by exactly the signed amount of the appended row, every user's balance still equals their replayed history |
| `Ledger.StepPreservesReplayable` | src/main/java/io/hhplus/tdd/point/service/PointService.java:62-108 | with charges tagged CHARGE, one call keeps every user's balance equal to their replayed history |
| `Ledger.RunReplayConsistent` | src/main/java/io/hhplus/tdd/point/service/PointService.java:62-108 | with charges tagged CHARGE, replaying a user's history from zero gives their balance after any sequence of calls |
| `Ledger.ReplayFailsAsWritten` | src/main/java/io/hhplus/tdd/point/service/PointService.java:76 | with charges tagged USE, as written, one charge of 100 on a fresh zero balance leaves a balance of 100 whose history replays to -100 |
| `Service.PointService.constructor` | src/main/java/io/hhplus/tdd/point/service/PointService.java:20-23 | the service is bound to the given balance and history tables |
| `Service.PointService.Point` | src/main/java/io/hhplus/tdd/point/service/PointService.java:31-39 | UserNotFound when no record exists, otherwise that record's point, which is non-negative when the state is well formed; no state changes |
| `Service.PointService.Histories` | src/main/java/io/hhplus/tdd/point/service/PointService.java:47-54 | NoHistory exactly when the user has no rows; otherwise exactly the user's rows in insertion order, each from the table and owned by the user; no state changes |
| `Service.PointService.InsertOrUpdate` | src/main/java/io/hhplus/tdd/point/service/PointService.java:73 | upsert: the user's entry becomes the returned snapshot and nothing else in the balance table changes |
| `Service.PointService.InsertHistory` | src/main/java/io/hhplus/tdd/point/service/PointService.java:76 | append: the history becomes the old one plus the returned row, numbered one past the last |
| `Service.PointService.Charge` | src/main/java/io/hhplus/tdd/point/service/PointService.java:62-79 | result and new tables equal `ChargeStep` with the row type the code writes (USE); a rejected call changes neither table; a successful one appends exactly one row and keeps the prefix; well-formedness is preserved |
| `Service.PointService.UsePoint` | src/main/java/io/hhplus/tdd/point/service/PointService.java:87-108 | result and new tables equal `UseStep`; a rejected call changes neither table; on success the returned point is >= 0 and exactly one row is appended; well-formedness is preserved |

## Findings

| source | as written | input that shows it | evidently intended | confidence | as-written member | corrected member |
|---|---|---|---|---|---|---|
| src/main/java/io/hhplus/tdd/point/service/PointService.java:76 | `charge` appends its history row with type `USE` | user 1 with balance 0 and no history, `charge(1, 100)`: the balance becomes 100, and the history `[100, USE]` replays to -100 | type `CHARGE`, as PointServiceTest.java:147 expects, so that the history replays to the balance | high; not executed | `Ledger.ReplayFailsAsWritten` | `Ledger.RunReplayConsistent` |
| src/main/java/io/hhplus/tdd/point/UserPoint.java:15 | `charge` rejects only `amount < 0`, although its error message says the amount must be greater than 0 | `charge(0)` succeeds and returns the same point | reject `amount <= 0`, as the service does at PointService.java:63 | medium; not executed | `Points.ZeroAmountAccepted` | `Points.UserPoint.StrictCharge` |
| src/main/java/io/hhplus/tdd/point/UserPoint.java:23 | `use` rejects only `amount < 0`, although its error message says the amount must be greater than 0 | `use(0)` on a non-negative balance succeeds and returns the same point | reject `amount <= 0`, as the service does at PointService.java:88 | medium; not executed | `Points.ZeroAmountAccepted` | `Points.UserPoint.StrictUse` |

`Service.PointService.Charge` still writes the type the code writes (`Service.CHARGE_ROW_KIND`,
`USE`), so the class matches the source. The step functions and every lemma over sequences of
calls take the row type as a parameter. The corrected behaviour is that same definition with
`CHARGE`. The service's own arithmetic agrees with the corrected record transitions
(`Ledger.StepsAgreeWithStrict`).

## Left out

- Concurrency and per-user locking: the service has no locking. Every call is modelled as one atomic sequential step.
- Timestamps (`System.currentTimeMillis()`, and the table's own time in `insertOrUpdate`): each call takes an opaque `now` argument, and nothing is assumed about it.
- Java `long` overflow in `point + amount` and `point - amount`: the source does not check it. Points, amounts and ids are unbounded integers.
- The internals of `UserPointTable` and `PointHistoryTable`: these files are not part of this model. They are treated as a map and a sequence with atomic read, upsert and append. The history table is assumed to number rows 1, 2, ... in insertion order.
- A failing storage backend: the code shows no failure path for the tables, so the model has none.
- `ObjectUtils.isEmpty`: a null record is an absent key, and a null or empty history list is an empty sequence.
- Exception classes (`NullPointerException` or `IllegalArgumentException`) and their message texts: each is replaced by an error kind.
- Spring and Lombok wiring (`@Service`, `@RequiredArgsConstructor`): the constructor takes the two tables as values.
- Points.ChargeThenUse: also requires a non-negative starting balance. From a negative balance, charging `amount` leaves less than `amount`, so `use` refuses it. Every balance the ledger keeps is non-negative.
