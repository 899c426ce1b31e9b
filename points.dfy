/** The balance snapshot of one user and the error kinds of the point ledger.

    A `UserPoint` is an immutable record: `Charge` and `Use` never change the
    receiver, they return a new snapshot (or an error). Timestamps are taken
    as an opaque `now` argument; nothing is assumed about them. Points are
    unbounded integers (the Java `long` arithmetic is not checked for overflow
    by the source either). */
module Points {

  /** The exceptions of the service, as error kinds. */
  datatype Error = UserNotFound | InvalidAmount | InsufficientBalance | NoHistory

  datatype Result<+T> = Ok(value: T) | Err(error: Error)

  datatype UserPoint = UserPoint(id: int, point: int, updateMillis: int)
  {
    /** A zero-balance snapshot for `id`. */
    static function Empty(id: int, now: int): (r: UserPoint)
      ensures r.id == id && r.point == 0 && r.updateMillis == now
    {
      UserPoint(id, 0, now)
    }

    /** Credit `amount`. As written, only a negative amount is rejected, so
        an amount of 0 is accepted (see `StrictCharge`). */
    function Charge(amount: int, now: int): (r: Result<UserPoint>)
      ensures r.Err? <==> amount < 0
      ensures r.Err? ==> r.error == InvalidAmount
      ensures r.Ok? ==> r.value.id == id && r.value.point == point + amount
      ensures r.Ok? ==> r.value.point >= point
    {
      if amount < 0 then Err(InvalidAmount)
      else Ok(UserPoint(id, point + amount, now))
    }

    /** Debit `amount`. The amount check comes before the funds check; as
        written an amount of 0 is accepted (see `StrictUse`). */
    function Use(amount: int, now: int): (r: Result<UserPoint>)
      ensures amount < 0 ==> r == Err(InvalidAmount)
      ensures 0 <= amount && point < amount ==> r == Err(InsufficientBalance)
      ensures r.Ok? <==> 0 <= amount <= point
      ensures r.Ok? ==> r.value.id == id && r.value.point == point - amount
      ensures r.Ok? ==> 0 <= r.value.point <= point
    {
      if amount < 0 then Err(InvalidAmount)
      else if point < amount then Err(InsufficientBalance)
      else Ok(UserPoint(id, point - amount, now))
    }

    /** `Charge` with the guard its own error message describes: the amount
        must be greater than 0. */
    function StrictCharge(amount: int, now: int): (r: Result<UserPoint>)
      ensures r.Err? <==> amount <= 0
      ensures r.Err? ==> r.error == InvalidAmount
      ensures r.Ok? ==> r.value.id == id && r.value.point == point + amount
      ensures r.Ok? ==> r.value.point > point
    {
      if amount <= 0 then Err(InvalidAmount)
      else Ok(UserPoint(id, point + amount, now))
    }

    /** `Use` with the guard its own error message describes. */
    function StrictUse(amount: int, now: int): (r: Result<UserPoint>)
      ensures amount <= 0 ==> r == Err(InvalidAmount)
      ensures 0 < amount && point < amount ==> r == Err(InsufficientBalance)
      ensures r.Ok? <==> 0 < amount <= point
      ensures r.Ok? ==> r.value.id == id && r.value.point == point - amount
      ensures r.Ok? ==> 0 <= r.value.point < point
    {
      if amount <= 0 then Err(InvalidAmount)
      else if point < amount then Err(InsufficientBalance)
      else Ok(UserPoint(id, point - amount, now))
    }
  }

  /** Charging and then using the same non-negative amount gives back the
      original id and balance. The balance must not be negative to begin with:
      otherwise the charged balance is below `amount` and the use is refused. */
  lemma ChargeThenUse(p: UserPoint, amount: int, t1: int, t2: int)
    requires amount >= 0 && p.point >= 0
    ensures p.Charge(amount, t1).Ok?
    ensures p.Charge(amount, t1).value.Use(amount, t2).Ok?
    ensures p.Charge(amount, t1).value.Use(amount, t2).value.id == p.id
    ensures p.Charge(amount, t1).value.Use(amount, t2).value.point == p.point
  {
  }

  /** As written, both transitions accept an amount of 0 and leave the
      balance where it was (for `Use`, whenever the balance is not negative). */
  lemma ZeroAmountAccepted(p: UserPoint, now: int)
    ensures p.Charge(0, now) == Ok(UserPoint(p.id, p.point, now))
    ensures p.point >= 0 ==> p.Use(0, now) == Ok(UserPoint(p.id, p.point, now))
  {
  }

  /** The corrected transitions reject an amount of 0, and otherwise agree
      with the ones as written. */
  lemma StrictDiffersOnlyAtZero(p: UserPoint, amount: int, now: int)
    ensures p.StrictCharge(0, now) == Err(InvalidAmount)
    ensures p.StrictUse(0, now) == Err(InvalidAmount)
    ensures amount != 0 ==> p.StrictCharge(amount, now) == p.Charge(amount, now)
    ensures amount != 0 ==> p.StrictUse(amount, now) == p.Use(amount, now)
  {
  }
}
