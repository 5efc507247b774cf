/** Values shared by every part of the model. */
module Core {

  datatype Option<+T> = None | Some(value: T)

  datatype Result<+T, +E> = Ok(value: T) | Err(error: E)

  /** Instants are read from one clock and counted in its smallest unit. */
  type Time = int

  /** Primary keys.  Only equality and the order the database sorts them in matter. */
  type Id = nat

  /** A civil date, as a proleptic Gregorian ordinal. */
  type Date = int

  datatype Status = Scheduled | InProgress | PendingValidation | Done | Canceled

  datatype CancelOrigin = Manual | ScheduleSync

  function Max(a: int, b: int): int { if a < b then b else a }

  function Min(a: int, b: int): int { if b < a then b else a }
}
