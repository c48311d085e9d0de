/** Optional values and typed failures shared by the dashboard's computations. */
module Results {

  datatype Option<T> = None | Some(value: T)

  /** Why a computation produced no figure. Each kind stands for a branch of the
      dashboard where it either shows nothing or stops with a Python exception. */
  datatype Error =
    | NoAmount          // the amount entered is 0, so the `if money:` guard shows nothing
    | EmptySeries       // no price rows, so `iloc[0]` / `iloc[-1]` raises
    | EmptySchedule     // no month start inside [start, end], so `iloc[-1]` raises
    | MissingPrice      // no month start of the schedule has a price: the final row is NaN
    | ZeroWeightTotal   // the weights sum to 0 and a ticker has data: division by zero
    | NoTradingDay      // no trading day on or after the start date: index out of bounds

  datatype Result<T> = Ok(value: T) | Err(error: Error)
}
