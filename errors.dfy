/** The exceptions the two benchmark drivers can raise, as values. */
module Errors {

  datatype Error =
    | StatisticsError        // statistics.mean on an empty list
    | RequestFailed          // a request or SDK call raised (non-2xx status, timeout, client error)
    | ZeroDivision           // float division by zero
    | KeyMissing(key: string) // a dictionary lookup of an absent key

  datatype Result<T> = Success(value: T) | Failure(error: Error)
}
