/**
 * The `Result<T>` envelope every controller answers with: a success flag, a
 * message and a payload, built by four static factories.
 */
module Envelope {
  import opened Base

  /** The payload a factory is given: null, a `Boolean`, or any other object. */
  datatype Payload<T> = NullPayload | BoolPayload(b: bool) | ObjectPayload(obj: T)

  datatype Result<T> = Result(success: bool, message: Option<string>, data: Payload<T>)

  const OperationSucceeded := "操作成功"
  const OperationFailed := "操作失败"
  const NotFound := "未找到数据"

  /** `Result.data(x)`: a success carrying `x`, its message chosen by what `x` is. */
  function Data<T>(x: Payload<T>): (r: Result<T>)
    ensures r.success && r.data == x
    ensures r.message == Some(match x
      case BoolPayload(b) => if b then OperationSucceeded else OperationFailed
      case NullPayload => NotFound
      case ObjectPayload(_) => OperationSucceeded)
  {
    var message :=
      if x.BoolPayload? then (if x.b then OperationSucceeded else OperationFailed)
      else if x.NullPayload? then NotFound
      else OperationSucceeded;
    Result(true, Some(message), x)
  }

  /** `Result.success(message)`: a success without data. */
  function Success<T>(message: string): (r: Result<T>)
    ensures r.success && r.message == Some(message) && r.data.NullPayload?
  {
    Result(true, Some(message), NullPayload)
  }

  /** `Result.success(message, data)`. */
  function SuccessWith<T>(message: string, x: Payload<T>): (r: Result<T>)
    ensures r.success && r.message == Some(message) && r.data == x
  {
    Result(true, Some(message), x)
  }

  /** `Result.error(message)`: a failure without data. */
  function Error<T>(message: string): (r: Result<T>)
    ensures !r.success && r.message == Some(message) && r.data.NullPayload?
  {
    Result(false, Some(message), NullPayload)
  }

  /**
   * How the factories relate: only `error` fails; `success(m)` is
   * `success(m, null)`; `data` of a Boolean says whether the operation it
   * reports succeeded; and two envelopes from `data` are equal only when their
   * payloads are.
   */
  lemma FactoriesAgree<T>(m: string, x: Payload<T>, y: Payload<T>)
    ensures Success<T>(m) == SuccessWith(m, NullPayload)
    ensures Error<T>(m) == Success<T>(m).(success := false)
    ensures Data(x).success && Data(x) != Error(m)
    ensures Data<T>(BoolPayload(true)).message != Data<T>(BoolPayload(false)).message
    ensures Data(x) == Data(y) ==> x == y
    ensures Data<T>(NullPayload).message != Data<T>(BoolPayload(true)).message
  {
  }

  /**
   * A caller can read back what built an envelope: each factory keeps its
   * message and payload apart from every other input, and no success
   * envelope is ever an error one.
   */
  lemma FactoriesInjective<T>(m: string, m': string, x: Payload<T>, y: Payload<T>)
    ensures Success<T>(m) == Success<T>(m') ==> m == m'
    ensures Error<T>(m) == Error<T>(m') ==> m == m'
    ensures SuccessWith(m, x) == SuccessWith(m', y) ==> m == m' && x == y
    ensures Error<T>(m) != SuccessWith(m', x) && Error<T>(m) != Data(x)
    ensures Data(x) == SuccessWith(m, y) <==> x == y && Data(x).message == Some(m)
  {
  }
}
