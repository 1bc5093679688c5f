/**
 * Error normalisation of src/utils/error.ts: the message shown for a failed
 * request, and the per-field messages of a formatted validation error.
 */
module Errors {
  import opened Wrappers

  /** The message shown when the server sent none. */
  const UnknownError: string := "unknown error: check server"

  /** The key of a formatted validation error that holds its own messages. */
  const ErrorsKey: string := "_errors"

  /** The `data` payload of a failed request: its `msg` field, absent or a string. */
  datatype ErrorData = ErrorData(msg: Option<string>)

  /** A failed request as the caller sees it; `data` is absent or not an object with `msg`. */
  datatype RequestError = RequestError(data: Option<ErrorData>)

  /** True when `err.data && err.data.msg` is truthy, i.e. a non-empty message is present. */
  predicate HasServerMessage(err: RequestError)
    ensures !HasServerMessage(err) <==>
      err.data == None || err.data == Some(ErrorData(None)) || err.data == Some(ErrorData(Some("")))
  {
    err.data.Some? && err.data.value.msg.Some? && err.data.value.msg.value != ""
  }

  /** `parseError`: the server's message when there is one, the fixed fallback otherwise. */
  function ParseError(err: RequestError): (r: string)
    ensures HasServerMessage(err) ==> r == err.data.value.msg.value
    ensures !HasServerMessage(err) ==> r == UnknownError
    ensures r != ""
  {
    if HasServerMessage(err) then
      err.data.value.msg.value
    else
      UnknownError
  }

  /**
   * The value of one entry of `error.format()`: the `_errors` array it holds
   * when it is a nested formatted error, `None` when it has no such property
   * (the top-level `_errors` entry is itself an array).
   */
  datatype Entry = Entry(errors: Option<seq<string>>)

  /** `list[0]`: `undefined` for an empty list. */
  function First(list: seq<string>): (r: Option<string>)
    ensures r.Some? <==> |list| > 0
    ensures r.Some? ==> r.value == list[0]
  {
    if |list| > 0 then Some(list[0]) else None
  }

  /** Every entry other than `_errors` carries an `_errors` array, as `format()` produces. */
  predicate Formatted(err: map<string, Entry>) {
    forall k :: k in err && k != ErrorsKey ==> err[k].errors.Some?
  }

  /**
   * `formatErrorZodMessage` applied to the already formatted error `err`:
   * maps every field to the first message of its `_errors` list, skipping
   * the top-level `_errors` key. When some other entry has no `_errors`
   * array, reading `_errors[0]` throws; the model reports that key.
   */
  method FormatErrorZodMessage(err: map<string, Entry>) returns (r: Result<map<string, Option<string>>, string>)
    ensures r.Success? <==> Formatted(err)
    ensures r.Success? ==> r.value.Keys == err.Keys - {ErrorsKey}
    ensures r.Success? ==> forall k :: k in r.value ==> r.value[k] == First(err[k].errors.value)
    ensures r.Failure? ==> r.error in err && r.error != ErrorsKey && err[r.error].errors.None?
  {
    var response: map<string, Option<string>> := map[];
    var todo := err.Keys;
    while todo != {}
      invariant todo <= err.Keys
      invariant response.Keys == err.Keys - todo - {ErrorsKey}
      invariant forall k :: k in response ==> err[k].errors.Some? && response[k] == First(err[k].errors.value)
      decreases todo
    {
      var key :| key in todo;
      todo := todo - {key};
      if key != ErrorsKey {
        match err[key].errors
        case None =>
          return Failure(key);
        case Some(list) =>
          response := response[key := First(list)];
      }
    }
    return Success(response);
  }
}
