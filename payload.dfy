/**
 * Request bodies as parsed JSON, and `Object.entries` over them, which the
 * save handler iterates.
 */
module Payload {
  import opened Wrappers

  /** A parsed JSON value; numbers are kept as integers, which is all the handlers compare. */
  datatype Json =
    | JNull
    | JBool(b: bool)
    | JNum(n: int)
    | JStr(s: string)
    | JArr(items: seq<Json>)
    | JObj(fields: seq<(string, Json)>)

  predicate IsDigits(s: string) {
    forall i :: 0 <= i < |s| ==> '0' <= s[i] <= '9'
  }

  /** The property key of array index `n`: its decimal numeral. */
  function IndexKey(n: nat): (r: string)
    ensures |r| >= 1 && IsDigits(r)
  {
    if n < 10 then [('0' as int + n) as char]
    else IndexKey(n / 10) + [('0' as int + n % 10) as char]
  }

  /**
   * `Object.entries(data)`: `None` when it throws (an absent or `null` body
   * field); no entries for a number or a boolean; index keys for an array or
   * a string; the fields, in order, for an object.
   */
  function ObjectEntries(data: Option<Json>): (r: Option<seq<(string, Json)>>)
    ensures r.None? <==> data.None? || data.value.JNull?
    ensures data.Some? && (data.value.JArr? || data.value.JStr?) ==>
      forall k :: 0 <= k < |r.value| ==> IsDigits(r.value[k].0)
    ensures data.Some? && data.value.JObj? ==> r == Some(data.value.fields)
  {
    match data
    case None => None
    case Some(JNull) => None
    case Some(JBool(_)) => Some([])
    case Some(JNum(_)) => Some([])
    case Some(JStr(s)) => Some(seq(|s|, i requires 0 <= i < |s| => (IndexKey(i), JStr([s[i]]))))
    case Some(JArr(items)) => Some(seq(|items|, i requires 0 <= i < |items| => (IndexKey(i), items[i])))
    case Some(JObj(fields)) => Some(fields)
  }
}
