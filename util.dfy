/** The response helpers shared by the controllers: the emptiness test on
    JavaScript values, the table of return codes, and the success and
    failure envelopes. */
module Util {
  import opened Contacts

  /** The JavaScript values the helpers inspect. Numbers other than NaN are
      reals; an object is its own enumerable properties. */
  datatype JsValue =
    | Undefined
    | Null
    | Bool(b: bool)
    | Num(n: real)
    | NaN
    | Str(s: string)
    | Arr(items: seq<JsValue>)
    | Obj(props: map<string, JsValue>)

  /** Property access `o[key]`: a missing property reads as undefined. */
  function Get(props: map<string, JsValue>, key: string): (v: JsValue)
    ensures key !in props ==> v == Undefined
    ensures key in props ==> v == props[key]
  {
    if key in props then props[key] else Undefined
  }

  /** The `length` property of a value, when it has one that isn't
      undefined: strings and arrays carry their size, an object carries
      whatever its own `length` property holds, other values have none. */
  function LengthOf(v: JsValue): (r: Option<JsValue>)
    requires !v.Undefined? && !v.Null?
    ensures v.Str? ==> r == Some(Num(|v.s| as real))
    ensures v.Arr? ==> r == Some(Num(|v.items| as real))
    ensures (v.Bool? || v.Num? || v.NaN?) ==> r.None?
  {
    match v
    case Str(s) => Some(Num(|s| as real))
    case Arr(items) => Some(Num(|items| as real))
    case Obj(props) => if "length" in props && !props["length"].Undefined? then Some(props["length"]) else None
    case _ => None
  }

  /** `isEmpty`: undefined, null, the empty string, NaN, or a value whose
      `length` is strictly equal to 0. Each test runs only when the previous
      ones failed, so `length` is never read on undefined or null. */
  function IsEmpty(v: JsValue): (empty: bool)
    ensures v.Undefined? || v.Null? || v.NaN? ==> empty
    ensures v.Bool? || v.Num? ==> !empty
    ensures v.Str? ==> (empty <==> v.s == "")
    ensures v.Arr? ==> (empty <==> v.items == [])
    ensures v.Obj? ==> (empty <==> Get(v.props, "length") == Num(0.0))
  {
    v.Undefined? || v.Null? || v == Str("") || v.NaN?
    || LengthOf(v) == Some(Num(0.0))
  }

  /** JavaScript falsiness. */
  predicate Falsy(v: JsValue) {
    v.Undefined? || v.Null? || v == Bool(false) || v == Num(0.0) || v.NaN? || v == Str("")
  }

  /** Emptiness and falsiness part ways: every empty value other than an
      array or object is falsy, but `false` and 0 are falsy and not empty,
      while an empty array or object is empty and truthy. */
  lemma EmptyVersusFalsy(v: JsValue)
    ensures !v.Arr? && !v.Obj? && IsEmpty(v) ==> Falsy(v)
    ensures (Falsy(v) && !IsEmpty(v)) <==> (v == Bool(false) || v == Num(0.0))
    ensures (IsEmpty(v) && !Falsy(v)) <==> ((v.Arr? || v.Obj?) && IsEmpty(v))
  {
  }

  /** The table of return codes the helpers send. */
  const ReturnCodes: map<string, int> := map[
    "noPermission" := 112,
    "duplicate" := 114,
    "recordNotFound" := 123,
    "available" := 124,
    "notAvailable" := 125,
    "success" := 100,
    "error" := 600
  ]

  /** Reading a return code by name, as a property access on the table. */
  function ReturnCode(name: string): JsValue {
    Get(map k | k in ReturnCodes :: Num(ReturnCodes[k] as real), name)
  }

  /** The codes the helpers read: `success` is 100 and `error` is 600, while
      `validSession` is missing from the table and so reads as undefined. */
  lemma ReturnCodesRead()
    ensures ReturnCode("success") == Num(100.0)
    ensures ReturnCode("error") == Num(600.0)
    ensures "validSession" !in ReturnCodes && ReturnCode("validSession") == Undefined
  {
  }

  /** The body and status of a reply. */
  datatype Envelope = Envelope(status: int, message: string, code: JsValue, data: JsValue)

  /** A mutable JavaScript object passed by reference. */
  class JsObject {
    var props: map<string, JsValue>

    constructor (props: map<string, JsValue>)
      ensures this.props == props
    {
      this.props := props;
    }
  }

  /** `sendSuccess`: when the data's responseCode is empty it is overwritten
      with the `validSession` code, which the table lacks, so the property
      ends up present and undefined; the reply is 200 with the success code
      and the (updated) data. */
  method SendSuccess(data: JsObject) returns (reply: Envelope)
    modifies data
    ensures IsEmpty(Get(old(data.props), "responseCode")) ==>
              data.props == old(data.props)["responseCode" := Undefined]
    ensures !IsEmpty(Get(old(data.props), "responseCode")) ==> data.props == old(data.props)
    ensures IsEmpty(Get(data.props, "responseCode")) <==> IsEmpty(Get(old(data.props), "responseCode"))
    ensures reply == Envelope(200, "success", Num(100.0), Obj(data.props))
  {
    if IsEmpty(Get(data.props, "responseCode")) {
      data.props := data.props["responseCode" := ReturnCode("validSession")];
    }
    reply := Envelope(200, "success", ReturnCode("success"), Obj(data.props));
  }

  /** `sendError`: a 500 reply carrying the failure code and the error. */
  method SendError(err: JsValue) returns (reply: Envelope)
    ensures reply.status == 500 && reply.message == "failure"
    ensures reply.code == Num(600.0) && reply.data == err
  {
    reply := Envelope(500, "failure", ReturnCode("error"), err);
  }
}
