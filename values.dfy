/** JavaScript values as the server's handlers and the client pages see them,
    and the required-field check that all three core files perform. */
module Values {
  import opened Text

  datatype Option<T> = None | Some(value: T) {
    function GetOr(default: T): T {
      match this
      case Some(v) => v
      case None => default
    }
  }

  function Min(a: int, b: int): int { if a <= b then a else b }
  function Max(a: int, b: int): int { if a >= b then a else b }

  /** A JavaScript number. */
  datatype Num = Finite(r: real) | NaN | PosInfinity | NegInfinity

  /** A JavaScript value. Objects and arrays are not looked into; `ref` stands
      for their identity, which is what `===` compares. */
  datatype Value =
    | Undefined
    | Null
    | Bool(b: bool)
    | Number(n: Num)
    | Str(s: string)
    | Composite(ref: nat)

  /** A JavaScript object used as a record: reading an absent key gives undefined.
      The enumeration order of `Object.keys` is not modelled. */
  type Obj = map<string, Value>

  /** `o[k]` in JavaScript. */
  function Get(o: Obj, k: string): Value {
    if k in o then o[k] else Undefined
  }

  /** JavaScript truthiness: `!!v`. */
  predicate Truthy(v: Value) {
    match v
    case Undefined => false
    case Null => false
    case Bool(b) => b
    case Number(n) => !(n == Finite(0.0) || n == NaN)
    case Str(s) => s != ""
    case Composite(_) => true
  }

  /** JavaScript's strict equality `a === b`: like-typed and equal, except that
      NaN equals nothing (and +0 and -0, both the real 0 here, are equal). */
  predicate StrictEquals(a: Value, b: Value) {
    a == b && a != Number(NaN)
  }

  /** A value that can come out of JSON.parse: never undefined and never NaN.
      A number literal too large for a double, such as `1e400`, parses to an
      infinity, so infinities are JSON values here. */
  predicate IsJson(v: Value) {
    !v.Undefined? && v != Number(NaN)
  }

  predicate JsonObject(o: Obj) {
    forall k :: k in o ==> IsJson(o[k])
  }

  /** The required-field test every core file writes the same way:
      `v === undefined || v === null || (typeof v === 'string' && v.trim() === '')`. */
  predicate IsMissing(v: Value) {
    v.Undefined? || v.Null? || (v.Str? && IsBlank(v.s))
  }

  /** The first key of `keys`, in list order, whose value in `o` is missing. */
  function FirstMissing(o: Obj, keys: seq<string>): (r: Option<string>)
    ensures r.None? <==> forall i :: 0 <= i < |keys| ==> !IsMissing(Get(o, keys[i]))
    ensures r.Some? ==> exists i :: 0 <= i < |keys| && keys[i] == r.value &&
                          IsMissing(Get(o, keys[i])) &&
                          forall j :: 0 <= j < i ==> !IsMissing(Get(o, keys[j]))
  {
    if keys == [] then None
    else if IsMissing(Get(o, keys[0])) then Some(keys[0])
    else
      var r := FirstMissing(o, keys[1..]);
      assert r.Some? ==> exists i :: 1 <= i < |keys| && keys[i] == r.value &&
                           IsMissing(Get(o, keys[i])) &&
                           forall j :: 0 <= j < i ==> !IsMissing(Get(o, keys[j])) by {
        if r.Some? {
          var i :| 0 <= i < |keys[1..]| && keys[1..][i] == r.value &&
                   IsMissing(Get(o, keys[1..][i])) &&
                   forall j :: 0 <= j < i ==> !IsMissing(Get(o, keys[1..][j]));
          assert keys[i + 1] == r.value;
          assert forall j :: 1 <= j < i + 1 ==> keys[j] == keys[1..][j - 1];
        }
      }
      r
  }

  /** A key named by `FirstMissing` is one of the checked keys, and a value
      for every key makes the check pass. */
  lemma {:induction false} FirstMissingNamesAKey(o: Obj, keys: seq<string>)
    ensures FirstMissing(o, keys).Some? ==> FirstMissing(o, keys).value in keys
    ensures (forall k :: k in keys ==> !IsMissing(Get(o, k))) ==> FirstMissing(o, keys).None?
  {
    if keys != [] && !IsMissing(Get(o, keys[0])) {
      FirstMissingNamesAKey(o, keys[1..]);
    }
  }

  /** The loop with an early return that the create handler, validateRequired
      and validateStep all run over their lists of required keys. */
  method FindMissing(o: Obj, keys: seq<string>) returns (missing: Option<string>)
    ensures missing == FirstMissing(o, keys)
  {
    for i := 0 to |keys|
      invariant FirstMissing(o, keys) == FirstMissing(o, keys[i..])
    {
      assert keys[i..][1..] == keys[i + 1..];
      if IsMissing(Get(o, keys[i])) {
        return Some(keys[i]);
      }
    }
    return None;
  }

  /** What an awaited call into the backend API gives the page: the value it
      resolved with, or the rejection (with the error's message, when the
      thrown value has a string `message`). */
  datatype Awaited<T> = Resolved(value: T) | Rejected(message: Option<string>)
}
