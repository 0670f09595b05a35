/**
 * Decoded JSON as the provider's payload reaches the normaliser, together with the
 * handful of Python operations the normaliser applies to it: subscription `v[k]`,
 * `v.get(k, d)`, slicing `v[:n]`, truthiness and `str(v)`.
 */
module Json {
  import opened Common

  /** A JSON value after `json.loads`; numbers are integers (floats are not modelled). */
  datatype Value =
    | Null
    | Bool(b: bool)
    | Num(n: int)
    | Str(s: string)
    | Arr(items: seq<Value>)
    | Obj(fields: map<string, Value>)

  /** A flat Python dict with string keys: what the normaliser builds and the stores consume. */
  type Record = map<string, Value>

  /** The sentinel every absent field defaults to. */
  const NA: Value := Str("n/a")

  /** The `{}` that `.get(k, {})` falls back to. */
  const EmptyObj: Value := Obj(map[])

  /**
   * The result of evaluating an expression on one raw record: a value, an error the
   * per-record handler catches (KeyError, TypeError), or an error it does not catch
   * (AttributeError), which ends the whole ingestion cycle.
   */
  datatype Outcome<+T> = Keep(value: T) | Skip | Abort
  {
    predicate IsFailure()
    {
      !Keep?
    }

    function PropagateFailure<U>(): Outcome<U>
      requires IsFailure()
    {
      if Skip? then Skip else Abort
    }

    function Extract(): T
      requires Keep?
    {
      value
    }
  }

  /** `d.get(k, default)` on a dict. */
  function Lookup(d: map<string, Value>, k: string, default: Value): Value
  {
    if k in d then d[k] else default
  }

  /** `v` is the field value when `k` is present (whatever it holds, `null` included) and the sentinel otherwise. */
  predicate Defaulted(d: map<string, Value>, k: string, v: Value)
  {
    (k in d ==> v == d[k]) && (k !in d ==> v == NA)
  }

  /** `v[k]`: KeyError when `v` is a dict without `k`, TypeError when `v` is not a dict. */
  function Subscript(v: Value, k: string): Outcome<Value>
  {
    if v.Obj? && k in v.fields then Keep(v.fields[k]) else Skip
  }

  /** The dict behind `v.get(...)`: calling `.get` on anything else raises AttributeError. */
  function Fields(v: Value): Outcome<map<string, Value>>
  {
    if v.Obj? then Keep(v.fields) else Abort
  }

  /**
   * `v[:n]`: a prefix of a string or of a list; every other value raises
   * TypeError (or KeyError for a dict indexed by a slice).
   */
  function Prefix(v: Value, n: nat): Outcome<Value>
  {
    match v
    case Str(s) => Keep(Str(s[..Min(n, |s|)]))
    case Arr(a) => Keep(Arr(a[..Min(n, |a|)]))
    case _ => Skip
  }

  /** Python truthiness: `None`, `False`, `0`, `""`, `[]` and `{}` are false. */
  predicate Truthy(v: Value)
  {
    match v
    case Null => false
    case Bool(b) => b
    case Num(n) => n != 0
    case Str(s) => |s| > 0
    case Arr(a) => |a| > 0
    case Obj(m) => |m| > 0
  }

  /** `str(v)`; the text of numbers, lists and dicts comes from the uninterpreted `show`. */
  function PyStr(v: Value, show: Value -> string): string
  {
    match v
    case Str(s) => s
    case Null => "None"
    case Bool(b) => if b then "True" else "False"
    case _ => show(v)
  }
}
