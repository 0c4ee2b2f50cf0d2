/**
 Decoded JSON values and the few Python operations the parsers apply to them:
 subscripting with a string key, iterating, hashing and `json.loads`.
 */
module Values {
  import opened Dicts

  /** A decoded JSON value or a pandas cell. `Null` is both JSON null (Python
      `None`) and pandas' missing-value `NaN`; numbers and booleans are opaque
      scalars told apart by a tag. */
  datatype Value =
    | Null
    | Str(s: string)
    | Obj(fields: Dict<string, Value>)
    | Arr(items: seq<Value>)
    | Other(tag: nat)

  datatype Option<T> = None | Some(value: T)

  /** The Python exceptions that escape the parsers, plus the two situations
      the model refuses to guess at. */
  datatype Error =
    | KeyError(key: string)
    | TypeError
    | ValueError
    | IndexError
    | DecodeError          // json.JSONDecodeError
    | DuplicateColumns     // a suffix collides again: left unspecified
    | Unsupported          // dict.update with a non-empty list of pairs

  datatype Result<T> = Ok(value: T) | Err(error: Error)

  /** `json.loads` on a `str`: either a decoded value or a decoding failure.
      The decoder is a parameter everywhere; nothing is assumed about it. */
  type Decoder = string -> Option<Value>

  /** `v[key]` for a string key: a dict lookup, a `KeyError` when the dict
      lacks the key, a `TypeError` for every other kind of value. */
  function Subscript(v: Value, key: string): Result<Value>
  {
    if !v.Obj? then Err(TypeError)
    else if key in ToMap(v.fields) then Ok(ToMap(v.fields)[key])
    else Err(KeyError(key))
  }

  /** `for x in v`: a list yields its items, a string its characters, a dict
      its keys; `None` and scalars are not iterable. */
  function Iterate(v: Value): Result<seq<Value>>
  {
    match v
    case Arr(items) => Ok(items)
    case Str(s) => Ok(seq(|s|, i requires 0 <= i < |s| => Str([s[i]])))
    case Obj(fields) => var ks := Keys(fields); Ok(seq(|ks|, i requires 0 <= i < |ks| => Str(ks[i])))
    case Null => Err(TypeError)
    case Other(_) => Err(TypeError)
  }

  /** Lists and dicts cannot be dict keys. */
  predicate Hashable(v: Value)
  {
    !v.Arr? && !v.Obj?
  }

  /** `json.loads(v)`: only a `str` is accepted. */
  function JsonLoads(v: Value, decode: Decoder): Result<Value>
  {
    if !v.Str? then Err(TypeError)
    else match decode(v.s)
      case None => Err(DecodeError)
      case Some(x) => Ok(x)
  }

  /** Applies `f` to every element in order and stops at the first failure,
      as a Python loop does when an exception escapes its body. */
  function Traverse<A, B>(xs: seq<A>, f: A -> Result<B>): (r: Result<seq<B>>)
    ensures r.Ok? <==> forall i | 0 <= i < |xs| :: f(xs[i]).Ok?
    ensures r.Ok? ==> |r.value| == |xs| && forall i | 0 <= i < |xs| :: r.value[i] == f(xs[i]).value
    ensures r.Err? ==> exists j | 0 <= j < |xs| :: f(xs[j]) == Err(r.error) && forall l | 0 <= l < j :: f(xs[l]).Ok?
  {
    if xs == [] then Ok([])
    else match f(xs[0])
      case Err(e) => Err(e)
      case Ok(y) =>
        match Traverse(xs[1..], f)
        case Err(e) =>
          assert forall l | 1 <= l < |xs| :: xs[l] == xs[1..][l - 1];
          Err(e)
        case Ok(ys) =>
          assert forall l | 1 <= l < |xs| :: xs[l] == xs[1..][l - 1];
          Ok([y] + ys)
  }

  /** When every element before `j` succeeds and element `j` fails, the
      traversal fails with element `j`'s error. */
  lemma FirstFailure<A, B>(xs: seq<A>, f: A -> Result<B>, j: nat)
    requires j < |xs| && f(xs[j]).Err?
    requires forall l | 0 <= l < j :: f(xs[l]).Ok?
    ensures Traverse(xs, f) == Err(f(xs[j]).error)
  {
  }

  /** Two traversals that meet the same outcome at every position have the same result. */
  lemma {:induction false} TraverseAgree<A, C, B>(xs: seq<A>, f: A -> Result<B>, ys: seq<C>, g: C -> Result<B>)
    requires |xs| == |ys|
    requires forall i | 0 <= i < |xs| :: f(xs[i]) == g(ys[i])
    ensures Traverse(xs, f) == Traverse(ys, g)
  {
    if xs != [] {
      assert f(xs[0]) == g(ys[0]);
      TraverseAgree(xs[1..], f, ys[1..], g);
    }
  }
}
