/**
 * The documents the service passes around: Python values as they come out
 * of JSON (model replies) or out of MongoDB (BSON documents).  A dict is an
 * ordered sequence of (key, value) pairs, as Python dicts keep insertion
 * order; `dict.get` answers with the value of the first pair with that key.
 */
module Values {
  import opened Base

  datatype Value =
    | Null
    | Bool(b: bool)
    | Num(n: real)
    | Str(s: string)
    | ObjectId(hex: string)
    | DateTime(iso: string)
    | List(items: seq<Value>)
    | Tuple(items: seq<Value>)
    | Dict(fields: seq<(string, Value)>)

  type Fields = seq<(string, Value)>

  /** Python truthiness (`if x:` / `not x`). */
  predicate Truthy(v: Value) {
    match v
    case Null => false
    case Bool(b) => b
    case Num(n) => n != 0.0
    case Str(s) => s != ""
    case ObjectId(_) => true
    case DateTime(_) => true
    case List(xs) => xs != []
    case Tuple(xs) => xs != []
    case Dict(f) => f != []
  }

  predicate HasKey(f: Fields, k: string) {
    exists i | 0 <= i < |f| :: f[i].0 == k
  }

  /** `k in d` / `d[k]`: the value stored under `k`, if any. */
  function Lookup(f: Fields, k: string): (r: Option<Value>)
    ensures r.Some? <==> HasKey(f, k)
    ensures r.Some? ==> exists i | 0 <= i < |f| :: f[i] == (k, r.value)
  {
    if f == [] then None
    else if f[0].0 == k then Some(f[0].1)
    else
      var r := Lookup(f[1..], k);
      assert HasKey(f, k) ==> HasKey(f[1..], k) by {
        if HasKey(f, k) {
          var i :| 0 <= i < |f| && f[i].0 == k;
          assert f[1..][i - 1] == f[i];
        }
      }
      assert r.Some? ==> exists i | 0 <= i < |f| :: f[i] == (k, r.value) by {
        if r.Some? {
          var i :| 0 <= i < |f[1..]| && f[1..][i] == (k, r.value);
          assert f[i + 1] == (k, r.value);
        }
      }
      r
  }

  /** `d.get(k)`: the stored value, or None (null) when the key is absent. */
  function Get(f: Fields, k: string): Value {
    Lookup(f, k).GetOr(Null)
  }

  /** `d.setdefault(k, v)` as a new dict: a missing key is appended at the end. */
  function SetDefault(f: Fields, k: string, v: Value): (r: Fields)
    ensures HasKey(f, k) ==> r == f
    ensures !HasKey(f, k) ==> r == f + [(k, v)]
  {
    if HasKey(f, k) then f else f + [(k, v)]
  }

  lemma LookupAppend(f: Fields, k: string, v: Value, j: string)
    ensures Lookup(f + [(k, v)], j) == if HasKey(f, j) then Lookup(f, j) else if j == k then Some(v) else None
  {
    if f != [] {
      assert (f + [(k, v)])[1..] == f[1..] + [(k, v)];
      LookupAppend(f[1..], k, v, j);
      if f[0].0 != j && HasKey(f, j) {
        var i :| 0 <= i < |f| && f[i].0 == j;
        assert f[1..][i - 1] == f[i];
      }
    }
  }
}
