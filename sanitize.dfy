/**
 * The two recursive document cleaners: `_sanitize` of app/main.py, which
 * prepares a document for JSON by dropping `_id` keys and turning ObjectIds
 * into strings, and `sanitize` of dump_collections.py, which converts
 * ObjectIds and datetimes to strings and keeps every key.
 */
module Sanitize {
  import opened Base
  import opened Values

  /** No ObjectId, no tuple and no "_id" key anywhere in the value. */
  predicate Clean(v: Value) {
    match v
    case ObjectId(_) => false
    case Tuple(_) => false
    case List(xs) => forall i | 0 <= i < |xs| :: Clean(xs[i])
    case Dict(f) => forall i | 0 <= i < |f| :: f[i].0 != "_id" && Clean(f[i].1)
    case _ => true
  }

  /** "_id" is not a key at any mapping depth. */
  predicate NoIdKey(v: Value) {
    match v
    case List(xs) => forall i | 0 <= i < |xs| :: NoIdKey(xs[i])
    case Tuple(xs) => forall i | 0 <= i < |xs| :: NoIdKey(xs[i])
    case Dict(f) => forall i | 0 <= i < |f| :: f[i].0 != "_id" && NoIdKey(f[i].1)
    case _ => true
  }

  lemma {:induction false} CleanHasNoIdKey(v: Value)
    requires Clean(v)
    ensures NoIdKey(v)
  {
    match v
    case List(xs) =>
      forall i | 0 <= i < |xs| ensures NoIdKey(xs[i]) {
        CleanHasNoIdKey(xs[i]);
      }
    case Dict(f) =>
      forall i | 0 <= i < |f| ensures NoIdKey(f[i].1) {
        CleanHasNoIdKey(f[i].1);
      }
    case _ =>
  }

  /** The pairs of `f` whose key is not "_id", in order. */
  function DropId(f: Fields): (r: Fields)
    ensures forall i | 0 <= i < |r| :: r[i].0 != "_id" && r[i] in f
    ensures forall p <- f | p.0 != "_id" :: p in r
  {
    if f == [] then []
    else if f[0].0 == "_id" then DropId(f[1..])
    else [f[0]] + DropId(f[1..])
  }

  /** `_sanitize` of app/main.py.  A dict keeps every pair but "_id", with
      its value sanitized; a list or tuple becomes a list of sanitized items;
      an ObjectId becomes its hex string; anything else is returned as is. */
  function MainSanitize(v: Value): (r: Value)
    ensures Clean(r)
  {
    match v
    case ObjectId(h) => Str(h)
    case Dict(f) =>
      var g := seq(|f|, i requires 0 <= i < |f| => (f[i].0, MainSanitize(f[i].1)));
      assert forall p <- g :: Clean(p.1) by {
        forall p <- g ensures Clean(p.1) {
          var i :| 0 <= i < |g| && g[i] == p;
        }
      }
      var r := DropId(g);
      assert forall i | 0 <= i < |r| :: Clean(r[i].1) by {
        forall i | 0 <= i < |r| ensures Clean(r[i].1) {
          assert r[i] in g;
        }
      }
      Dict(r)
    case List(xs) => List(seq(|xs|, i requires 0 <= i < |xs| => MainSanitize(xs[i])))
    case Tuple(xs) => List(seq(|xs|, i requires 0 <= i < |xs| => MainSanitize(xs[i])))
    case _ => v
  }

  /** The output of `_sanitize` has no "_id" key at any depth and no ObjectId. */
  lemma MainSanitizeNoIdKey(v: Value)
    ensures NoIdKey(MainSanitize(v))
  {
    CleanHasNoIdKey(MainSanitize(v));
  }

  /** The shape promised by `_sanitize`: ObjectIds become strings, sequences
      keep their length with every item sanitized, mappings keep exactly their
      non-"_id" keys with sanitized values, and other values are unchanged. */
  lemma MainSanitizeShape(v: Value)
    ensures v.ObjectId? ==> MainSanitize(v) == Str(v.hex)
    ensures v.List? || v.Tuple? ==>
      MainSanitize(v).List? && |MainSanitize(v).items| == |v.items|
      && forall i | 0 <= i < |v.items| :: MainSanitize(v).items[i] == MainSanitize(v.items[i])
    ensures v.Dict? ==>
      MainSanitize(v).Dict?
      && forall k :: HasKey(MainSanitize(v).fields, k) <==> HasKey(v.fields, k) && k != "_id"
    ensures v.Dict? ==> forall k, x | k != "_id" && Lookup(v.fields, k) == Some(x) ::
      Lookup(MainSanitize(v).fields, k) == Some(MainSanitize(x))
    ensures !(v.ObjectId? || v.List? || v.Tuple? || v.Dict?) ==> MainSanitize(v) == v
  {
    if v.Dict? {
      var f := v.fields;
      var g := seq(|f|, i requires 0 <= i < |f| => (f[i].0, MainSanitize(f[i].1)));
      assert MainSanitize(v) == Dict(DropId(g));
      MapLookup(f, g);
      DropIdLookup(g);
    }
  }

  lemma {:induction false} MapLookup(f: Fields, g: Fields)
    requires |g| == |f| && forall i | 0 <= i < |f| :: g[i] == (f[i].0, MainSanitize(f[i].1))
    ensures forall k :: HasKey(g, k) <==> HasKey(f, k)
    ensures forall k, x | Lookup(f, k) == Some(x) :: Lookup(g, k) == Some(MainSanitize(x))
  {
    if f != [] {
      MapLookup(f[1..], g[1..]);
      forall k ensures HasKey(g, k) <==> HasKey(f, k) {
        if HasKey(f, k) && f[0].0 != k {
          var i :| 0 <= i < |f| && f[i].0 == k;
          assert g[i].0 == k;
        }
        if HasKey(g, k) && g[0].0 != k {
          var i :| 0 <= i < |g| && g[i].0 == k;
          assert f[i].0 == k;
        }
      }
    }
  }

  lemma {:induction false} DropIdLookup(g: Fields)
    ensures forall k :: HasKey(DropId(g), k) <==> HasKey(g, k) && k != "_id"
    ensures forall k | k != "_id" :: Lookup(DropId(g), k) == Lookup(g, k)
  {
    if g != [] {
      DropIdLookup(g[1..]);
      var r := DropId(g);
      forall k ensures HasKey(r, k) <==> HasKey(g, k) && k != "_id" {
        if HasKey(r, k) {
          var i :| 0 <= i < |r| && r[i].0 == k;
          var j :| 0 <= j < |g| && g[j] == r[i];
        }
        if HasKey(g, k) && k != "_id" {
          var i :| 0 <= i < |g| && g[i].0 == k;
          assert g[i] in r;
          var j :| 0 <= j < |r| && r[j] == g[i];
        }
      }
      forall k | k != "_id" ensures Lookup(r, k) == Lookup(g, k) {
        if g[0].0 != "_id" {
          assert r == [g[0]] + DropId(g[1..]);
          assert r[1..] == DropId(g[1..]);
        }
      }
    }
  }

  /** A clean value is a fixed point of `_sanitize`. */
  lemma {:induction false} MainSanitizeFixesClean(v: Value)
    requires Clean(v)
    ensures MainSanitize(v) == v
  {
    match v
    case List(xs) =>
      forall i | 0 <= i < |xs| ensures MainSanitize(xs[i]) == xs[i] {
        MainSanitizeFixesClean(xs[i]);
      }
      assert MainSanitize(v) == List(xs);
    case Dict(f) =>
      var g := seq(|f|, i requires 0 <= i < |f| => (f[i].0, MainSanitize(f[i].1)));
      forall i | 0 <= i < |f| ensures g[i] == f[i] {
        MainSanitizeFixesClean(f[i].1);
      }
      assert g == f;
      DropIdKeepsClean(f);
    case _ =>
  }

  lemma {:induction false} DropIdKeepsClean(f: Fields)
    requires forall i | 0 <= i < |f| :: f[i].0 != "_id"
    ensures DropId(f) == f
  {
    if f != [] {
      DropIdKeepsClean(f[1..]);
    }
  }

  /** `_sanitize` is idempotent. */
  lemma MainSanitizeIdempotent(v: Value)
    ensures MainSanitize(MainSanitize(v)) == MainSanitize(v)
  {
    MainSanitizeFixesClean(MainSanitize(v));
  }

  /** No ObjectId and no datetime outside a tuple (tuples are left as they are). */
  predicate Exported(v: Value) {
    match v
    case ObjectId(_) => false
    case DateTime(_) => false
    case List(xs) => forall i | 0 <= i < |xs| :: Exported(xs[i])
    case Dict(f) => forall i | 0 <= i < |f| :: Exported(f[i].1)
    case _ => true
  }

  /** `sanitize` of dump_collections.py.  ObjectIds and datetimes become
      strings (the hex digest and the ISO-8601 text); dicts keep every key,
      lists every item; everything else, tuples included, is unchanged. */
  function DumpSanitize(v: Value): (r: Value)
    ensures Exported(r)
  {
    match v
    case ObjectId(h) => Str(h)
    case DateTime(iso) => Str(iso)
    case Dict(f) => Dict(seq(|f|, i requires 0 <= i < |f| => (f[i].0, DumpSanitize(f[i].1))))
    case List(xs) => List(seq(|xs|, i requires 0 <= i < |xs| => DumpSanitize(xs[i])))
    case _ => v
  }

  /** A dict keeps its keys in order, each value dump-sanitized; a list keeps
      its length and order, each item dump-sanitized; tuples and the other
      non-converted values are returned unchanged. */
  lemma DumpSanitizeShape(v: Value)
    ensures v.ObjectId? ==> DumpSanitize(v) == Str(v.hex)
    ensures v.DateTime? ==> DumpSanitize(v) == Str(v.iso)
    ensures v.Dict? ==>
      DumpSanitize(v).Dict? && |DumpSanitize(v).fields| == |v.fields|
      && forall i | 0 <= i < |v.fields| ::
           DumpSanitize(v).fields[i] == (v.fields[i].0, DumpSanitize(v.fields[i].1))
    ensures v.List? ==>
      DumpSanitize(v).List? && |DumpSanitize(v).items| == |v.items|
      && forall i | 0 <= i < |v.items| :: DumpSanitize(v).items[i] == DumpSanitize(v.items[i])
    ensures !(v.ObjectId? || v.DateTime? || v.Dict? || v.List?) ==> DumpSanitize(v) == v
  {
  }

  /** An exported value is a fixed point of `sanitize`. */
  lemma {:induction false} DumpSanitizeFixesExported(v: Value)
    requires Exported(v)
    ensures DumpSanitize(v) == v
  {
    match v
    case List(xs) =>
      forall i | 0 <= i < |xs| ensures DumpSanitize(xs[i]) == xs[i] {
        DumpSanitizeFixesExported(xs[i]);
      }
      assert DumpSanitize(v) == List(xs);
    case Dict(f) =>
      forall i | 0 <= i < |f| ensures DumpSanitize(f[i].1) == f[i].1 {
        DumpSanitizeFixesExported(f[i].1);
      }
      assert DumpSanitize(v).fields == f;
    case _ =>
  }

  /** `sanitize` is idempotent on its own output. */
  lemma DumpSanitizeIdempotent(v: Value)
    ensures DumpSanitize(DumpSanitize(v)) == DumpSanitize(v)
  {
    DumpSanitizeFixesExported(DumpSanitize(v));
  }
}
