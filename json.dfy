/** JSON values as the request handlers see them after body parsing, with
    JavaScript's truthiness and the object spread `{ k: v, ...o }`. */
module Json {

  datatype Option<+T> = None | Some(value: T)

  /** A parsed JSON value. Numbers are kept as exact reals: the handlers only
      compare them with zero and pass them on. An object is its list of
      entries in key order. */
  datatype Json =
    | JNull
    | JBool(b: bool)
    | JNum(n: real)
    | JStr(s: string)
    | JArr(items: seq<Json>)
    | JObj(fields: seq<(string, Json)>)

  type Fields = seq<(string, Json)>

  /** JavaScript's `!!x` for a property read: `undefined` (a missing key),
      `null`, `false`, `0` and `""` are falsy, everything else is truthy. */
  predicate Truthy(v: Option<Json>)
  {
    match v
    case None => false
    case Some(JNull) => false
    case Some(JBool(b)) => b
    case Some(JNum(n)) => n != 0.0
    case Some(JStr(s)) => s != ""
    case Some(JArr(_)) => true
    case Some(JObj(_)) => true
  }

  lemma FalsyValues(v: Option<Json>)
    ensures !Truthy(v) <==>
      v == None || v == Some(JNull) || v == Some(JBool(false)) ||
      v == Some(JNum(0.0)) || v == Some(JStr(""))
  {
  }

  /** `Object.keys`: the keys of an entry list, in order. */
  function Keys<V>(fs: seq<(string, V)>): seq<string>
  {
    seq(|fs|, i requires 0 <= i < |fs| => fs[i].0)
  }

  lemma KeysCons<V>(fs: seq<(string, V)>)
    requires fs != []
    ensures Keys(fs) == [fs[0].0] + Keys(fs[1..])
  {
    assert Keys(fs)[0] == fs[0].0;
  }

  /** Objects produced by JSON parsing never repeat a key. */
  ghost predicate DistinctKeys<V>(fs: seq<(string, V)>)
  {
    forall i, j :: 0 <= i < j < |fs| ==> fs[i].0 != fs[j].0
  }

  /** The value of key `k` in an entry list, `None` when absent. */
  function Lookup(fs: Fields, k: string): (r: Option<Json>)
    ensures r.None? <==> k !in Keys(fs)
    ensures r.Some? ==> (k, r.value) in fs
    ensures forall i :: 0 <= i < |fs| && fs[i].0 == k ==> r.Some?
    ensures DistinctKeys(fs) ==> forall i :: 0 <= i < |fs| && fs[i].0 == k ==> r == Some(fs[i].1)
  {
    if fs == [] then None
    else
      KeysCons(fs);
      if fs[0].0 == k then Some(fs[0].1) else Lookup(fs[1..], k)
  }

  /** Property read `o.k` on a parsed body; any non-object has no such property. */
  function Get(body: Json, k: string): (r: Option<Json>)
    ensures r.Some? <==> body.JObj? && k in Keys(body.fields)
    ensures r.Some? ==> (k, r.value) in body.fields
    ensures body.JObj? && DistinctKeys(body.fields) ==>
      forall i :: 0 <= i < |body.fields| && body.fields[i].0 == k ==> r == Some(body.fields[i].1)
  {
    if body.JObj? then Lookup(body.fields, k) else None
  }

  /** The entries of `fs` whose key is not `k`, in order. */
  function Without(fs: Fields, k: string): (r: Fields)
    ensures k !in Keys(r)
    ensures forall e :: e in r <==> e in fs && e.0 != k
    ensures k !in Keys(fs) ==> r == fs
  {
    if fs == [] then []
    else
      KeysCons(fs);
      var rest := Without(fs[1..], k);
      if fs[0].0 == k then rest
      else
        KeysCons([fs[0]] + rest);
        assert ([fs[0]] + rest)[1..] == rest;
        [fs[0]] + rest
  }

  /** Defining property `k` on an object: an existing key keeps its place and
      takes the new value, a new key goes last. */
  function Put(o: Fields, k: string, v: Json): (r: Fields)
    ensures k in Keys(o) ==> Keys(r) == Keys(o)
    ensures k !in Keys(o) ==> r == o + [(k, v)]
    ensures Lookup(r, k) == Some(v)
    ensures forall j :: j != k ==> Lookup(r, j) == Lookup(o, j)
  {
    if k in Keys(o) then
      var r := Replace(o, k, v);
      ReplaceLookup(o, k, v);
      r
    else
      AppendLookup(o, k, v);
      o + [(k, v)]
  }

  /** Every entry with key `k` takes the value `v`, in place. */
  function Replace(o: Fields, k: string, v: Json): (r: Fields)
  {
    seq(|o|, i requires 0 <= i < |o| => if o[i].0 == k then (k, v) else o[i])
  }

  lemma {:induction false} ReplaceLookup(o: Fields, k: string, v: Json)
    requires k in Keys(o)
    ensures Keys(Replace(o, k, v)) == Keys(o)
    ensures Lookup(Replace(o, k, v), k) == Some(v)
    ensures forall j :: j != k ==> Lookup(Replace(o, k, v), j) == Lookup(o, j)
    decreases |o|
  {
    var r := Replace(o, k, v);
    assert Keys(r) == Keys(o);
    if o[0].0 != k {
      assert Keys(o) == [o[0].0] + Keys(o[1..]);
      assert r[1..] == Replace(o[1..], k, v);
      ReplaceLookup(o[1..], k, v);
    } else {
      forall j | j != k ensures Lookup(r, j) == Lookup(o, j) {
        ReplaceOthers(o, k, v, j);
      }
    }
  }

  lemma {:induction false} ReplaceOthers(o: Fields, k: string, v: Json, j: string)
    requires j != k
    ensures Lookup(Replace(o, k, v), j) == Lookup(o, j)
    decreases |o|
  {
    if o != [] {
      assert Replace(o, k, v)[1..] == Replace(o[1..], k, v);
      ReplaceOthers(o[1..], k, v, j);
    }
  }

  lemma {:induction false} AppendLookup(o: Fields, k: string, v: Json)
    requires k !in Keys(o)
    ensures Lookup(o + [(k, v)], k) == Some(v)
    ensures forall j :: j != k ==> Lookup(o + [(k, v)], j) == Lookup(o, j)
    decreases |o|
  {
    var r := o + [(k, v)];
    if o != [] {
      assert o[0].0 == Keys(o)[0];
      assert Keys(o) == [o[0].0] + Keys(o[1..]);
      assert r[1..] == o[1..] + [(k, v)];
      AppendLookup(o[1..], k, v);
    }
  }

  /** `{ ...o, ...src }`: defines every entry of `src` on `o`, in order. */
  function Spread(o: Fields, src: Fields): Fields
    decreases |src|
  {
    if src == [] then o else Spread(Put(o, src[0].0, src[0].1), src[1..])
  }

  /** `src.id` when present, otherwise `x`. */
  function IdOr(src: Fields, x: Json): Json
  {
    match Lookup(src, "id")
    case Some(v) => v
    case None => x
  }

  /** The response object `{ id: x, ...src }` of the create and update handlers. */
  function Echo(x: Json, src: Fields): Fields
  {
    Spread([("id", x)], src)
  }

  lemma PutIdFront(x: Json, v: Json, p: Fields)
    requires "id" !in Keys(p)
    ensures Put([("id", x)] + p, "id", v) == [("id", v)] + p
  {
    var o := [("id", x)] + p;
    assert o[0].0 == "id";
    KeysCons(o);
    assert Put(o, "id", v) == Replace(o, "id", v);
    forall i | 0 <= i < |o| ensures Replace(o, "id", v)[i] == ([("id", v)] + p)[i] {
      if i > 0 {
        assert o[i] == p[i - 1];
        assert p[i - 1].0 == Keys(p)[i - 1];
      }
    }
  }

  lemma PutAppend(x: Json, p: Fields, k: string, v: Json)
    requires k != "id" && k !in Keys(p)
    ensures Put([("id", x)] + p, k, v) == [("id", x)] + (p + [(k, v)])
  {
    var o := [("id", x)] + p;
    assert k !in Keys(o) by {
      forall i | 0 <= i < |o| ensures o[i].0 != k {
        if i > 0 {
          assert o[i] == p[i - 1];
          assert p[i - 1].0 == Keys(p)[i - 1];
        }
      }
    }
  }

  ghost predicate Disjoint(p: Fields, q: Fields)
  {
    forall i, j :: 0 <= i < |p| && 0 <= j < |q| ==> p[i].0 != q[j].0
  }

  lemma DistinctTail(src: Fields)
    requires src != [] && DistinctKeys(src)
    ensures DistinctKeys(src[1..])
    ensures src[0].0 !in Keys(src[1..])
  {
    var rest := src[1..];
    forall i, j | 0 <= i < j < |rest| ensures rest[i].0 != rest[j].0 {
      assert rest[i] == src[i + 1] && rest[j] == src[j + 1];
    }
    forall i | 0 <= i < |rest| ensures rest[i].0 != src[0].0 {
      assert rest[i] == src[i + 1];
    }
  }

  lemma {:induction false} SpreadAfterId(x: Json, p: Fields, src: Fields)
    requires DistinctKeys(src)
    requires "id" !in Keys(p)
    requires Disjoint(p, src)
    ensures Spread([("id", x)] + p, src) == [("id", IdOr(src, x))] + p + Without(src, "id")
    decreases |src|
  {
    if src != [] {
      DistinctTail(src);
      assert Disjoint(p, src[1..]) by {
        forall i, j | 0 <= i < |p| && 0 <= j < |src[1..]| ensures p[i].0 != src[1..][j].0 {
          assert src[1..][j] == src[j + 1];
        }
      }
      if src[0].0 == "id" {
        SpreadIdStep(x, p, src);
      } else {
        SpreadOtherStep(x, p, src);
      }
    }
  }

  lemma {:induction false} SpreadIdStep(x: Json, p: Fields, src: Fields)
    requires src != [] && src[0].0 == "id"
    requires DistinctKeys(src[1..]) && src[0].0 !in Keys(src[1..])
    requires "id" !in Keys(p)
    requires Disjoint(p, src[1..])
    ensures Spread([("id", x)] + p, src) == [("id", IdOr(src, x))] + p + Without(src, "id")
    decreases |src|, 0
  {
    var v, rest := src[0].1, src[1..];
    calc {
      Spread([("id", x)] + p, src);
      Spread(Put([("id", x)] + p, "id", v), rest);
      { PutIdFront(x, v, p); }
      Spread([("id", v)] + p, rest);
      { SpreadAfterId(v, p, rest); }
      [("id", IdOr(rest, v))] + p + Without(rest, "id");
    }
    assert Lookup(rest, "id") == None;
    assert Lookup(src, "id") == Some(v);
    assert Without(src, "id") == Without(rest, "id");
  }

  lemma ShiftElement<T>(a: seq<T>, p: seq<T>, e: T, w: seq<T>)
    ensures a + (p + [e]) + w == a + p + ([e] + w)
  {
  }

  lemma ExtendDisjoint(p: Fields, src: Fields)
    requires src != [] && src[0].0 != "id"
    requires src[0].0 !in Keys(src[1..])
    requires "id" !in Keys(p)
    requires Disjoint(p, src)
    requires Disjoint(p, src[1..])
    ensures src[0].0 !in Keys(p)
    ensures "id" !in Keys(p + [src[0]])
    ensures Disjoint(p + [src[0]], src[1..])
  {
    var k, rest, p' := src[0].0, src[1..], p + [src[0]];
    assert k !in Keys(p) by {
      forall i | 0 <= i < |p| ensures Keys(p)[i] != k {
        assert p[i].0 != src[0].0;
      }
    }
    assert Keys(p') == Keys(p) + [k];
    forall i, j | 0 <= i < |p'| && 0 <= j < |rest| ensures p'[i].0 != rest[j].0 {
      if i < |p| {
        assert p'[i] == p[i];
      } else {
        assert rest[j].0 == Keys(rest)[j];
      }
    }
  }

  lemma {:induction false} SpreadOtherStep(x: Json, p: Fields, src: Fields)
    requires src != [] && src[0].0 != "id"
    requires DistinctKeys(src[1..]) && src[0].0 !in Keys(src[1..])
    requires "id" !in Keys(p)
    requires Disjoint(p, src)
    requires Disjoint(p, src[1..])
    ensures Spread([("id", x)] + p, src) == [("id", IdOr(src, x))] + p + Without(src, "id")
    decreases |src|, 0
  {
    var e, rest := src[0], src[1..];
    var p' := p + [e];
    ExtendDisjoint(p, src);
    calc {
      Spread([("id", x)] + p, src);
      Spread(Put([("id", x)] + p, e.0, e.1), rest);
      { PutAppend(x, p, e.0, e.1); assert (e.0, e.1) == e; }
      Spread([("id", x)] + p', rest);
      { SpreadAfterId(x, p', rest); }
      [("id", IdOr(rest, x))] + p' + Without(rest, "id");
      { assert Lookup(src, "id") == Lookup(rest, "id"); }
      [("id", IdOr(src, x))] + (p + [e]) + Without(rest, "id");
      { ShiftElement([("id", IdOr(src, x))], p, e, Without(rest, "id")); }
      [("id", IdOr(src, x))] + p + ([e] + Without(rest, "id"));
      { assert Without(src, "id") == [e] + Without(rest, "id"); }
      [("id", IdOr(src, x))] + p + Without(src, "id");
    }
  }

  /** The echoed object starts with `id` (the client's own `id` when it sent
      one, otherwise `x`) followed by every other client entry in order. */
  lemma EchoShape(x: Json, src: Fields)
    requires DistinctKeys(src)
    ensures Echo(x, src) == [("id", IdOr(src, x))] + Without(src, "id")
  {
    var e: Fields := [];
    assert Keys(e) == [] && Disjoint(e, src);
    calc {
      Echo(x, src);
      Spread([("id", x)], src);
      { assert [("id", x)] + e == [("id", x)]; }
      Spread([("id", x)] + e, src);
      { SpreadAfterId(x, e, src); }
      [("id", IdOr(src, x))] + e + Without(src, "id");
      { assert [("id", IdOr(src, x))] + e == [("id", IdOr(src, x))]; }
      [("id", IdOr(src, x))] + Without(src, "id");
    }
  }

  lemma {:induction false} LookupWithout(fs: Fields, k: string, j: string)
    requires j != k
    ensures Lookup(Without(fs, k), j) == Lookup(fs, j)
  {
    if fs != [] {
      LookupWithout(fs[1..], k, j);
    }
  }

  /** Every client key is echoed with the client's value, and `id` is the
      client's `id` when one was sent, otherwise `x`. */
  lemma EchoLookup(x: Json, src: Fields, k: string)
    requires DistinctKeys(src)
    ensures Lookup(Echo(x, src), k) == if k == "id" then Some(IdOr(src, x)) else Lookup(src, k)
  {
    EchoShape(x, src);
    if k != "id" {
      LookupWithout(src, "id", k);
    }
  }
}
