/**
 JSON documents, as the persistence layer writes them with `json.dump` and reads
 them back with `json.load`, and the list comprehensions that map a
 serialiser over a JSON array.
 */
module Json {
  import opened Wrappers

  datatype Value =
    | Null
    | Bool(b: bool)
    | Int(i: int)
    | Num(r: real)
    | Str(s: string)
    | Arr(items: seq<Value>)
    | Obj(fields: map<string, Value>)

  /** An optional integer as `asdict` writes it: `None` becomes null. */
  function FromOptInt(o: Option<int>): Value {
    match o
    case None => Null
    case Some(n) => Int(n)
  }

  /** Reads an optional integer back: `Some(None)` for null, `None` for a value of another type. */
  function ToOptInt(v: Value): Option<Option<int>> {
    match v
    case Null => Some(None)
    case Int(n) => Some(Some(n))
    case _ => None
  }

  function ToStr(v: Value): Option<string> {
    if v.Str? then Some(v.s) else None
  }

  function ToInt(v: Value): Option<int> {
    if v.Int? then Some(v.i) else None
  }

  function ToBool(v: Value): Option<bool> {
    if v.Bool? then Some(v.b) else None
  }

  function ToNum(v: Value): Option<real> {
    if v.Num? then Some(v.r) else None
  }

  /** `[encode(x) for x in xs]` */
  function EncodeList<T>(xs: seq<T>, encode: T -> Value): seq<Value> {
    seq(|xs|, i requires 0 <= i < |xs| => encode(xs[i]))
  }

  /**
   `[decode(v) for v in vs]` where `decode` may raise: the comprehension fails
   as a whole as soon as one element fails.
   */
  function DecodeList<T>(vs: seq<Value>, decode: Value -> Option<T>): (r: Option<seq<T>>)
    ensures r.Some? ==> |r.value| == |vs| && forall i :: 0 <= i < |vs| ==> decode(vs[i]) == Some(r.value[i])
    ensures r.None? ==> exists i :: 0 <= i < |vs| && decode(vs[i]).None?
  {
    if vs == [] then Some([])
    else
      match (decode(vs[0]), DecodeList(vs[1..], decode))
      case (Some(x), Some(xs)) => Some([x] + xs)
      case _ => None
  }

  /** Decoding the encoding of a list gives the list back, element by element and in order. */
  lemma DecodeEncodeList<T>(xs: seq<T>, encode: T -> Value, decode: Value -> Option<T>)
    requires forall x :: decode(encode(x)) == Some(x)
    ensures DecodeList(EncodeList(xs, encode), decode) == Some(xs)
  {
    var vs := EncodeList(xs, encode);
    var r := DecodeList(vs, decode);
    assert forall i :: 0 <= i < |vs| ==> vs[i] == encode(xs[i]) && decode(vs[i]) == Some(xs[i]);
    assert r.Some?;
    forall i | 0 <= i < |xs|
      ensures r.value[i] == xs[i]
    {
      assert vs[i] == encode(xs[i]);
      assert decode(encode(xs[i])) == Some(xs[i]);
    }
    assert r.value == xs;
  }

  /** Appending one element to a list appends its decoding, and earlier elements decode as before. */
  lemma DecodeListAppend<T>(vs: seq<Value>, v: Value, decode: Value -> Option<T>)
    requires DecodeList(vs, decode).Some? && decode(v).Some?
    ensures DecodeList(vs + [v], decode) == Some(DecodeList(vs, decode).value + [decode(v).value])
  {
    var xs := DecodeList(vs, decode).value;
    var ws := vs + [v];
    var r := DecodeList(ws, decode);
    assert forall i :: 0 <= i < |ws| ==> ws[i] == if i < |vs| then vs[i] else v;
    assert r.Some?;
    var expected := xs + [decode(v).value];
    forall i | 0 <= i < |ws|
      ensures r.value[i] == expected[i]
    {
      assert decode(ws[i]) == Some(r.value[i]);
      if i < |vs| {
        assert ws[i] == vs[i];
        assert decode(vs[i]) == Some(xs[i]);
      } else {
        assert ws[i] == v;
      }
    }
    assert r.value == expected;
  }
}
