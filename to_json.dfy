/**
 * `to_json` (typepigeon/to_json.py): the recursive reduction of a value to JSON
 * shape. The walk is the same in the legacy `convert_to_json`, so it is written
 * once, over the function that converts a leaf.
 */
module Json {
  import opened Wrappers
  import opened Values
  import opened Descriptors
  import Dicts
  import ToType
  import ToTypeLaws
  import Durations

  /** What a JSON value may hold outside lists and dicts (`None` included: it stays `None`). */
  predicate JsonLeaf(v: Value)
  {
    v.VNone? || v.VBool? || v.VInt? || v.VFloat? || v.VStr?
  }

  /** A JSON value: leaves, lists of JSON values, dicts with distinct leaf keys and JSON values. */
  predicate JsonShape(v: Value)
  {
    match v
    case VList(xs) => forall i :: 0 <= i < |xs| ==> JsonShape(xs[i])
    case VDict(es) =>
      && DistinctKeys(es)
      && forall i :: 0 <= i < |es| ==> JsonLeaf(es[i].0) && JsonShape(es[i].1)
    case _ => JsonLeaf(v)
  }

  /**
   * The walk: a `Path` becomes its posix text and an enum member its name;
   * values whose class is exactly `float`, `int`, `bool` or `str` stay; a dict
   * becomes the dict of its reduced keys and values; a list or tuple the list of
   * its reduced elements; anything else goes to `leaf`.
   */
  function Reduce(leaf: Value -> Result<Value, Error>, v: Value): (r: Result<Value, Error>)
    decreases v, 1
  {
    match v
    case VPath(p) => Ok(VStr(p))
    case VMember(_, name, _) => Ok(VStr(name))
    case VFloat(_) => Ok(v)
    case VInt(_) => Ok(v)
    case VBool(_) => Ok(v)
    case VStr(_) => Ok(v)
    case VDict(es) =>
      var ps :- ReducePairs(leaf, v, 0);
      Ok(VDict(Dicts.InsertAll([], ps, PyEq)))
    case VList(_) =>
      var ys :- ReduceAll(leaf, v, 0);
      Ok(VList(ys))
    case VTuple(_) =>
      var ys :- ReduceAll(leaf, v, 0);
      Ok(VList(ys))
    case _ => leaf(v)
  }

  /**
   * `{reduce(key): reduce(entry) for key, entry in v.items()}` from item `i` on:
   * each key, then its value, then the hash of the reduced key, which fails
   * with TypeError when it is a list or a dict.
   */
  function ReducePairs(leaf: Value -> Result<Value, Error>, v: Value, i: nat): (r: Result<seq<(Value, Value)>, Error>)
    requires v.VDict? && i <= |v.entries|
    ensures r.Ok? <==> forall j :: i <= j < |v.entries| ==>
      Reduce(leaf, v.entries[j].0).Ok? && Reduce(leaf, v.entries[j].1).Ok? && Hashable(Reduce(leaf, v.entries[j].0).value)
    ensures r.Ok? ==> |r.value| == |v.entries| - i && forall j :: i <= j < |v.entries| ==>
      Reduce(leaf, v.entries[j].0) == Ok(r.value[j - i].0) && Reduce(leaf, v.entries[j].1) == Ok(r.value[j - i].1)
    decreases v, 0, |v.entries| - i
  {
    if i == |v.entries| then Ok([])
    else
      var key :- Reduce(leaf, v.entries[i].0);
      var entry :- Reduce(leaf, v.entries[i].1);
      if !Hashable(key) then Err(TypeError)
      else
        var rest :- ReducePairs(leaf, v, i + 1);
        assert ([(key, entry)] + rest)[1..] == rest;
        Ok([(key, entry)] + rest)
  }

  /** `[reduce(entry) for entry in v]` from element `i` on. */
  function ReduceAll(leaf: Value -> Result<Value, Error>, v: Value, i: nat): (r: Result<seq<Value>, Error>)
    requires (v.VList? || v.VTuple?) && i <= |v.items|
    ensures r.Ok? <==> forall j :: i <= j < |v.items| ==> Reduce(leaf, v.items[j]).Ok?
    ensures r.Ok? ==> |r.value| == |v.items| - i && forall j :: i <= j < |v.items| ==> Reduce(leaf, v.items[j]) == Ok(r.value[j - i])
    decreases v, 0, |v.items| - i
  {
    if i == |v.items| then Ok([])
    else
      var y :- Reduce(leaf, v.items[i]);
      var rest :- ReduceAll(leaf, v, i + 1);
      assert ([y] + rest)[1..] == rest;
      Ok([y] + rest)
  }

  /** `to_type(v, float)`, else `to_type(v, int)`, else `to_type(v, bool)`, else `to_type(v, str)`. */
  function Leaf(env: Foreign, caps: Caps, v: Value): (r: Result<Value, Error>)
  {
    match ToType.Convert(env, caps, v, DScalar(FloatK))
    case Ok(x) => Ok(x)
    case Err(_) =>
      match ToType.Convert(env, caps, v, DScalar(IntK))
      case Ok(x) => Ok(x)
      case Err(_) =>
        match ToType.Convert(env, caps, v, DScalar(BoolK))
        case Ok(x) => Ok(x)
        case Err(_) => ToType.Convert(env, caps, v, DScalar(StrK))
  }

  /** `to_json(v)`. */
  function ToJson(env: Foreign, caps: Caps, v: Value): Result<Value, Error>
  {
    Reduce((x: Value) => Leaf(env, caps, x), v)
  }

  /** A `Path` gives its posix text, an enum member its name, and `float`, `int`, `bool` and `str` values themselves. */
  lemma ReduceKeepsPrimitives(leaf: Value -> Result<Value, Error>, v: Value)
    ensures v.VPath? ==> Reduce(leaf, v) == Ok(VStr(v.posix))
    ensures v.VMember? ==> Reduce(leaf, v) == Ok(VStr(v.name))
    ensures TypeOf(v) in {FloatK, IntK, BoolK, StrK} ==> Reduce(leaf, v) == Ok(v)
  {
  }

  /** A list or tuple becomes a list of the same length, each element reduced in place. */
  lemma ReduceSequence(leaf: Value -> Result<Value, Error>, v: Value)
    requires v.VList? || v.VTuple?
    ensures var r := Reduce(leaf, v);
      && (r.Ok? <==> forall j :: 0 <= j < |v.items| ==> Reduce(leaf, v.items[j]).Ok?)
      && (r.Ok? ==> r.value.VList? && |r.value.items| == |v.items|)
      && (r.Ok? ==> forall j :: 0 <= j < |v.items| ==> Reduce(leaf, v.items[j]) == Ok(r.value.items[j]))
  {
  }

  /**
   * A dict becomes the dict built from its reduced pairs, in order, keys of any
   * class kept; it fails when an item does, or with TypeError when a reduced key
   * is unhashable.
   */
  lemma ReduceMapping(leaf: Value -> Result<Value, Error>, es: seq<(Value, Value)>)
    ensures var r := Reduce(leaf, VDict(es));
      && (r.Ok? <==> forall j :: 0 <= j < |es| ==>
        Reduce(leaf, es[j].0).Ok? && Reduce(leaf, es[j].1).Ok? && Hashable(Reduce(leaf, es[j].0).value))
      && (r.Ok? ==> exists ps: seq<(Value, Value)> ::
        && |ps| == |es|
        && (forall j :: 0 <= j < |es| ==> Reduce(leaf, es[j].0) == Ok(ps[j].0) && Reduce(leaf, es[j].1) == Ok(ps[j].1))
        && r.value == VDict(Dicts.InsertAll([], ps, PyEq))
        && DistinctKeys(r.value.entries))
  {
    var v := VDict(es);
    var ps := ReducePairs(leaf, v, 0);
    if ps.Ok? {
      Dicts.InsertAllDistinct([], ps.value, PyEq);
      assert forall j :: 0 <= j < |es| ==> Reduce(leaf, es[j].0) == Ok(ps.value[j].0) && Reduce(leaf, es[j].1) == Ok(ps.value[j].1);
    }
  }

  /** A hashable JSON value is a leaf. */
  lemma HashableShape(v: Value)
    requires JsonShape(v) && Hashable(v)
    ensures JsonLeaf(v)
  {
  }

  /** When the leaf conversion only yields leaves, the walk only yields JSON values. */
  lemma {:induction false} ReduceShape(leaf: Value -> Result<Value, Error>, v: Value)
    requires forall x :: leaf(x).Ok? ==> JsonLeaf(leaf(x).value)
    requires Reduce(leaf, v).Ok?
    ensures JsonShape(Reduce(leaf, v).value)
    decreases v, 1
  {
    match v
    case VDict(es) =>
      var ps := ReducePairs(leaf, v, 0).value;
      forall j | 0 <= j < |es| ensures JsonLeaf(ps[j].0) && JsonShape(ps[j].1) {
        ReduceShape(leaf, es[j].0);
        ReduceShape(leaf, es[j].1);
        HashableShape(ps[j].0);
      }
      Dicts.InsertAllDistinct([], ps, PyEq);
      Dicts.InsertAllPreserves([], ps, PyEq, JsonLeaf, JsonShape);
      var out := Dicts.InsertAll([], ps, PyEq);
      assert forall i :: 0 <= i < |out| ==> JsonLeaf(out[i].0) && JsonShape(out[i].1);
    case VList(xs) =>
      ElementsShape(leaf, v);
    case VTuple(xs) =>
      ElementsShape(leaf, v);
    case _ =>
  }

  lemma {:induction false} ElementsShape(leaf: Value -> Result<Value, Error>, v: Value)
    requires forall x :: leaf(x).Ok? ==> JsonLeaf(leaf(x).value)
    requires (v.VList? || v.VTuple?) && Reduce(leaf, v).Ok?
    ensures JsonShape(Reduce(leaf, v).value)
    decreases v, 0
  {
    var ys := ReduceAll(leaf, v, 0).value;
    forall j | 0 <= j < |v.items| ensures JsonShape(ys[j]) {
      ReduceShape(leaf, v.items[j]);
    }
    assert Reduce(leaf, v) == Ok(VList(ys));
  }

  /** A JSON value is reduced to itself, provided the leaf conversion keeps `None`. */
  lemma {:induction false} ReduceFixpoint(leaf: Value -> Result<Value, Error>, v: Value)
    requires leaf(VNone) == Ok(VNone)
    requires JsonShape(v)
    ensures Reduce(leaf, v) == Ok(v)
    decreases v
  {
    match v
    case VDict(es) =>
      forall j | 0 <= j < |es| ensures Reduce(leaf, es[j].0) == Ok(es[j].0) && Reduce(leaf, es[j].1) == Ok(es[j].1) {
        ReduceFixpoint(leaf, es[j].0);
        ReduceFixpoint(leaf, es[j].1);
      }
      var ps := ReducePairs(leaf, v, 0);
      assert ps.Ok?;
      assert ps.value == es;
      assert [] + es == es;
      Dicts.InsertAllFresh([], es, PyEq);
    case VList(xs) =>
      forall j | 0 <= j < |xs| ensures Reduce(leaf, xs[j]) == Ok(xs[j]) {
        ReduceFixpoint(leaf, xs[j]);
      }
      var ys := ReduceAll(leaf, v, 0);
      assert ys.Ok? && ys.value == xs;
    case _ =>
  }

  /** Reducing twice is reducing once. */
  lemma ReduceIdempotent(leaf: Value -> Result<Value, Error>, v: Value)
    requires forall x :: leaf(x).Ok? ==> JsonLeaf(leaf(x).value)
    requires leaf(VNone) == Ok(VNone)
    requires Reduce(leaf, v).Ok?
    ensures Reduce(leaf, Reduce(leaf, v).value) == Reduce(leaf, v)
  {
    ReduceShape(leaf, v);
    ReduceFixpoint(leaf, Reduce(leaf, v).value);
  }

  /** The leaf conversion of `to_json` yields leaves, and keeps `None`. */
  lemma LeafIsJson(env: Foreign, caps: Caps, v: Value)
    ensures Leaf(env, caps, v).Ok? ==> JsonLeaf(Leaf(env, caps, v).value)
    ensures Leaf(env, caps, VNone) == Ok(VNone)
  {
    ConvertedLeaf(env, caps, v, FloatK);
    ConvertedLeaf(env, caps, v, IntK);
    ConvertedLeaf(env, caps, v, BoolK);
    ConvertedLeaf(env, caps, v, StrK);
    ToTypeLaws.NoneScalar(env, caps, FloatK);
  }

  lemma ConvertedLeaf(env: Foreign, caps: Caps, v: Value, k: Kind)
    requires k in {FloatK, IntK, BoolK, StrK}
    ensures ToType.Convert(env, caps, v, DScalar(k)).Ok? ==> JsonLeaf(ToType.Convert(env, caps, v, DScalar(k)).value)
  {
    var r := ToType.Convert(env, caps, v, DScalar(k));
    if r.Ok? {
      if v.VNone? {
        assert r.value == VNone by { ToTypeLaws.NoneScalar(env, caps, k); }
      } else {
        assert IsInstance(r.value, k) by { ToTypeLaws.ScalarResultIsInstance(env, caps, v, k); }
        InstanceIsLeaf(r.value, k);
      }
    }
  }

  /** An instance of `float`, `int`, `bool` or `str` is a JSON leaf. */
  lemma InstanceIsLeaf(x: Value, k: Kind)
    requires k in {FloatK, IntK, BoolK, StrK} && IsInstance(x, k)
    ensures JsonLeaf(x)
  {
  }

  /** `to_json` yields JSON values, and is idempotent. */
  lemma ToJsonShape(env: Foreign, caps: Caps, v: Value)
    requires ToJson(env, caps, v).Ok?
    ensures JsonShape(ToJson(env, caps, v).value)
    ensures ToJson(env, caps, ToJson(env, caps, v).value) == ToJson(env, caps, v)
  {
    var leaf := (x: Value) => Leaf(env, caps, x);
    forall x ensures leaf(x).Ok? ==> JsonLeaf(leaf(x).value) {
      LeafIsJson(env, caps, x);
    }
    LeafIsJson(env, caps, VNone);
    ReduceShape(leaf, v);
    ReduceIdempotent(leaf, v);
  }

  /**
   * Leaves: `None` stays `None`; an object that `float()` reads gives that
   * float, else one that `int()` reads gives that integer; a duration gives its
   * total seconds.
   */
  lemma ToJsonLeaves(env: Foreign, caps: Caps, v: Value)
    ensures ToJson(env, caps, VNone) == Ok(VNone)
    ensures v.VObject? && env.toFloat(v).Some? ==> ToJson(env, caps, v) == Ok(VFloat(env.toFloat(v).value))
    ensures v.VObject? && env.toFloat(v).None? && env.toInt(v).Some? ==> ToJson(env, caps, v) == Ok(VInt(env.toInt(v).value))
    ensures v.VDuration? ==> ToJson(env, caps, v) == Ok(VFloat(Durations.TotalSeconds(v.micros)))
  {
    assert Leaf(env, caps, VNone) == Ok(VNone) by {
      ToTypeLaws.NoneScalar(env, caps, FloatK);
    }
    assert ToJson(env, caps, VNone) == Leaf(env, caps, VNone);
    if v.VObject? {
      ObjectLeaf(env, caps, v);
      assert ToJson(env, caps, v) == Leaf(env, caps, v);
    }
    if v.VDuration? {
      DurationLeaf(env, caps, v.micros);
      assert ToJson(env, caps, v) == Leaf(env, caps, v);
    }
  }

  lemma ObjectLeaf(env: Foreign, caps: Caps, v: Value)
    requires v.VObject?
    ensures env.toFloat(v).Some? ==> Leaf(env, caps, v) == Ok(VFloat(env.toFloat(v).value))
    ensures env.toFloat(v).None? && env.toInt(v).Some? ==> Leaf(env, caps, v) == Ok(VInt(env.toInt(v).value))
  {
    ToTypeLaws.ScalarEntry(env, caps, v, FloatK);
    ToTypeLaws.ScalarEntry(env, caps, v, IntK);
    ObjectBranches(env, caps, v);
  }

  /** An object is neither a float nor an int, so both targets call its constructor. */
  lemma ObjectBranches(env: Foreign, caps: Caps, v: Value)
    requires v.VObject?
    ensures ToType.ScalarBranch(env, caps, v, FloatK) == Construct(env, FloatK, v)
    ensures ToType.ScalarBranch(env, caps, v, IntK) == Construct(env, IntK, v)
  {
  }

  lemma DurationLeaf(env: Foreign, caps: Caps, micros: int)
    ensures Leaf(env, caps, VDuration(micros)) == Ok(VFloat(Durations.TotalSeconds(micros)))
  {
    assert ToType.Convert(env, caps, VDuration(micros), DScalar(FloatK)) == Ok(VFloat(Durations.TotalSeconds(micros))) by {
      ToTypeLaws.DurationOut(env, caps, micros);
    }
  }

  /**
   * A datetime, which `float()` and `int()` refuse, and whose text does not
   * literal-evaluate (a SyntaxError, not a ValueError), gives its text.
   */
  lemma ToJsonDateTime(env: Foreign, caps: Caps, day: Date, time: Time)
    requires env.literalEval(env.strOf(VDateTime(day, time))).Err?
    requires env.literalEval(env.strOf(VDateTime(day, time))).error != ValueError
    ensures ToJson(env, caps, VDateTime(day, time)) == Ok(VStr(env.strOf(VDateTime(day, time))))
  {
    var x := VDateTime(day, time);
    DateTimeLeaf(env, caps, day, time);
    assert Reduce((y: Value) => Leaf(env, caps, y), x) == Leaf(env, caps, x);
  }

  lemma DateTimeLeaf(env: Foreign, caps: Caps, day: Date, time: Time)
    requires env.literalEval(env.strOf(VDateTime(day, time))).Err?
    requires env.literalEval(env.strOf(VDateTime(day, time))).error != ValueError
    ensures Leaf(env, caps, VDateTime(day, time)) == Ok(VStr(env.strOf(VDateTime(day, time))))
  {
    var x := VDateTime(day, time);
    ToTypeLaws.ScalarEntry(env, caps, x, FloatK);
    ToTypeLaws.ScalarEntry(env, caps, x, IntK);
    ToTypeLaws.ScalarEntry(env, caps, x, BoolK);
    ToTypeLaws.ScalarEntry(env, caps, x, StrK);
    DateTimeBranches(env, caps, day, time);
  }

  lemma DateTimeBranches(env: Foreign, caps: Caps, day: Date, time: Time)
    requires env.literalEval(env.strOf(VDateTime(day, time))).Err?
    requires env.literalEval(env.strOf(VDateTime(day, time))).error != ValueError
    ensures ToType.ScalarBranch(env, caps, VDateTime(day, time), FloatK).Err?
    ensures ToType.ScalarBranch(env, caps, VDateTime(day, time), IntK).Err?
    ensures ToType.ScalarBranch(env, caps, VDateTime(day, time), BoolK).Err?
    ensures ToType.ScalarBranch(env, caps, VDateTime(day, time), StrK) == Ok(VStr(env.strOf(VDateTime(day, time))))
  {
  }
}
