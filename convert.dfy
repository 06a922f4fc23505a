/**
 * The legacy engine of typepigeon/convert.py: `guard_generic_alias`,
 * `convert_value` and `convert_to_json`. It has the shape of `to_type` with
 * different rules: an `isinstance` short-circuit, comma-only splitting without
 * stripping, a `H:M:S`-first duration reader, no truthiness fallback for
 * `bool`, and pyproj taken to be installed.
 */
module Legacy {
  import opened Wrappers
  import opened Values
  import opened Text
  import opened Descriptors
  import opened Scalars
  import Durations
  import Dicts
  import ToType
  import Json

  /**
   * `guard_generic_alias`: the same normalisation as `subscripted_type`, except
   * that a `Union` is not singled out; asking `issubclass(Union, Mapping)`
   * of it raises TypeError.
   */
  function GuardGenericAlias(d: Desc): (r: Result<Desc, Error>)
    ensures r.Ok? ==> Plain(r.value) && Size(r.value) <= Size(d)
  {
    NormalizeWith(d, TypeError)
  }

  /** `convert_value(v, target)`. */
  function ConvertValue(env: Foreign, v: Value, target: Desc): (r: Result<Value, Error>)
    decreases Size(target), 2
  {
    var t :- if target.DName? then Builtin(target.name) else Ok(target);
    var v1 := if v.VMember? then VStr(v.name) else v;
    var d :- GuardGenericAlias(t);
    match d
    case DNone => Ok(VNone)
    case DAny => Ok(v1)
    case DSeq(_, _) => SeqBranch(env, v1, d)
    case DMap(_) => MapBranch(env, v1, d)
    case DEnum(def) => if v1.VNone? then Ok(VNone) else EnumLookup(def, v1)
    case DScalar(k) => ScalarBranch(env, v1, k)
    case DName(_) => assert false; Ok(v1)
    case DAlias(_, _) => assert false; Ok(v1)
    case DBareAlias(_) =>
      // Only the bare `typing.Union` survives the guard, and
      // `isinstance(value, Union)` raises TypeError before `None` is looked at.
      Err(TypeError)
  }

  /** Each piece of text as a string value, unstripped. */
  function Texts(ps: seq<string>): (r: seq<Value>)
    ensures |r| == |ps| && forall i :: 0 <= i < |ps| ==> r[i] == VStr(ps[i])
  {
    if ps == [] then [] else [VStr(ps[0])] + Texts(ps[1..])
  }

  /**
   * What a sequence descriptor iterates over when the input is text or not
   * iterable: the literal collection the text evaluates to, else the text's
   * comma-separated pieces as they are, else a one-element list of the input.
   */
  function Elements(env: Foreign, v: Value): (r: Value)
    ensures IsCollection(r)
  {
    var evaluated := if v.VStr? then env.literalEval(v.s) else Err(ValueError);
    if evaluated.Ok? && IsCollection(evaluated.value) then evaluated.value
    else if v.VStr? && ',' in v.s then VList(Texts(Split(v.s, ',')))
    else VList([v])
  }

  function SeqBranch(env: Foreign, v: Value, d: Desc): (r: Result<Value, Error>)
    requires d.DSeq?
    decreases Size(d), 1
  {
    if v.VNone? then Ok(ToType.Build(d.kind, []))
    else
      var items := if IsCollection(v) && !v.VStr? then v else Elements(env, v);
      var types :- ToType.Pairing(d.members, Len(items));
      ToType.MembersSmaller(d);
      var out :- ConvertElements(env, items, types, d, 0);
      Ok(ToType.Build(d.kind, out))
  }

  /**
   * `convert_value(items[j], types[j])` for every `j` from `i` on, inside the
   * generator expression that builds the result: the first failure decides,
   * and a StopIteration escaping it becomes a RuntimeError.
   */
  function ConvertElements(env: Foreign, items: Value, types: seq<Desc>, d: Desc, i: nat): (r: Result<seq<Value>, Error>)
    requires IsCollection(items) && |types| == Len(items) && i <= |types|
    requires forall j :: 0 <= j < |types| ==> Size(types[j]) < Size(d)
    ensures r.Ok? ==> |r.value| == |types| - i && forall j :: i <= j < |types| ==>
      Element(items, j).Ok? && ConvertValue(env, Element(items, j).value, types[j]) == Ok(r.value[j - i])
    ensures r.Ok? <==> forall j :: i <= j < |types| ==>
      Element(items, j).Ok? && ConvertValue(env, Element(items, j).value, types[j]).Ok?
    ensures r.Err? ==> r.error != StopIteration
    decreases Size(d), 0, |types| - i
  {
    if i == |types| then Ok([])
    else
      match Element(items, i)
      case Err(e) => Err(GeneratorError(e))
      case Ok(x) =>
        match ConvertValue(env, x, types[i])
        case Err(e) => Err(GeneratorError(e))
        case Ok(y) =>
          match ConvertElements(env, items, types, d, i + 1)
          case Err(e) => Err(e)
          case Ok(rest) => ElementsCons(env, items, types, d, i, y, rest); Ok([y] + rest)
  }

  /** The item at `i` converted to `y`, in front of the items after it converted to `rest`. */
  lemma ElementsCons(env: Foreign, items: Value, types: seq<Desc>, d: Desc, i: nat, y: Value, rest: seq<Value>)
    requires IsCollection(items) && |types| == Len(items) && i < |types|
    requires forall j :: 0 <= j < |types| ==> Size(types[j]) < Size(d)
    requires Element(items, i).Ok? && ConvertValue(env, Element(items, i).value, types[i]) == Ok(y)
    requires |rest| == |types| - (i + 1) && forall j :: i + 1 <= j < |types| ==>
      Element(items, j).Ok? && ConvertValue(env, Element(items, j).value, types[j]) == Ok(rest[j - (i + 1)])
    ensures |[y] + rest| == |types| - i && forall j :: i <= j < |types| ==>
      Element(items, j).Ok? && ConvertValue(env, Element(items, j).value, types[j]) == Ok(([y] + rest)[j - i])
    decreases Size(d), 0, |types| - i - 1
  {
    Prepended(y, rest);
    forall j | i <= j < |types|
      ensures Element(items, j).Ok? && ConvertValue(env, Element(items, j).value, types[j]) == Ok(([y] + rest)[j - i])
    {
      if j > i {
        assert ([y] + rest)[j - i] == rest[j - (i + 1)];
      }
    }
  }

  /** `convert_value(items[j], t)`: the item indexed, then converted. */
  function ItemResult(env: Foreign, items: Value, t: Desc, j: nat): (r: Result<Value, Error>)
    requires IsCollection(items) && j < Len(items)
    ensures Element(items, j).Err? ==> r == Err(Element(items, j).error)
    ensures Element(items, j).Ok? ==> r == ConvertValue(env, Element(items, j).value, t)
  {
    match Element(items, j)
    case Err(e) => Err(e)
    case Ok(x) => ConvertValue(env, x, t)
  }

  /** One step of `ConvertElements`: the item at `i`, then the rest. */
  lemma ElementsStep(env: Foreign, items: Value, types: seq<Desc>, d: Desc, i: nat)
    requires IsCollection(items) && |types| == Len(items) && i < |types|
    requires forall j :: 0 <= j < |types| ==> Size(types[j]) < Size(d)
    ensures ConvertElements(env, items, types, d, i) ==
      match ItemResult(env, items, types[i], i)
      case Err(e) => Err(GeneratorError(e))
      case Ok(y) =>
        match ConvertElements(env, items, types, d, i + 1)
        case Err(e) => Err(e)
        case Ok(rest) => Ok([y] + rest)
  {
  }

  /**
   * A failure of the elements is the first failing item's: its indexing error or
   * its conversion error, as it leaves the generator expression.
   */
  lemma {:induction false} ElementsFirstFailure(env: Foreign, items: Value, types: seq<Desc>, d: Desc, i: nat)
    requires IsCollection(items) && |types| == Len(items) && i <= |types|
    requires forall j :: 0 <= j < |types| ==> Size(types[j]) < Size(d)
    requires ConvertElements(env, items, types, d, i).Err?
    ensures exists j :: (
      && i <= j < |types|
      && (forall k :: i <= k < j ==> ItemResult(env, items, types[k], k).Ok?)
      && ItemResult(env, items, types[j], j).Err?
      && ConvertElements(env, items, types, d, i).error == GeneratorError(ItemResult(env, items, types[j], j).error))
    decreases |types| - i
  {
    var r := ConvertElements(env, items, types, d, i);
    var here := ItemResult(env, items, types[i], i);
    ElementsStep(env, items, types, d, i);
    if here.Err? {
      assert r.error == GeneratorError(here.error);
    } else {
      var rest := ConvertElements(env, items, types, d, i + 1);
      assert rest.Err? && r.error == rest.error;
      ElementsFirstFailure(env, items, types, d, i + 1);
      var j :| (
        && i + 1 <= j < |types|
        && (forall k :: i + 1 <= k < j ==> ItemResult(env, items, types[k], k).Ok?)
        && ItemResult(env, items, types[j], j).Err?
        && rest.error == GeneratorError(ItemResult(env, items, types[j], j).error));
      assert forall k :: i <= k < j ==> ItemResult(env, items, types[k], k).Ok?;
    }
  }



  /**
   * The mapping branch: text is `json.loads`-ed as it is, a CRS becomes its JSON
   * dict, a dict is converted key by key with the first entry of the target (an
   * empty target has no first entry: IndexError), anything else is returned as
   * it is.
   */
  function MapBranch(env: Foreign, v: Value, d: Desc): (r: Result<Value, Error>)
    requires d.DMap?
    decreases Size(d), 1
  {
    if v.VStr? then env.jsonLoads(v.s)
    else if v.VCrs? then Ok(env.crsJson(v.crs))
    else if v.VDict? then
      if d.entries == [] then Err(IndexError)
      else
        var ps :- ConvertItems(env, v.entries, ToType.FirstEntry(d).0, ToType.FirstEntry(d).1, d, 0);
        var es :- BuildDict(ps);
        Ok(VDict(es))
    else Ok(v)
  }

  /** `(convert_value(key, kd), convert_value(value, vd))` for every entry from `i` on. */
  function ConvertItems(env: Foreign, es: seq<(Value, Value)>, kd: Desc, vd: Desc, d: Desc, i: nat)
    : (r: Result<seq<(Value, Value)>, Error>)
    requires d.DMap? && i <= |es| && Size(kd) < Size(d) && Size(vd) < Size(d)
    ensures r.Ok? ==> |r.value| == |es| - i && forall j :: i <= j < |es| ==>
      ConvertValue(env, es[j].0, kd) == Ok(r.value[j - i].0) && ConvertValue(env, es[j].1, vd) == Ok(r.value[j - i].1)
    ensures r.Ok? <==> forall j :: i <= j < |es| ==>
      ConvertValue(env, es[j].0, kd).Ok? && ConvertValue(env, es[j].1, vd).Ok?
    decreases Size(d), 0, |es| - i
  {
    if i == |es| then Ok([])
    else
      match ConvertValue(env, es[i].0, kd)
      case Err(e) => Err(e)
      case Ok(key) =>
        match ConvertValue(env, es[i].1, vd)
        case Err(e) => Err(e)
        case Ok(value) =>
          match ConvertItems(env, es, kd, vd, d, i + 1)
          case Err(e) => Err(e)
          case Ok(rest) => Prepended((key, value), rest); Ok([(key, value)] + rest)
  }

  /** The scalar branch: `None` and any instance of the target (a subclass's included) pass. */
  function ScalarBranch(env: Foreign, v: Value, k: Kind): (r: Result<Value, Error>)
  {
    if v.VNone? || IsInstance(v, k) then Ok(v)
    else
      var prepared := Prepare(env, true, v, k);
      var parsed :- Parse(env, prepared, k);
      Finish(env, parsed, k)
  }

  /**
   * The target's own reading: `bool` literal-evaluates the value's text and
   * lets any error through; `date` and `datetime` parse text with dateutil (any
   * other value is a TypeError), and a `date` target takes the date of the
   * result; `timedelta` uses the legacy duration reader.
   */
  function Parse(env: Foreign, v: Value, k: Kind): (r: Result<Value, Error>)
  {
    if IsSubclass(k, BoolK) then env.literalEval(StrOf(env, v))
    else if IsSubclass(k, DateK) then
      var p :- if v.VStr? then env.parseDate(v.s) else Err(TypeError);
      if k == DateK then (if p.VDateTime? then Ok(VDate(p.date)) else Err(AttributeError))
      else Ok(p)
    else if IsSubclass(k, DurationK) then
      var micros :- ParseDuration(env, v);
      Ok(VDuration(micros))
    else Ok(v)
  }

  /**
   * What is not yet an instance of the target: a duration or a CRS is prepared
   * again and returned as that is; text goes through `from_string`, and on any
   * error through the constructor; anything else through the constructor.
   */
  function Finish(env: Foreign, v: Value, k: Kind): (r: Result<Value, Error>)
    ensures IsInstance(v, k) ==> r == Ok(v)
    ensures (v.VDuration? || v.VCrs?) && !IsInstance(v, k) ==> r == Ok(Prepare(env, true, v, k))
  {
    if IsInstance(v, k) then Ok(v)
    else if v.VDuration? || v.VCrs? then Ok(Prepare(env, true, v, k))
    else if v.VStr? then
      match FromString(env, k, v.s)
      case Ok(x) => Ok(x)
      case Err(_) => Construct(env, k, v)
    else Construct(env, k, v)
  }

  /** `timedelta(hours=t.hour, minutes=t.minute, seconds=t.second)`. */
  function ClockMicros(t: Time): int
  {
    t.hour * MicrosPerHour + t.minute * MicrosPerMinute + t.second * MicrosPerSecond
  }

  /**
   * The seconds of `timedelta(days=days, hours=parts[0], minutes=parts[1],
   * seconds=parts[2])` after days were popped off the front of more than three
   * parts; fewer than three parts left is an IndexError (`None` here).
   */
  function FieldSeconds(parts: seq<real>): (r: Option<real>)
  {
    var days := if |parts| > 3 then parts[0] else 0.0;
    var rest := if |parts| > 3 then parts[1..] else parts;
    if |rest| < 3 then None
    else Some(days * 86400.0 + rest[0] * 3600.0 + rest[1] * 60.0 + rest[2])
  }

  /**
   * Lines 159-166 of typepigeon/convert.py: pop the days off the front when
   * there are more than three parts, then read hours, minutes and seconds.
   */
  method PopFields(parts0: seq<real>) returns (r: Option<real>)
    ensures r == FieldSeconds(parts0)
  {
    var parts := parts0;
    var days := 0.0;
    if |parts| > 3 {
      days := parts[0];
      parts := parts[1..];
    }
    if |parts| < 3 {
      return None;
    }
    r := Some(days * 86400.0 + parts[0] * 3600.0 + parts[1] * 60.0 + parts[2]);
  }

  /** The inner attempts of the legacy reader on text: `H:M:S` first, then the colon fields. */
  function ReadText(env: Foreign, s: string): Option<int>
  {
    match env.strptimeHMS(s)
    case Some(t) => Some(ClockMicros(t))
    case None =>
      match Durations.ReadFloats(env, Split(s, ':'))
      case Err(_) => None
      case Ok(parts) =>
        match FieldSeconds(parts)
        case None => None
        case Some(x) => Some(Durations.FromSeconds(x))
  }

  /** The legacy duration reader: when both attempts fail, `timedelta(seconds=float(v))`. */
  function ParseDuration(env: Foreign, v: Value): Result<int, Error>
  {
    var fromText := if v.VStr? then ReadText(env, v.s) else None;
    if fromText.Some? then Ok(fromText.value)
    else
      var x :- FloatOf(env, v);
      Ok(Durations.FromSeconds(x))
  }

  /**
   * The loop of typepigeon/convert.py that converts a dict's entries one by
   * one into `converted_items`, stopping at the first failure.
   */
  method ConvertEntries(env: Foreign, es: seq<(Value, Value)>, d: Desc) returns (r: Result<seq<(Value, Value)>, Error>)
    requires d.DMap? && d.entries != []
    ensures r == ConvertItems(env, es, ToType.FirstEntry(d).0, ToType.FirstEntry(d).1, d, 0)
  {
    var kd, vd := ToType.FirstEntry(d).0, ToType.FirstEntry(d).1;
    var converted: seq<(Value, Value)> := [];
    var i := 0;
    ToType.PrefixedNothing(ConvertItems(env, es, kd, vd, d, 0));
    while i < |es|
      invariant 0 <= i <= |es|
      invariant ConvertItems(env, es, kd, vd, d, 0) == ToType.Prefixed(converted, ConvertItems(env, es, kd, vd, d, i))
    {
      var key := ConvertValue(env, es[i].0, kd);
      if key.Err? {
        return Err(key.error);
      }
      var value := ConvertValue(env, es[i].1, vd);
      if value.Err? {
        return Err(value.error);
      }
      ToType.PrefixedTwice(converted, [(key.value, value.value)], ConvertItems(env, es, kd, vd, d, i + 1));
      converted := converted + [(key.value, value.value)];
      i := i + 1;
    }
    assert converted + [] == converted;
    r := Ok(converted);
  }

  /** `convert_value(v, float)`, else `int`, else `bool`, else `str`. */
  function Leaf(env: Foreign, v: Value): (r: Result<Value, Error>)
  {
    match ConvertValue(env, v, DScalar(FloatK))
    case Ok(x) => Ok(x)
    case Err(_) =>
      match ConvertValue(env, v, DScalar(IntK))
      case Ok(x) => Ok(x)
      case Err(_) =>
        match ConvertValue(env, v, DScalar(BoolK))
        case Ok(x) => Ok(x)
        case Err(_) => ConvertValue(env, v, DScalar(StrK))
  }

  /** `convert_to_json(v)`: the walk of `to_json` over the legacy leaf conversion. */
  function ConvertToJson(env: Foreign, v: Value): Result<Value, Error>
  {
    Json.Reduce((x: Value) => Leaf(env, x), v)
  }
}
