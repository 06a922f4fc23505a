/**
 * `to_type` (typepigeon/to_type.py): convert a value to what a descriptor asks
 * for. The descriptor is resolved (a builtin's name), normalised
 * (`subscripted_type`), and then decides the branch: `None`, `Any`, a list or
 * tuple literal, a dict literal, an `Enum` class, or a class.
 */
module ToType {
  import opened Wrappers
  import opened Values
  import opened Text
  import opened Descriptors
  import opened Scalars
  import Durations
  import Dicts

  /** `collection_type(items)` for a list or tuple descriptor. */
  function Build(kind: SeqKind, items: seq<Value>): (r: Value)
    ensures (r.VList? && kind == ListKind) || (r.VTuple? && kind == TupleKind)
    ensures r.items == items
  {
    match kind
    case ListKind => VList(items)
    case TupleKind => VTuple(items)
  }

  /** `to_type(v, target)`. */
  function Convert(env: Foreign, caps: Caps, v: Value, target: Desc): (r: Result<Value, Error>)
    decreases Size(target), 2
  {
    var t :- if target.DName? then Builtin(target.name) else Ok(target);
    var v1 := if v.VMember? then VStr(v.name) else v;
    var d :- Normalize(t);
    match d
    case DNone => Ok(VNone)
    case DAny => Ok(v1)
    case DSeq(_, _) => SeqBranch(env, caps, v1, d)
    case DMap(_) => MapBranch(env, caps, v1, d)
    case DEnum(def) => if v1.VNone? then Ok(VNone) else EnumLookup(def, v1)
    case DScalar(k) => ScalarBranch(env, caps, v1, k)
    case DName(_) => assert false; Ok(v1)
    case DAlias(_, _) => assert false; Ok(v1)
    case DBareAlias(_) =>
      // Only the bare `typing.Union` survives normalisation: no value has it as
      // its type, `None` passes, and `issubclass(Union, ...)` raises TypeError.
      if v1.VNone? then Ok(VNone) else Err(TypeError)
  }

  /**
   * The pieces text falls apart into when it is not a literal collection: its
   * lines if it holds a newline (no piece holds a line break, and together they
   * are the text without its breaks), else its comma-separated fields (at least
   * two, none holding a comma, joined by commas they give the text back), else
   * the text itself.
   */
  function Pieces(s: string): (r: seq<string>)
    ensures '\n' in s ==> (
      && |r| >= 1 && Concat(r) == WithoutBreaks(s)
      && forall i, k :: 0 <= i < |r| && 0 <= k < |r[i]| ==> !IsLineBreak(r[i][k]))
    ensures '\n' !in s && ',' in s ==> (
      && |r| == Count(s, ',') + 1 && |r| >= 2 && Join(r, ',') == s
      && forall i :: 0 <= i < |r| ==> Lacks(r[i], ','))
    ensures '\n' !in s && ',' !in s ==> r == [s]
  {
    if '\n' in s then SplitLines(s) else if ',' in s then Split(s, ',') else [s]
  }

  /**
   * Text made of two or more lines joined by "\n", none holding a boundary and
   * the last not empty, falls apart into exactly those lines.
   */
  lemma PiecesOfLines(ls: seq<string>)
    requires |ls| >= 2 && ls[|ls| - 1] != []
    requires forall i :: 0 <= i < |ls| ==> NoBreak(ls[i])
    ensures Pieces(Join(ls, '\n')) == ls
  {
    var s := Join(ls, '\n');
    assert s == ls[0] + ['\n'] + Join(ls[1..], '\n');
    assert s[|ls[0]|] == '\n';
    SplitLinesJoin(ls);
  }

  /** `[entry.strip() for entry in entries]`. */
  function Stripped(ps: seq<string>): (r: seq<Value>)
    ensures |r| == |ps| && forall i :: 0 <= i < |ps| ==> r[i] == VStr(Strip(ps[i]))
  {
    if ps == [] then [] else [VStr(Strip(ps[0]))] + Stripped(ps[1..])
  }

  /**
   * What a sequence descriptor iterates over when the input is text or not
   * iterable: the literal collection the text evaluates to, else the stripped
   * pieces of the text, else a one-element list of the input.
   */
  function Elements(env: Foreign, v: Value): (r: Value)
    ensures IsCollection(r)
  {
    var evaluated := if v.VStr? then env.literalEval(v.s) else Err(ValueError);
    if evaluated.Ok? && IsCollection(evaluated.value) then evaluated.value
    else if v.VStr? then VList(Stripped(Pieces(v.s)))
    else VList([v])
  }

  /**
   * The member descriptor for each of `n` elements: the one member broadcast,
   * or the members paired positionally when there are exactly `n`; any other
   * count is a ValueError.
   */
  function Pairing(members: seq<Desc>, n: nat): (r: Result<seq<Desc>, Error>)
    ensures r.Ok? <==> |members| == 1 || |members| == n
    ensures r.Err? ==> r.error == ValueError
    ensures r.Ok? ==> |r.value| == n
    ensures r.Ok? && |members| == 1 ==> forall i :: 0 <= i < n ==> r.value[i] == members[0]
    ensures r.Ok? && |members| != 1 ==> r.value == members
  {
    if |members| == 1 then Ok(seq(n, _ => members[0]))
    else if |members| == n then Ok(members)
    else Err(ValueError)
  }

  lemma MembersSmaller(d: Desc)
    requires d.DSeq?
    ensures forall j :: 0 <= j < |d.members| ==> Size(d.members[j]) < Size(d)
  {
    forall j | 0 <= j < |d.members| ensures Size(d.members[j]) < Size(d) {
      MemberSmaller(d.members, j);
    }
  }

  /** The sequence branch: `None` gives the empty container, anything else is converted element-wise. */
  function SeqBranch(env: Foreign, caps: Caps, v: Value, d: Desc): (r: Result<Value, Error>)
    requires d.DSeq?
    decreases Size(d), 1
  {
    if v.VNone? then Ok(Build(d.kind, []))
    else
      var items := if IsCollection(v) && !v.VStr? then v else Elements(env, v);
      var types :- Pairing(d.members, Len(items));
      MembersSmaller(d);
      var out :- ConvertElements(env, caps, items, types, d, 0);
      Ok(Build(d.kind, out))
  }

  /**
   * `to_type(items[j], types[j])` for every `j` from `i` on, inside the
   * generator expression that builds the result: the first failure decides,
   * and a StopIteration escaping it becomes a RuntimeError.
   */
  function ConvertElements(env: Foreign, caps: Caps, items: Value, types: seq<Desc>, d: Desc, i: nat)
    : (r: Result<seq<Value>, Error>)
    requires IsCollection(items) && |types| == Len(items) && i <= |types|
    requires forall j :: 0 <= j < |types| ==> Size(types[j]) < Size(d)
    ensures r.Ok? ==> |r.value| == |types| - i && forall j :: i <= j < |types| ==>
      Element(items, j).Ok? && Convert(env, caps, Element(items, j).value, types[j]) == Ok(r.value[j - i])
    ensures r.Ok? <==> forall j :: i <= j < |types| ==>
      Element(items, j).Ok? && Convert(env, caps, Element(items, j).value, types[j]).Ok?
    ensures r.Err? ==> r.error != StopIteration
    decreases Size(d), 0, |types| - i
  {
    if i == |types| then Ok([])
    else
      match Element(items, i)
      case Err(e) => Err(GeneratorError(e))
      case Ok(x) =>
        match Convert(env, caps, x, types[i])
        case Err(e) => Err(GeneratorError(e))
        case Ok(y) =>
          match ConvertElements(env, caps, items, types, d, i + 1)
          case Err(e) => Err(e)
          case Ok(rest) => ElementsCons(env, caps, items, types, d, i, y, rest); Ok([y] + rest)
  }

  /** The item at `i` converted to `y`, in front of the items after it converted to `rest`. */
  lemma ElementsCons(env: Foreign, caps: Caps, items: Value, types: seq<Desc>, d: Desc, i: nat, y: Value, rest: seq<Value>)
    requires IsCollection(items) && |types| == Len(items) && i < |types|
    requires forall j :: 0 <= j < |types| ==> Size(types[j]) < Size(d)
    requires Element(items, i).Ok? && Convert(env, caps, Element(items, i).value, types[i]) == Ok(y)
    requires |rest| == |types| - (i + 1) && forall j :: i + 1 <= j < |types| ==>
      Element(items, j).Ok? && Convert(env, caps, Element(items, j).value, types[j]) == Ok(rest[j - (i + 1)])
    ensures |[y] + rest| == |types| - i && forall j :: i <= j < |types| ==>
      Element(items, j).Ok? && Convert(env, caps, Element(items, j).value, types[j]) == Ok(([y] + rest)[j - i])
    decreases Size(d), 0, |types| - i - 1
  {
    Prepended(y, rest);
    forall j | i <= j < |types|
      ensures Element(items, j).Ok? && Convert(env, caps, Element(items, j).value, types[j]) == Ok(([y] + rest)[j - i])
    {
      if j > i {
        assert ([y] + rest)[j - i] == rest[j - (i + 1)];
      }
    }
  }

  /** `to_type(items[j], t)`: the item indexed, then converted. */
  function ItemResult(env: Foreign, caps: Caps, items: Value, t: Desc, j: nat): (r: Result<Value, Error>)
    requires IsCollection(items) && j < Len(items)
    ensures Element(items, j).Err? ==> r == Err(Element(items, j).error)
    ensures Element(items, j).Ok? ==> r == Convert(env, caps, Element(items, j).value, t)
  {
    match Element(items, j)
    case Err(e) => Err(e)
    case Ok(x) => Convert(env, caps, x, t)
  }

  /** One step of `ConvertElements`: the item at `i`, then the rest. */
  lemma ElementsStep(env: Foreign, caps: Caps, items: Value, types: seq<Desc>, d: Desc, i: nat)
    requires IsCollection(items) && |types| == Len(items) && i < |types|
    requires forall j :: 0 <= j < |types| ==> Size(types[j]) < Size(d)
    ensures ConvertElements(env, caps, items, types, d, i) ==
      match ItemResult(env, caps, items, types[i], i)
      case Err(e) => Err(GeneratorError(e))
      case Ok(y) =>
        match ConvertElements(env, caps, items, types, d, i + 1)
        case Err(e) => Err(e)
        case Ok(rest) => Ok([y] + rest)
  {
  }

  /**
   * A failure of the elements is the first failing item's: its indexing error or
   * its conversion error, as it leaves the generator expression.
   */
  lemma {:induction false} ElementsFirstFailure(env: Foreign, caps: Caps, items: Value, types: seq<Desc>, d: Desc, i: nat)
    requires IsCollection(items) && |types| == Len(items) && i <= |types|
    requires forall j :: 0 <= j < |types| ==> Size(types[j]) < Size(d)
    requires ConvertElements(env, caps, items, types, d, i).Err?
    ensures exists j :: (
      && i <= j < |types|
      && (forall k :: i <= k < j ==> ItemResult(env, caps, items, types[k], k).Ok?)
      && ItemResult(env, caps, items, types[j], j).Err?
      && ConvertElements(env, caps, items, types, d, i).error == GeneratorError(ItemResult(env, caps, items, types[j], j).error))
    decreases |types| - i
  {
    var r := ConvertElements(env, caps, items, types, d, i);
    var here := ItemResult(env, caps, items, types[i], i);
    ElementsStep(env, caps, items, types, d, i);
    if here.Err? {
      assert r.error == GeneratorError(here.error);
    } else {
      var rest := ConvertElements(env, caps, items, types, d, i + 1);
      assert rest.Err? && r.error == rest.error;
      ElementsFirstFailure(env, caps, items, types, d, i + 1);
      var j :| (
        && i + 1 <= j < |types|
        && (forall k :: i + 1 <= k < j ==> ItemResult(env, caps, items, types[k], k).Ok?)
        && ItemResult(env, caps, items, types[j], j).Err?
        && rest.error == GeneratorError(ItemResult(env, caps, items, types[j], j).error));
      assert forall k :: i <= k < j ==> ItemResult(env, caps, items, types[k], k).Ok?;
    }
  }



  /**
   * `next(iter(d))` and `d[next(iter(d))]`: the first key in insertion order,
   * and the value descriptor the dict target maps it to.
   */
  function FirstEntry(d: Desc): (p: (Desc, Desc))
    requires d.DMap? && d.entries != []
    ensures p.0 == d.entries[0].0
    ensures Dicts.Lookup(d.entries, p.0, SameDesc) == Some(p.1)
    ensures Size(p.0) < Size(d) && Size(p.1) < Size(d)
  {
    EntrySmaller(d, 0, 0);
    d.entries[0]
  }

  /**
   * The mapping branch: text is JSON-parsed after turning `'` into `"`, and not
   * converted further; a dict has each key converted with the first key
   * descriptor and each value with that key's value descriptor, and is rebuilt;
   * a CRS becomes its JSON dict when pyproj is there; anything else is returned
   * as it is.
   */
  function MapBranch(env: Foreign, caps: Caps, v: Value, d: Desc): (r: Result<Value, Error>)
    requires d.DMap?
    decreases Size(d), 1
  {
    if v.VStr? then env.jsonLoads(ReplaceChar(v.s, '\'', '"'))
    else if v.VDict? then
      if d.entries == [] then Err(StopIteration)
      else
        var ps :- ConvertItems(env, caps, v.entries, FirstEntry(d).0, FirstEntry(d).1, d, 0);
        var es :- BuildDict(ps);
        Ok(VDict(es))
    else if caps.pyproj && v.VCrs? then Ok(env.crsJson(v.crs))
    else Ok(v)
  }

  /** `(to_type(key, kd), to_type(value, vd))` for every entry from `i` on; the first failure decides. */
  function ConvertItems(env: Foreign, caps: Caps, es: seq<(Value, Value)>, kd: Desc, vd: Desc, d: Desc, i: nat)
    : (r: Result<seq<(Value, Value)>, Error>)
    requires d.DMap? && i <= |es| && Size(kd) < Size(d) && Size(vd) < Size(d)
    ensures r.Ok? ==> |r.value| == |es| - i && forall j :: i <= j < |es| ==>
      Convert(env, caps, es[j].0, kd) == Ok(r.value[j - i].0) && Convert(env, caps, es[j].1, vd) == Ok(r.value[j - i].1)
    ensures r.Ok? <==> forall j :: i <= j < |es| ==>
      Convert(env, caps, es[j].0, kd).Ok? && Convert(env, caps, es[j].1, vd).Ok?
    decreases Size(d), 0, |es| - i
  {
    if i == |es| then Ok([])
    else
      match Convert(env, caps, es[i].0, kd)
      case Err(e) => Err(e)
      case Ok(key) =>
        match Convert(env, caps, es[i].1, vd)
        case Err(e) => Err(e)
        case Ok(value) =>
          match ConvertItems(env, caps, es, kd, vd, d, i + 1)
          case Err(e) => Err(e)
          case Ok(rest) => Prepended((key, value), rest); Ok([(key, value)] + rest)
  }

  /** The scalar branch: `None` and a value of exactly the target class pass; the rest is converted in stages. */
  function ScalarBranch(env: Foreign, caps: Caps, v: Value, k: Kind): (r: Result<Value, Error>)
  {
    if v.VNone? || TypeOf(v) == k then Ok(v)
    else
      var prepared := Prepare(env, caps.pyproj, v, k);
      var parsed :- Parse(env, caps, prepared, k);
      Finish(env, parsed, k)
  }

  /**
   * The target's own reading of the input: `bool` literal-evaluates its text
   * and falls back to truthiness on a ValueError; `date` and `datetime` parse
   * text with dateutil (when installed; a TypeError is suppressed), a `datetime`
   * target extends a bare date with midnight, a `date` target keeps the date of
   * a datetime; `timedelta` reads colon text or a count of seconds. Other
   * targets leave the value as it is.
   */
  function Parse(env: Foreign, caps: Caps, v: Value, k: Kind): (r: Result<Value, Error>)
  {
    if IsSubclass(k, BoolK) then
      match env.literalEval(StrOf(env, v))
      case Ok(x) => Ok(x)
      case Err(ValueError) => Ok(VBool(Truthy(env, v)))
      case Err(e) => Err(e)
    else if IsSubclass(k, DateK) then
      var parsed := if caps.dateutil && v.VStr? then env.parseDate(v.s) else Ok(v);
      var p :- if parsed == Err(TypeError) then Ok(v) else parsed;
      if k == DateTimeK && p.VDate? then Ok(VDateTime(p.date, Midnight))
      else if k == DateK then (if p.VDateTime? then Ok(VDate(p.date)) else Err(AttributeError))
      else Ok(p)
    else if IsSubclass(k, DurationK) then
      var micros :- Durations.ParseDuration(env, v);
      Ok(VDuration(micros))
    else Ok(v)
  }

  /** What is not yet an instance of the target goes through its `from_string` (text only) or its constructor. */
  function Finish(env: Foreign, v: Value, k: Kind): (r: Result<Value, Error>)
    ensures IsInstance(v, k) ==> r == Ok(v)
    ensures r.Ok? && k in {StrK, IntK, FloatK, BoolK, DurationK, DateK, DateTimeK} ==> IsInstance(r.value, k)
  {
    if IsInstance(v, k) then Ok(v)
    else if v.VStr? then
      match FromString(env, k, v.s)
      case Err(AttributeError) => Construct(env, k, v)
      case other => other
    else Construct(env, k, v)
  }

  /**
   * The loop of typepigeon/to_type.py that converts a dict's entries one by
   * one into `converted_items`, stopping at the first failure.
   */
  method ConvertEntries(env: Foreign, caps: Caps, es: seq<(Value, Value)>, d: Desc)
    returns (r: Result<seq<(Value, Value)>, Error>)
    requires d.DMap? && d.entries != []
    ensures r == ConvertItems(env, caps, es, FirstEntry(d).0, FirstEntry(d).1, d, 0)
  {
    var kd, vd := FirstEntry(d).0, FirstEntry(d).1;
    var converted: seq<(Value, Value)> := [];
    var i := 0;
    PrefixedNothing(ConvertItems(env, caps, es, kd, vd, d, 0));
    while i < |es|
      invariant 0 <= i <= |es|
      invariant ConvertItems(env, caps, es, kd, vd, d, 0) == Prefixed(converted, ConvertItems(env, caps, es, kd, vd, d, i))
    {
      var key := Convert(env, caps, es[i].0, kd);
      if key.Err? {
        return Err(key.error);
      }
      var value := Convert(env, caps, es[i].1, vd);
      if value.Err? {
        return Err(value.error);
      }
      PrefixedTwice(converted, [(key.value, value.value)], ConvertItems(env, caps, es, kd, vd, d, i + 1));
      converted := converted + [(key.value, value.value)];
      i := i + 1;
    }
    assert converted + [] == converted;
    r := Ok(converted);
  }

  /** The items converted so far in front of the outcome for the rest. */
  function Prefixed<T>(done: seq<T>, rest: Result<seq<T>, Error>): Result<seq<T>, Error>
  {
    match rest
    case Ok(xs) => Ok(done + xs)
    case Err(e) => Err(e)
  }

  lemma PrefixedNothing<T>(rest: Result<seq<T>, Error>)
    ensures Prefixed([], rest) == rest
  {
    if rest.Ok? {
      assert [] + rest.value == rest.value;
    }
  }

  lemma PrefixedTwice<T>(a: seq<T>, b: seq<T>, rest: Result<seq<T>, Error>)
    ensures Prefixed(a, Prefixed(b, rest)) == Prefixed(a + b, rest)
  {
    if rest.Ok? {
      assert a + (b + rest.value) == (a + b) + rest.value;
    }
  }
}
