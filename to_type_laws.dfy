/**
 * What `to_type` (typepigeon/to_type.py) promises about its results, branch by
 * branch, stated over `ToType.Convert`.
 */
module ToTypeLaws {
  import opened Wrappers
  import opened Values
  import opened Text
  import opened Descriptors
  import opened Scalars
  import opened ToType
  import Durations
  import Dicts

  /** Converting to a descriptor is converting to its normalised form. */
  lemma NormalizedTarget(env: Foreign, caps: Caps, v: Value, t: Desc)
    requires Normalize(t).Ok?
    ensures Convert(env, caps, v, t) == Convert(env, caps, v, Normalize(t).value)
  {
    Idempotent(t, NotImplementedError);
  }

  /** A class given by name is looked up among the builtins; an unknown name is an AttributeError. */
  lemma NamedTarget(env: Foreign, caps: Caps, v: Value, name: string)
    ensures Builtin(name).Err? ==> Convert(env, caps, v, DName(name)) == Err(AttributeError)
    ensures Builtin(name).Ok? ==> Convert(env, caps, v, DName(name)) == Convert(env, caps, v, Builtin(name).value)
  {
    if Builtin(name).Ok? {
      PlainUnchanged(Builtin(name).value, NotImplementedError);
    }
  }

  /** A `None` target gives `None`, an `Any` target the input (an enum member by its name). */
  lemma NoneAndAny(env: Foreign, caps: Caps, v: Value)
    ensures Convert(env, caps, v, DNone) == Ok(VNone)
    ensures Convert(env, caps, v, DName("None")) == Ok(VNone)
    ensures Convert(env, caps, v, DAny) == Ok(if v.VMember? then VStr(v.name) else v)
  {
  }

  /** `None` converts to `None` for every target but a list or tuple, which gives the empty container. */
  lemma NoneInput(env: Foreign, caps: Caps, t: Desc)
    requires Normalize(t).Ok?
    ensures !t.DName? ==>
      var d := Normalize(t).value;
      Convert(env, caps, VNone, t) == if d.DSeq? then Ok(Build(d.kind, [])) else Ok(VNone)
    ensures t.DName? && Builtin(t.name).Ok? ==> Convert(env, caps, VNone, t) == Ok(VNone)
  {
    if t.DName? && Builtin(t.name).Ok? {
      PlainUnchanged(Builtin(t.name).value, NotImplementedError);
    }
  }

  /** `None` given to a class is `None`. */
  lemma NoneScalar(env: Foreign, caps: Caps, k: Kind)
    ensures Convert(env, caps, VNone, DScalar(k)) == Ok(VNone)
  {
  }

  /** With a class as target, conversion is the scalar branch on the input (an enum member by its name). */
  lemma ScalarEntry(env: Foreign, caps: Caps, v: Value, k: Kind)
    ensures Convert(env, caps, v, DScalar(k)) == ScalarBranch(env, caps, if v.VMember? then VStr(v.name) else v, k)
  {
    PlainUnchanged(DScalar(k), NotImplementedError);
  }

  /** A sequence target is normalised, then the sequence branch takes over. */
  lemma SeqEntry(env: Foreign, caps: Caps, v: Value, kind: SeqKind, ms: seq<Desc>)
    requires !v.VMember?
    ensures var n := Normalize(DSeq(kind, ms));
      n.Err? ==> Convert(env, caps, v, DSeq(kind, ms)) == Err(n.error)
    ensures var n := Normalize(DSeq(kind, ms));
      n.Ok? ==> n.value.DSeq? && Convert(env, caps, v, DSeq(kind, ms)) == SeqBranch(env, caps, v, n.value)
  {
  }

  /** A target containing a subscripted `Union` is refused; a `Union[...]` itself with NotImplementedError. */
  lemma UnionTarget(env: Foreign, caps: Caps, v: Value, t: Desc)
    requires !t.DName? && ContainsUnion(t)
    ensures Convert(env, caps, v, t).Err?
    ensures t.DAlias? && t.origin == UnionOrigin ==> Convert(env, caps, v, t) == Err(NotImplementedError)
  {
    UnionRejected(t, NotImplementedError);
  }

  /**
   * The bare `typing.Union` is kept by `subscripted_type`; as a target it turns
   * `None` into `None` and fails on anything else with TypeError.
   */
  lemma BareUnionTarget(env: Foreign, caps: Caps, v: Value)
    ensures Normalize(DBareAlias(UnionOrigin)) == Ok(DBareAlias(UnionOrigin))
    ensures v.VNone? ==> Convert(env, caps, v, DBareAlias(UnionOrigin)) == Ok(VNone)
    ensures !v.VNone? ==> Convert(env, caps, v, DBareAlias(UnionOrigin)) == Err(TypeError)
  {
    PlainUnchanged(DBareAlias(UnionOrigin), NotImplementedError);
  }

  /** A value whose class is exactly the target class is returned as it is. */
  lemma ExactClassKept(env: Foreign, caps: Caps, v: Value, k: Kind)
    requires !v.VMember? && TypeOf(v) == k
    ensures Convert(env, caps, v, DScalar(k)) == Ok(v)
  {
  }

  /**
   * A successful conversion to one of the classes this model reads itself (not
   * `None`) yields an instance of that class.
   */
  lemma ScalarResultIsInstance(env: Foreign, caps: Caps, v: Value, k: Kind)
    requires k in {StrK, IntK, FloatK, BoolK, DurationK, DateK, DateTimeK}
    requires !v.VNone? && Convert(env, caps, v, DScalar(k)).Ok?
    ensures IsInstance(Convert(env, caps, v, DScalar(k)).value, k)
  {
  }

  /** The member descriptor element `j` is converted with: the single member for all, else member `j`. */
  function MemberFor(ms: seq<Desc>, j: nat): Desc
    requires |ms| == 1 || j < |ms|
  {
    if |ms| == 1 then ms[0] else ms[j]
  }

  /**
   * A list or tuple converts element-wise to a list or tuple literal: every
   * element with the one member, or with the member at its position when the
   * lengths agree; any other pair of lengths is a ValueError. A failure is the
   * first failing element's, except that a StopIteration becomes a RuntimeError
   * as it leaves the generator expression that builds the result.
   */
  lemma SeqElementwise(env: Foreign, caps: Caps, v: Value, kind: SeqKind, ms: seq<Desc>)
    requires v.VList? || v.VTuple?
    requires Normalize(DSeq(kind, ms)).Ok?
    ensures |ms| != 1 && |ms| != |v.items| ==> Convert(env, caps, v, DSeq(kind, ms)) == Err(ValueError)
    ensures |ms| == 1 || |ms| == |v.items| ==>
      var r := Convert(env, caps, v, DSeq(kind, ms));
      && (r.Ok? <==> forall j :: 0 <= j < |v.items| ==> Convert(env, caps, v.items[j], MemberFor(ms, j)).Ok?)
      && (r.Ok? ==>
        && (r.value.VList? <==> kind == ListKind)
        && (r.value.VList? || r.value.VTuple?)
        && |r.value.items| == |v.items|
        && forall j :: 0 <= j < |v.items| ==> Convert(env, caps, v.items[j], MemberFor(ms, j)) == Ok(r.value.items[j]))
      && (r.Err? ==> exists j :: (
        && 0 <= j < |v.items|
        && (forall k :: 0 <= k < j ==> Convert(env, caps, v.items[k], MemberFor(ms, k)).Ok?)
        && Convert(env, caps, v.items[j], MemberFor(ms, j)).Err?
        && r.error == GeneratorError(Convert(env, caps, v.items[j], MemberFor(ms, j)).error)))
  {
    var t := DSeq(kind, ms);
    var d := Normalize(t).value;
    assert d.DSeq? && d.kind == kind && |d.members| == |ms| &&
      forall i :: 0 <= i < |ms| ==> Normalize(ms[i]) == Ok(d.members[i])
    by {
      LiteralMemberwise(t, NotImplementedError);
    }
    assert Convert(env, caps, v, t) == SeqBranch(env, caps, v, d);
    if |ms| == 1 || |ms| == |v.items| {
      SeqPaired(env, caps, v, d, ms);
    }
  }

  /** The sequence branch on a list or tuple whose length pairs with the members. */
  lemma SeqPaired(env: Foreign, caps: Caps, v: Value, d: Desc, ms: seq<Desc>)
    requires v.VList? || v.VTuple?
    requires d.DSeq? && |d.members| == |ms| && (|ms| == 1 || |ms| == |v.items|)
    requires forall i :: 0 <= i < |ms| ==> Normalize(ms[i]) == Ok(d.members[i])
    ensures var r := SeqBranch(env, caps, v, d);
      && (r.Ok? <==> forall j :: 0 <= j < |v.items| ==> Convert(env, caps, v.items[j], MemberFor(ms, j)).Ok?)
      && (r.Ok? ==>
        && (r.value.VList? <==> d.kind == ListKind)
        && (r.value.VList? || r.value.VTuple?)
        && |r.value.items| == |v.items|
        && forall j :: 0 <= j < |v.items| ==> Convert(env, caps, v.items[j], MemberFor(ms, j)) == Ok(r.value.items[j]))
      && (r.Err? ==> exists j :: (
        && 0 <= j < |v.items|
        && (forall k :: 0 <= k < j ==> Convert(env, caps, v.items[k], MemberFor(ms, k)).Ok?)
        && Convert(env, caps, v.items[j], MemberFor(ms, j)).Err?
        && r.error == GeneratorError(Convert(env, caps, v.items[j], MemberFor(ms, j)).error)))
  {
    var n := |v.items|;
    assert Len(v) == n;
    MembersSmaller(d);
    var types := Pairing(d.members, n).value;
    forall j | 0 <= j < n
      ensures Element(v, j) == Ok(v.items[j])
      ensures Convert(env, caps, v.items[j], types[j]) == Convert(env, caps, v.items[j], MemberFor(ms, j))
    {
      var m := if |ms| == 1 then 0 else j;
      assert types[j] == d.members[m] && MemberFor(ms, j) == ms[m];
      NormalizedTarget(env, caps, v.items[j], ms[m]);
    }
    var out := ConvertElements(env, caps, v, types, d, 0);
    assert SeqBranch(env, caps, v, d) == if out.Ok? then Ok(Build(d.kind, out.value)) else Err(out.error);
    if out.Err? {
      PairedFailure(env, caps, v, d, ms, types);
    }
  }

  /** A failure of the paired elements, restated with the members they pair with. */
  lemma PairedFailure(env: Foreign, caps: Caps, v: Value, d: Desc, ms: seq<Desc>, types: seq<Desc>)
    requires v.VList? || v.VTuple?
    requires d.DSeq? && |types| == |v.items| && (|ms| == 1 || |ms| == |v.items|)
    requires forall j :: 0 <= j < |types| ==> Size(types[j]) < Size(d)
    requires forall j :: 0 <= j < |types| ==>
      Element(v, j) == Ok(v.items[j]) && Convert(env, caps, v.items[j], types[j]) == Convert(env, caps, v.items[j], MemberFor(ms, j))
    requires ConvertElements(env, caps, v, types, d, 0).Err?
    ensures exists j :: (
      && 0 <= j < |v.items|
      && (forall k :: 0 <= k < j ==> Convert(env, caps, v.items[k], MemberFor(ms, k)).Ok?)
      && Convert(env, caps, v.items[j], MemberFor(ms, j)).Err?
      && ConvertElements(env, caps, v, types, d, 0).error == GeneratorError(Convert(env, caps, v.items[j], MemberFor(ms, j)).error))
  {
    ElementsFirstFailure(env, caps, v, types, d, 0);
    var j :| (
      && 0 <= j < |types|
      && (forall k :: 0 <= k < j ==> ItemResult(env, caps, v, types[k], k).Ok?)
      && ItemResult(env, caps, v, types[j], j).Err?
      && ConvertElements(env, caps, v, types, d, 0).error == GeneratorError(ItemResult(env, caps, v, types[j], j).error));
    assert ItemResult(env, caps, v, types[j], j) == Convert(env, caps, v.items[j], MemberFor(ms, j));
    assert forall k :: 0 <= k < j ==> ItemResult(env, caps, v, types[k], k) == Convert(env, caps, v.items[k], MemberFor(ms, k));
  }

  /**
   * `to_type([{'a': 1}], [{}])`: the element's StopIteration from the empty dict
   * target leaves the generator expression as a RuntimeError.
   */
  lemma EmptyDictMember(env: Foreign, caps: Caps, es: seq<(Value, Value)>)
    ensures Convert(env, caps, VList([VDict(es)]), DSeq(ListKind, [DMap([])])) == Err(RuntimeError)
  {
    var t := DSeq(ListKind, [DMap([])]);
    PlainUnchanged(t, NotImplementedError);
    DictWithoutEntries(env, caps, es);
    SeqElementwise(env, caps, VList([VDict(es)]), ListKind, [DMap([])]);
  }

  /**
   * Text that is not a literal collection is cut into its lines, else its
   * comma-separated fields, each stripped, and converted as that list; a
   * literal collection is converted as what it evaluates to; any other value
   * that is not a collection is converted as a list of itself.
   */
  lemma SeqFromOther(env: Foreign, caps: Caps, v: Value, kind: SeqKind, ms: seq<Desc>)
    requires !v.VNone? && !v.VMember?
    ensures var t := DSeq(kind, ms);
      && (v.VStr? && (env.literalEval(v.s).Err? || !IsCollection(env.literalEval(v.s).value)) ==>
        Convert(env, caps, v, t) == Convert(env, caps, VList(Stripped(Pieces(v.s))), t))
      && (v.VStr? && env.literalEval(v.s).Ok? && IsCollection(env.literalEval(v.s).value) && !env.literalEval(v.s).value.VStr? ==>
        Convert(env, caps, v, t) == Convert(env, caps, env.literalEval(v.s).value, t))
      && (!IsCollection(v) ==> Convert(env, caps, v, t) == Convert(env, caps, VList([v]), t))
  {
    SeqEntry(env, caps, v, kind, ms);
    var e := if v.VStr? then env.literalEval(v.s) else Err(ValueError);
    if v.VStr? && (e.Err? || !IsCollection(e.value)) {
      SeqEntry(env, caps, VList(Stripped(Pieces(v.s))), kind, ms);
    } else if v.VStr? && !e.value.VStr? {
      SeqEntry(env, caps, e.value, kind, ms);
    } else if !IsCollection(v) {
      SeqEntry(env, caps, VList([v]), kind, ms);
    }
  }

  /**
   * Text whose literal is itself text: `literal_eval` gives a `str`, which is a
   * collection, so its characters are the items, each converted as a one-character
   * string.
   */
  lemma SeqFromTextLiteral(env: Foreign, caps: Caps, s: string, kind: SeqKind, ms: seq<Desc>)
    requires env.literalEval(s).Ok? && env.literalEval(s).value.VStr?
    ensures var w := env.literalEval(s).value.s;
      Convert(env, caps, VStr(s), DSeq(kind, ms)) ==
      Convert(env, caps, VList(Chars(w)), DSeq(kind, ms))
  {
    var w := env.literalEval(s).value.s;
    var cs := Chars(w);
    SeqEntry(env, caps, VStr(s), kind, ms);
    SeqEntry(env, caps, VList(cs), kind, ms);
    match Normalize(DSeq(kind, ms))
    case Err(_) =>
    case Ok(d) =>
      assert Elements(env, VStr(s)) == VStr(w);
      match Pairing(d.members, |w|)
      case Err(_) =>
      case Ok(types) =>
        MembersSmaller(d);
        ElementsAgree(env, caps, VStr(w), VList(cs), types, d, 0);
  }

  /** `a` and `b` are collections with the same items, paired with `types` under `d`. */
  predicate SameItems(a: Value, b: Value, types: seq<Desc>, d: Desc)
  {
    && IsCollection(a) && IsCollection(b) && Len(a) == |types| && Len(b) == |types|
    && (forall j :: 0 <= j < |types| ==> Size(types[j]) < Size(d))
    && (forall j :: 0 <= j < |types| ==> Element(a, j) == Element(b, j))
  }

  /** The elements conversion sees its items only through indexing. */
  lemma {:induction false} ElementsAgree(env: Foreign, caps: Caps, a: Value, b: Value, types: seq<Desc>, d: Desc, i: nat)
    requires SameItems(a, b, types, d) && i <= |types|
    ensures ConvertElements(env, caps, a, types, d, i) == ConvertElements(env, caps, b, types, d, i)
    decreases |types| - i, 1
  {
    if i < |types| {
      AgreeFrom(env, caps, a, b, types, d, i);
    } else {
      AgreeEnd(env, caps, a, b, types, d);
    }
  }

  lemma AgreeEnd(env: Foreign, caps: Caps, a: Value, b: Value, types: seq<Desc>, d: Desc)
    requires SameItems(a, b, types, d)
    ensures ConvertElements(env, caps, a, types, d, |types|) == ConvertElements(env, caps, b, types, d, |types|)
  {
  }

  /** One step of `ElementsAgree`, at an index that has an item. */
  lemma {:induction false} AgreeFrom(env: Foreign, caps: Caps, a: Value, b: Value, types: seq<Desc>, d: Desc, i: nat)
    requires SameItems(a, b, types, d) && i < |types|
    ensures ConvertElements(env, caps, a, types, d, i) == ConvertElements(env, caps, b, types, d, i)
    decreases |types| - i, 0
  {
    ElementsAgree(env, caps, a, b, types, d, i + 1);
    AgreeStep(env, caps, a, b, types, d, i);
  }

  /** Equal items at `i` and equal rests after it give equal elements from `i`. */
  lemma AgreeStep(env: Foreign, caps: Caps, a: Value, b: Value, types: seq<Desc>, d: Desc, i: nat)
    requires SameItems(a, b, types, d) && i < |types|
    requires ConvertElements(env, caps, a, types, d, i + 1) == ConvertElements(env, caps, b, types, d, i + 1)
    ensures ConvertElements(env, caps, a, types, d, i) == ConvertElements(env, caps, b, types, d, i)
  {
    ItemsAgree(env, caps, a, b, types[i], i);
    ElementsStep(env, caps, a, types, d, i);
    ElementsStep(env, caps, b, types, d, i);
  }

  lemma ItemsAgree(env: Foreign, caps: Caps, a: Value, b: Value, t: Desc, i: nat)
    requires IsCollection(a) && IsCollection(b) && i < Len(a) && i < Len(b)
    requires Element(a, i) == Element(b, i)
    ensures ItemResult(env, caps, a, t, i) == ItemResult(env, caps, b, t, i)
  {
  }

  /** One of the documented cases: comma-separated text gives its stripped fields. */
  lemma CommaTextStripped(env: Foreign, caps: Caps)
    requires env.literalEval("test 1, test 2, test 3").Err?
    ensures Convert(env, caps, VStr("test 1, test 2, test 3"), DSeq(ListKind, [DScalar(StrK)]))
      == Ok(VList([VStr("test 1"), VStr("test 2"), VStr("test 3")]))
  {
    CommaPieces();
    CommaFieldsStripped();
    TextToStrings(env, caps, "test 1, test 2, test 3", [VStr("test 1"), VStr("test 2"), VStr("test 3")]);
  }

  /** Text that is not a literal collection, converted to `[str]`, gives its stripped pieces. */
  lemma TextToStrings(env: Foreign, caps: Caps, s: string, items: seq<Value>)
    requires env.literalEval(s).Err? && Stripped(Pieces(s)) == items
    ensures Convert(env, caps, VStr(s), DSeq(ListKind, [DScalar(StrK)])) == Ok(VList(items))
  {
    SeqFromOther(env, caps, VStr(s), ListKind, [DScalar(StrK)]);
    StringsKept(env, caps, items);
  }

  lemma CommaPieces()
    ensures Pieces("test 1, test 2, test 3") == ["test 1", " test 2", " test 3"]
  {
    var parts := ["test 1", " test 2", " test 3"];
    CommaJoin();
    SplitJoin(parts, ',');
    CommaOnly();
  }

  lemma CommaFieldsStripped()
    ensures Stripped(["test 1", " test 2", " test 3"]) == [VStr("test 1"), VStr("test 2"), VStr("test 3")]
  {
    StripsThree();
  }

  lemma CommaJoin()
    ensures Join(["test 1", " test 2", " test 3"], ',') == "test 1, test 2, test 3"
    ensures forall i :: 0 <= i < 3 ==> Lacks(["test 1", " test 2", " test 3"][i], ',')
  {
    var p := ["test 1", " test 2", " test 3"];
    assert p[1..][1..] == [" test 3"];
    assert Join(p[1..], ',') == " test 2, test 3";
  }

  lemma CommaOnly()
    ensures '\n' !in "test 1, test 2, test 3" && ',' in "test 1, test 2, test 3"
  {
    var s := "test 1, test 2, test 3";
    assert s[6] == ',';
    assert forall k :: 0 <= k < |s| ==> s[k] != '\n';
  }

  /** Each string converted to the one member `str` is itself. */
  lemma StringsEach(env: Foreign, caps: Caps, items: seq<Value>)
    requires forall j :: 0 <= j < |items| ==> items[j].VStr?
    ensures forall j :: 0 <= j < |items| ==> Convert(env, caps, items[j], MemberFor([DScalar(StrK)], j)) == Ok(items[j])
  {
    forall j | 0 <= j < |items|
      ensures Convert(env, caps, items[j], MemberFor([DScalar(StrK)], j)) == Ok(items[j])
    {
      ExactClassKept(env, caps, items[j], StrK);
    }
  }

  /** A list of strings converted to `[str]` is the same list. */
  lemma StringsKept(env: Foreign, caps: Caps, items: seq<Value>)
    requires forall j :: 0 <= j < |items| ==> items[j].VStr?
    ensures Convert(env, caps, VList(items), DSeq(ListKind, [DScalar(StrK)])) == Ok(VList(items))
  {
    var t := DSeq(ListKind, [DScalar(StrK)]);
    var r := Convert(env, caps, VList(items), t);
    StringsEach(env, caps, items);
    assert r.Ok? && r.value.VList? && |r.value.items| == |items| &&
      forall j :: 0 <= j < |items| ==> Convert(env, caps, items[j], MemberFor([DScalar(StrK)], j)) == Ok(r.value.items[j])
    by {
      assert Normalize(t).Ok? by { PlainUnchanged(t, NotImplementedError); }
      SeqElementwise(env, caps, VList(items), ListKind, [DScalar(StrK)]);
    }
    assert r.value.items == items;
  }

  lemma StripsThree()
    ensures Strip("test 1") == "test 1" && Strip(" test 2") == "test 2" && Strip(" test 3") == "test 3"
  {
    assert SkipSpace("test 1", 0) == 0;
    assert BackSpace("test 1", 0, 6) == 6;
    assert SkipSpace(" test 2", 0) == 1;
    assert BackSpace(" test 2", 1, 7) == 7;
    assert SkipSpace(" test 3", 0) == 1;
    assert BackSpace(" test 3", 1, 7) == 7;
  }

  /**
   * A dict converts key by key and value by value with the first entry of the
   * target, into a dict built from the converted pairs in order (so of two keys
   * that become equal, the later one's value stays); a failing conversion fails
   * the whole, and so does a converted key that cannot be hashed, with TypeError.
   */
  lemma DictKeywise(env: Foreign, caps: Caps, es: seq<(Value, Value)>, t: Desc)
    requires Normalize(t).Ok? && Normalize(t).value.DMap? && Normalize(t).value.entries != []
    ensures
      var d := Normalize(t).value;
      var kd, vd := d.entries[0].0, d.entries[0].1;
      var r := Convert(env, caps, VDict(es), t);
      var allOk := forall j :: 0 <= j < |es| ==> Convert(env, caps, es[j].0, kd).Ok? && Convert(env, caps, es[j].1, vd).Ok?;
      && (!allOk ==> r.Err?)
      && (allOk ==> (r.Ok? <==> forall j :: 0 <= j < |es| ==> Hashable(Convert(env, caps, es[j].0, kd).value)))
      && (allOk && r.Err? ==> r.error == TypeError)
      && (r.Ok? ==> exists ps: seq<(Value, Value)> ::
        && |ps| == |es|
        && (forall j :: 0 <= j < |es| ==> Convert(env, caps, es[j].0, kd) == Ok(ps[j].0) && Convert(env, caps, es[j].1, vd) == Ok(ps[j].1))
        && r.value == VDict(Dicts.InsertAll([], ps, PyEq))
        && DistinctKeys(r.value.entries))
  {
    var d := Normalize(t).value;
    NormalizedTarget(env, caps, VDict(es), t);
    PlainUnchanged(d, NotImplementedError);
    assert Convert(env, caps, VDict(es), d) == MapBranch(env, caps, VDict(es), d);
    KeywiseItems(env, caps, es, d);
  }

  /** The dict branch on a plain dict target: the items convert keywise with the first entry, then `dict` builds the result. */
  lemma KeywiseItems(env: Foreign, caps: Caps, es: seq<(Value, Value)>, d: Desc)
    requires d.DMap? && d.entries != []
    ensures
      var kd, vd := d.entries[0].0, d.entries[0].1;
      var r := MapBranch(env, caps, VDict(es), d);
      var allOk := forall j :: 0 <= j < |es| ==> Convert(env, caps, es[j].0, kd).Ok? && Convert(env, caps, es[j].1, vd).Ok?;
      && (!allOk ==> r.Err?)
      && (allOk ==> (r.Ok? <==> forall j :: 0 <= j < |es| ==> Hashable(Convert(env, caps, es[j].0, kd).value)))
      && (allOk && r.Err? ==> r.error == TypeError)
      && (r.Ok? ==> exists ps: seq<(Value, Value)> ::
        && |ps| == |es|
        && (forall j :: 0 <= j < |es| ==> Convert(env, caps, es[j].0, kd) == Ok(ps[j].0) && Convert(env, caps, es[j].1, vd) == Ok(ps[j].1))
        && r.value == VDict(Dicts.InsertAll([], ps, PyEq))
        && DistinctKeys(r.value.entries))
  {
    var kd, vd := FirstEntry(d).0, FirstEntry(d).1;
    var items := ConvertItems(env, caps, es, kd, vd, d, 0);
    if items.Ok? {
      var ps := items.value;
      assert forall j :: 0 <= j < |es| ==> Convert(env, caps, es[j].0, kd) == Ok(ps[j].0) && Convert(env, caps, es[j].1, vd) == Ok(ps[j].1);
    }
  }

  /** A dict target with no entries cannot pick its key class: StopIteration. */
  lemma DictWithoutEntries(env: Foreign, caps: Caps, es: seq<(Value, Value)>)
    ensures Convert(env, caps, VDict(es), DMap([])) == Err(StopIteration)
  {
    assert NormalizePairs(DMap([]), 0, NotImplementedError) == Ok([]);
  }

  /**
   * For a dict target, text is parsed as JSON once its single quotes are double
   * quotes, and the result is not converted further; a CRS gives its JSON dict
   * when pyproj is installed; any other value that is not a dict is returned as
   * it is.
   */
  lemma DictFromOther(env: Foreign, caps: Caps, v: Value, t: Desc)
    requires !v.VMember? && !v.VDict?
    requires Normalize(t).Ok? && Normalize(t).value.DMap?
    ensures v.VStr? ==> Convert(env, caps, v, t) == env.jsonLoads(ReplaceChar(v.s, '\'', '"'))
    ensures v.VCrs? && caps.pyproj ==> Convert(env, caps, v, t) == Ok(env.crsJson(v.crs))
    ensures !v.VStr? && !(v.VCrs? && caps.pyproj) ==> Convert(env, caps, v, t) == Ok(v)
  {
    NormalizedTarget(env, caps, v, t);
    PlainUnchanged(Normalize(t).value, NotImplementedError);
  }

  /**
   * An `Enum` target looks the input up by member name, then by value; `None`
   * stays `None`; an input that matches nothing is a ValueError.
   */
  lemma EnumTarget(env: Foreign, caps: Caps, v: Value, def: EnumDef)
    ensures v.VNone? ==> Convert(env, caps, v, DEnum(def)) == Ok(VNone)
    ensures var r := Convert(env, caps, v, DEnum(def));
      !v.VNone? && r.Ok? ==> exists j :: 0 <= j < |def.members| && r.value == MemberAt(def, j)
    ensures v.VStr? && NameIndex(def, v.s, 0).Some? ==>
      Convert(env, caps, v, DEnum(def)) == Ok(MemberAt(def, Canonical(def, NameIndex(def, v.s, 0).value)))
    ensures (!v.VNone? && !v.VMember? && (!v.VStr? || NameIndex(def, v.s, 0).None?) && Hashable(v) &&
      ValueIndex(def, v, 0).Some?) ==>
      Convert(env, caps, v, DEnum(def)) == Ok(MemberAt(def, ValueIndex(def, v, 0).value))
    ensures var r := Convert(env, caps, v, DEnum(def));
      r.Err? ==> r.error == ValueError || (r.error == TypeError && !Hashable(v))
  {
    EnumEntry(env, caps, v, def);
  }

  /** An `Enum` target is already plain, so the input goes straight to the member lookup. */
  lemma EnumEntry(env: Foreign, caps: Caps, v: Value, def: EnumDef)
    ensures Convert(env, caps, v, DEnum(def)) ==
      var v1 := if v.VMember? then VStr(v.name) else v;
      if v1.VNone? then Ok(VNone) else EnumLookup(def, v1)
  {
    PlainUnchanged(DEnum(def), NotImplementedError);
  }

  /** Member names of an `Enum` are distinct. */
  predicate DistinctNames(def: EnumDef)
  {
    forall i, j :: 0 <= i < j < |def.members| ==> def.members[i].0 != def.members[j].0
  }

  /**
   * A member converted to its own `Enum` gives that member back, or the member
   * it is an alias of (the first one with an equal value).
   */
  lemma EnumRoundTrip(env: Foreign, caps: Caps, def: EnumDef, j: nat)
    requires DistinctNames(def) && j < |def.members|
    ensures Convert(env, caps, MemberAt(def, j), DEnum(def)) == Ok(MemberAt(def, Canonical(def, j)))
  {
    var i := NameIndex(def, def.members[j].0, 0);
    assert i.Some?;
    assert i.value == j;
  }

  /** A duration given to `str` is rendered "HH:MM:SS", to `float` as its total seconds. */
  lemma DurationOut(env: Foreign, caps: Caps, micros: int)
    ensures Convert(env, caps, VDuration(micros), DScalar(StrK)) == Ok(VStr(Durations.Render(env, micros)))
    ensures Convert(env, caps, VDuration(micros), DScalar(FloatK)) == Ok(VFloat(Durations.TotalSeconds(micros)))
  {
    ScalarEntry(env, caps, VDuration(micros), StrK);
    ScalarEntry(env, caps, VDuration(micros), FloatK);
    DurationBranch(env, caps, micros);
  }

  lemma DurationBranch(env: Foreign, caps: Caps, micros: int)
    ensures ScalarBranch(env, caps, VDuration(micros), StrK) == Ok(VStr(Durations.Render(env, micros)))
    ensures ScalarBranch(env, caps, VDuration(micros), FloatK) == Ok(VFloat(Durations.TotalSeconds(micros)))
  {
  }

  /**
   * A `timedelta` target reads colon text as days, hours, minutes and seconds
   * from the right, and anything else as a number of seconds.
   */
  lemma DurationIn(env: Foreign, caps: Caps, v: Value)
    requires !v.VNone? && !v.VDuration? && !v.VMember?
    ensures Convert(env, caps, v, DScalar(DurationK)) ==
      match Durations.ParseDuration(env, v)
      case Ok(m) => Ok(VDuration(m))
      case Err(e) => Err(e)
  {
    ScalarEntry(env, caps, v, DurationK);
    DurationInBranch(env, caps, v);
  }

  lemma DurationInBranch(env: Foreign, caps: Caps, v: Value)
    requires !v.VNone? && !v.VDuration? && !v.VMember?
    ensures ScalarBranch(env, caps, v, DurationK) ==
      match Durations.ParseDuration(env, v)
      case Ok(m) => Ok(VDuration(m))
      case Err(e) => Err(e)
  {
    DurationSteps(env, caps, v);
    DurationParse(env, caps, v);
    match Durations.ParseDuration(env, v)
    case Ok(m) =>
      assert Parse(env, caps, v, DurationK) == Ok(VDuration(m));
      DurationFinish(env, m);
    case Err(e) =>
      assert Parse(env, caps, v, DurationK) == Err(e);
  }

  /** The scalar branch for a `timedelta` target on a value the preparation keeps. */
  lemma DurationSteps(env: Foreign, caps: Caps, v: Value)
    requires !v.VNone? && !v.VDuration?
    ensures ScalarBranch(env, caps, v, DurationK) ==
      match Parse(env, caps, v, DurationK)
      case Err(e) => Err(e)
      case Ok(x) => Finish(env, x, DurationK)
  {
    ScalarSteps(env, caps, v, DurationK);
    assert !IsSubclass(DurationK, StrK) && !IsSubclass(DurationK, DictK) && !IsSubclass(DurationK, IntK);
    assert Prepare(env, caps.pyproj, v, DurationK) == v;
  }

  lemma DurationFinish(env: Foreign, m: int)
    ensures Finish(env, VDuration(m), DurationK) == Ok(VDuration(m))
  {
    assert IsInstance(VDuration(m), DurationK);
  }

  /** The scalar branch on a value that is neither `None` nor of the target class: prepare, parse, finish. */
  lemma ScalarSteps(env: Foreign, caps: Caps, v: Value, k: Kind)
    requires !v.VNone? && TypeOf(v) != k
    ensures ScalarBranch(env, caps, v, k) ==
      match Parse(env, caps, Prepare(env, caps.pyproj, v, k), k)
      case Err(e) => Err(e)
      case Ok(x) => Finish(env, x, k)
  {
  }

  lemma DurationParse(env: Foreign, caps: Caps, v: Value)
    ensures var p := Durations.ParseDuration(env, v);
      Parse(env, caps, v, DurationK) == if p.Ok? then Ok(VDuration(p.value)) else Err(p.error)
  {
    assert !IsSubclass(DurationK, BoolK) && !IsSubclass(DurationK, DateK) && IsSubclass(DurationK, DurationK);
  }

  /** Colon text with more than four fields is a ValueError. */
  lemma DurationTooManyFields(env: Foreign, caps: Caps, s: string)
    requires Count(s, ':') >= 4
    ensures Convert(env, caps, VStr(s), DScalar(DurationK)) == Err(ValueError)
  {
    Durations.TooManyFields(env, s);
    DurationIn(env, caps, VStr(s));
  }

  /** Two digit fields around a colon are minutes and seconds: "20:15" is twenty minutes and fifteen seconds. */
  lemma MinutesAndSeconds(env: Foreign, caps: Caps, m: string, s: string)
    requires IsDigits(m) && IsDigits(s)
    ensures Convert(env, caps, VStr(m + ":" + s), DScalar(DurationK))
      == Ok(VDuration(Durations.FromSeconds((DigitsValue(m) * 60 + DigitsValue(s)) as real)))
  {
    var text := m + ":" + s;
    Durations.MinutesAndSeconds(env, m, s);
    DurationIn(env, caps, VStr(text));
  }

  /** Colon text of five or more fields is a ValueError: "02:01:13:20:15" is refused. */
  lemma FiveFieldsRejected(env: Foreign, caps: Caps, ps: seq<string>)
    requires |ps| >= 5 && forall i :: 0 <= i < |ps| ==> Lacks(ps[i], ':')
    ensures Convert(env, caps, VStr(Join(ps, ':')), DScalar(DurationK)) == Err(ValueError)
  {
    JoinCount(ps, ':');
    DurationTooManyFields(env, caps, Join(ps, ':'));
  }

  /** A duration survives the round trip through its total seconds. */
  lemma DurationSecondsRoundTrip(env: Foreign, caps: Caps, micros: int)
    ensures var x := Convert(env, caps, VDuration(micros), DScalar(FloatK));
      x.Ok? && Convert(env, caps, x.value, DScalar(DurationK)) == Ok(VDuration(micros))
  {
    DurationOut(env, caps, micros);
    Durations.SecondsRoundTrip(micros);
    DurationIn(env, caps, VFloat(Durations.TotalSeconds(micros)));
  }

  /**
   * A non-negative duration survives the round trip through its text, when the
   * seconds are formatted without a colon and read back exactly.
   */
  lemma DurationTextRoundTrip(env: Foreign, caps: Caps, micros: int)
    requires micros >= 0
    requires Lacks(env.formatSeconds(Durations.RestSeconds(micros)), ':')
    requires FloatOfText(env, env.formatSeconds(Durations.RestSeconds(micros))) == Ok(Durations.RestSeconds(micros))
    ensures var s := Convert(env, caps, VDuration(micros), DScalar(StrK));
      s.Ok? && Convert(env, caps, s.value, DScalar(DurationK)) == Ok(VDuration(micros))
  {
    DurationOut(env, caps, micros);
    Durations.RenderRoundTrip(env, micros);
    DurationIn(env, caps, VStr(Durations.Render(env, micros)));
  }

  /** A date given to `datetime` is that day at midnight; a datetime given to `date` is its day. */
  lemma DateAndDateTime(env: Foreign, caps: Caps, day: Date, time: Time)
    ensures Convert(env, caps, VDate(day), DScalar(DateTimeK)) == Ok(VDateTime(day, Midnight))
    ensures Convert(env, caps, VDateTime(day, time), DScalar(DateK)) == Ok(VDate(day))
  {
    ScalarEntry(env, caps, VDate(day), DateTimeK);
    ScalarEntry(env, caps, VDateTime(day, time), DateK);
    DateBranches(env, caps, day, time);
  }

  lemma DateBranches(env: Foreign, caps: Caps, day: Date, time: Time)
    ensures ScalarBranch(env, caps, VDate(day), DateTimeK) == Ok(VDateTime(day, Midnight))
    ensures ScalarBranch(env, caps, VDateTime(day, time), DateK) == Ok(VDate(day))
  {
  }

  /**
   * Text given to `bool` is literal-evaluated; when that is a ValueError
   * (a bare word such as "test"), the text's truthiness decides; other errors
   * propagate.
   */
  lemma BoolFromText(env: Foreign, caps: Caps, s: string)
    ensures env.literalEval(s) == Err(ValueError) ==> Convert(env, caps, VStr(s), DScalar(BoolK)) == Ok(VBool(s != []))
    ensures env.literalEval(s).Ok? && env.literalEval(s).value.VBool? ==>
      Convert(env, caps, VStr(s), DScalar(BoolK)) == env.literalEval(s)
    ensures env.literalEval(s).Err? && env.literalEval(s).error != ValueError ==>
      Convert(env, caps, VStr(s), DScalar(BoolK)) == Err(env.literalEval(s).error)
  {
  }
}
