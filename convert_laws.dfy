/**
 * What the legacy engine of typepigeon/convert.py does, branch by branch,
 * stated over `Legacy.ConvertValue` and `Legacy.ConvertToJson`, including the
 * places where it departs from what the repository's tests expect.
 */
module LegacyLaws {
  import opened Wrappers
  import opened Values
  import opened Text
  import opened Descriptors
  import opened Scalars
  import opened Legacy
  import Durations
  import Dicts
  import ToTypeLaws
  import Json

  /** On a target without `Union`, the legacy guard is the normalisation of `subscripted_type`. */
  lemma GuardIsNormalize(d: Desc)
    requires !ContainsUnion(d)
    ensures GuardGenericAlias(d) == Normalize(d)
  {
    UnionErrorIrrelevant(d, TypeError, NotImplementedError);
  }

  /** A target containing a subscripted `Union` is refused by the guard; a `Union[...]` itself with TypeError. */
  lemma GuardRejectsUnion(d: Desc)
    requires ContainsUnion(d)
    ensures GuardGenericAlias(d).Err?
    ensures d.DAlias? && d.origin == UnionOrigin ==> GuardGenericAlias(d) == Err(TypeError)
  {
    UnionRejected(d, TypeError);
  }

  /**
   * The bare `typing.Union` passes the guard unchanged, and converting anything
   * to it, `None` included, is a TypeError from `isinstance`.
   */
  lemma BareUnionTarget(env: Foreign, v: Value)
    ensures GuardGenericAlias(DBareAlias(UnionOrigin)) == Ok(DBareAlias(UnionOrigin))
    ensures ConvertValue(env, v, DBareAlias(UnionOrigin)) == Err(TypeError)
  {
    PlainUnchanged(DBareAlias(UnionOrigin), TypeError);
  }

  /** Guarding twice is guarding once. */
  lemma GuardIdempotent(d: Desc)
    requires GuardGenericAlias(d).Ok?
    ensures GuardGenericAlias(GuardGenericAlias(d).value) == GuardGenericAlias(d)
  {
    Idempotent(d, TypeError);
  }

  /** Converting to a descriptor is converting to its guarded form. */
  lemma GuardedTarget(env: Foreign, v: Value, t: Desc)
    requires GuardGenericAlias(t).Ok?
    ensures ConvertValue(env, v, t) == ConvertValue(env, v, GuardGenericAlias(t).value)
  {
    Idempotent(t, TypeError);
  }

  /** A class given by name is looked up among the builtins; an unknown name is an AttributeError. */
  lemma NamedTarget(env: Foreign, v: Value, name: string)
    ensures Builtin(name).Err? ==> ConvertValue(env, v, DName(name)) == Err(AttributeError)
    ensures Builtin(name).Ok? ==> ConvertValue(env, v, DName(name)) == ConvertValue(env, v, Builtin(name).value)
  {
    if Builtin(name).Ok? {
      PlainUnchanged(Builtin(name).value, TypeError);
    }
  }

  /** A `None` target gives `None`, an `Any` target the input (an enum member by its name). */
  lemma NoneAndAny(env: Foreign, v: Value)
    ensures ConvertValue(env, v, DNone) == Ok(VNone)
    ensures ConvertValue(env, v, DAny) == Ok(if v.VMember? then VStr(v.name) else v)
  {
  }

  /**
   * `None` converts to `None` for every target but a list or tuple, which gives
   * the empty container, and the bare `typing.Union`, which `isinstance` refuses.
   */
  lemma NoneInput(env: Foreign, t: Desc)
    requires !t.DName? && GuardGenericAlias(t).Ok?
    ensures var d := GuardGenericAlias(t).value;
      ConvertValue(env, VNone, t) ==
        if d.DSeq? then Ok(ToType.Build(d.kind, []))
        else if d.DBareAlias? then Err(TypeError)
        else Ok(VNone)
  {
  }

  /** Any instance of the target class, a subclass's included (`True` for `int`), is returned as it is. */
  lemma InstanceKept(env: Foreign, v: Value, k: Kind)
    requires !v.VMember? && IsInstance(v, k)
    ensures ConvertValue(env, v, DScalar(k)) == Ok(v)
  {
  }

  /**
   * A successful conversion of a value that is not `None` or a CRS to one of
   * the classes this model reads itself yields an instance of that class.
   */
  lemma ScalarResultIsInstance(env: Foreign, v: Value, k: Kind)
    requires k in {StrK, IntK, FloatK, DurationK, DateK}
    requires !v.VNone? && !v.VCrs? && ConvertValue(env, v, DScalar(k)).Ok?
    ensures IsInstance(ConvertValue(env, v, DScalar(k)).value, k)
  {
    ScalarEntry(env, v, k);
    BranchIsInstance(env, if v.VMember? then VStr(v.name) else v, k);
  }

  lemma BranchIsInstance(env: Foreign, v: Value, k: Kind)
    requires k in {StrK, IntK, FloatK, DurationK, DateK}
    requires !v.VNone? && !v.VCrs? && ScalarBranch(env, v, k).Ok?
    ensures IsInstance(ScalarBranch(env, v, k).value, k)
  {
    if !IsInstance(v, k) {
      var p := Parse(env, Prepare(env, true, v, k), k);
      assert p.Ok? && ScalarBranch(env, v, k) == Finish(env, p.value, k);
      assert !p.value.VCrs?;
      assert k == DateK ==> p.value.VDate?;
      assert k == DurationK ==> p.value.VDuration?;
    }
  }

  /** A CRS given to a class other than `str`, `dict`, `int` and `CRS` comes back unchanged. */
  lemma CrsKept(env: Foreign, c: nat, k: Kind)
    requires k in {FloatK, DurationK}
    ensures ConvertValue(env, VCrs(c), DScalar(k)) == (if k == FloatK then Ok(VCrs(c)) else Err(TypeError))
  {
    ScalarEntry(env, VCrs(c), k);
    CrsBranch(env, c, k);
  }

  lemma CrsBranch(env: Foreign, c: nat, k: Kind)
    requires k in {FloatK, DurationK}
    ensures ScalarBranch(env, VCrs(c), k) == (if k == FloatK then Ok(VCrs(c)) else Err(TypeError))
  {
    var x := VCrs(c);
    assert !IsInstance(x, k);
    assert Prepare(env, true, x, k) == x;
    if k == FloatK {
      assert Parse(env, x, k) == Ok(x);
      assert Finish(env, x, k) == Ok(x);
    } else {
      assert ParseDuration(env, x) == Err(TypeError);
    }
  }

  /**
   * A list or tuple converts element-wise to a list or tuple literal: every
   * element with the one member, or with the member at its position when the
   * lengths agree; any other pair of lengths is a ValueError.
   */
  lemma SeqElementwise(env: Foreign, v: Value, kind: SeqKind, ms: seq<Desc>)
    requires v.VList? || v.VTuple?
    requires GuardGenericAlias(DSeq(kind, ms)).Ok?
    ensures |ms| != 1 && |ms| != |v.items| ==> ConvertValue(env, v, DSeq(kind, ms)) == Err(ValueError)
    ensures |ms| == 1 || |ms| == |v.items| ==>
      var r := ConvertValue(env, v, DSeq(kind, ms));
      && (r.Ok? <==> forall j :: 0 <= j < |v.items| ==> ConvertValue(env, v.items[j], ToTypeLaws.MemberFor(ms, j)).Ok?)
      && (r.Ok? ==>
        && (r.value.VList? <==> kind == ListKind)
        && (r.value.VList? || r.value.VTuple?)
        && |r.value.items| == |v.items|
        && forall j :: 0 <= j < |v.items| ==> ConvertValue(env, v.items[j], ToTypeLaws.MemberFor(ms, j)) == Ok(r.value.items[j]))
  {
    var t := DSeq(kind, ms);
    var d := GuardGenericAlias(t).value;
    assert d.DSeq? && d.kind == kind && |d.members| == |ms| &&
      forall i :: 0 <= i < |ms| ==> GuardGenericAlias(ms[i]) == Ok(d.members[i])
    by {
      LiteralMemberwise(t, TypeError);
    }
    assert ConvertValue(env, v, t) == SeqBranch(env, v, d);
    if |ms| == 1 || |ms| == |v.items| {
      SeqPaired(env, v, d, ms);
    }
  }

  /** The sequence branch on a list or tuple whose length pairs with the members. */
  lemma SeqPaired(env: Foreign, v: Value, d: Desc, ms: seq<Desc>)
    requires v.VList? || v.VTuple?
    requires d.DSeq? && |d.members| == |ms| && (|ms| == 1 || |ms| == |v.items|)
    requires forall i :: 0 <= i < |ms| ==> GuardGenericAlias(ms[i]) == Ok(d.members[i])
    ensures var r := SeqBranch(env, v, d);
      && (r.Ok? <==> forall j :: 0 <= j < |v.items| ==> ConvertValue(env, v.items[j], ToTypeLaws.MemberFor(ms, j)).Ok?)
      && (r.Ok? ==>
        && (r.value.VList? <==> d.kind == ListKind)
        && (r.value.VList? || r.value.VTuple?)
        && |r.value.items| == |v.items|
        && forall j :: 0 <= j < |v.items| ==> ConvertValue(env, v.items[j], ToTypeLaws.MemberFor(ms, j)) == Ok(r.value.items[j]))
  {
    var n := |v.items|;
    assert Len(v) == n;
    ToType.MembersSmaller(d);
    var types := ToType.Pairing(d.members, n).value;
    forall j | 0 <= j < n
      ensures Element(v, j) == Ok(v.items[j])
      ensures ConvertValue(env, v.items[j], types[j]) == ConvertValue(env, v.items[j], ToTypeLaws.MemberFor(ms, j))
    {
      var m := if |ms| == 1 then 0 else j;
      assert types[j] == d.members[m] && ToTypeLaws.MemberFor(ms, j) == ms[m];
      GuardedTarget(env, v.items[j], ms[m]);
    }
    var out := ConvertElements(env, v, types, d, 0);
    assert SeqBranch(env, v, d) == if out.Ok? then Ok(ToType.Build(d.kind, out.value)) else Err(out.error);
  }

  /**
   * Text that is not a literal collection is cut at its commas, the pieces kept
   * as they are (line breaks are not separators), or else taken as a list of
   * itself; a literal collection is converted as what it evaluates to; any other
   * value that is not a collection is converted as a list of itself.
   */
  lemma SeqFromOther(env: Foreign, v: Value, kind: SeqKind, ms: seq<Desc>)
    requires !v.VNone? && !v.VMember?
    ensures var t := DSeq(kind, ms);
      var notLiteral := v.VStr? && (env.literalEval(v.s).Err? || !IsCollection(env.literalEval(v.s).value));
      && (notLiteral && ',' in v.s ==> ConvertValue(env, v, t) == ConvertValue(env, VList(Texts(Split(v.s, ','))), t))
      && (notLiteral && ',' !in v.s ==> ConvertValue(env, v, t) == ConvertValue(env, VList([v]), t))
      && (v.VStr? && env.literalEval(v.s).Ok? && IsCollection(env.literalEval(v.s).value) && !env.literalEval(v.s).value.VStr? ==>
        ConvertValue(env, v, t) == ConvertValue(env, env.literalEval(v.s).value, t))
      && (!IsCollection(v) ==> ConvertValue(env, v, t) == ConvertValue(env, VList([v]), t))
  {
  }

  /**
   * Text whose literal is itself text: `literal_eval` gives a `str`, which is a
   * collection, so its characters are the items, each converted as a one-character
   * string.
   */
  lemma SeqFromTextLiteral(env: Foreign, s: string, kind: SeqKind, ms: seq<Desc>)
    requires env.literalEval(s).Ok? && env.literalEval(s).value.VStr?
    ensures var w := env.literalEval(s).value.s;
      ConvertValue(env, VStr(s), DSeq(kind, ms)) == ConvertValue(env, VList(Chars(w)), DSeq(kind, ms))
  {
    var w := env.literalEval(s).value.s;
    match GuardGenericAlias(DSeq(kind, ms))
    case Err(_) =>
    case Ok(d) =>
      assert d.DSeq?;
      assert Elements(env, VStr(s)) == VStr(w);
      match ToType.Pairing(d.members, |w|)
      case Err(_) =>
      case Ok(types) =>
        ToType.MembersSmaller(d);
        ElementsAgree(env, VStr(w), VList(Chars(w)), types, d, 0);
  }

  /** `a` and `b` are collections with the same items, paired with `types` under `d`. */
  predicate SameItems(a: Value, b: Value, types: seq<Desc>, d: Desc)
  {
    && IsCollection(a) && IsCollection(b) && Len(a) == |types| && Len(b) == |types|
    && (forall j :: 0 <= j < |types| ==> Size(types[j]) < Size(d))
    && (forall j :: 0 <= j < |types| ==> Element(a, j) == Element(b, j))
  }

  /** The elements conversion sees its items only through indexing. */
  lemma {:induction false} ElementsAgree(env: Foreign, a: Value, b: Value, types: seq<Desc>, d: Desc, i: nat)
    requires SameItems(a, b, types, d) && i <= |types|
    ensures ConvertElements(env, a, types, d, i) == ConvertElements(env, b, types, d, i)
    decreases |types| - i, 1
  {
    if i < |types| {
      AgreeFrom(env, a, b, types, d, i);
    } else {
      AgreeEnd(env, a, b, types, d);
    }
  }

  lemma AgreeEnd(env: Foreign, a: Value, b: Value, types: seq<Desc>, d: Desc)
    requires SameItems(a, b, types, d)
    ensures ConvertElements(env, a, types, d, |types|) == ConvertElements(env, b, types, d, |types|)
  {
  }

  /** One step of `ElementsAgree`, at an index that has an item. */
  lemma {:induction false} AgreeFrom(env: Foreign, a: Value, b: Value, types: seq<Desc>, d: Desc, i: nat)
    requires SameItems(a, b, types, d) && i < |types|
    ensures ConvertElements(env, a, types, d, i) == ConvertElements(env, b, types, d, i)
    decreases |types| - i, 0
  {
    ElementsAgree(env, a, b, types, d, i + 1);
    AgreeStep(env, a, b, types, d, i);
  }

  /** Equal items at `i` and equal rests after it give equal elements from `i`. */
  lemma AgreeStep(env: Foreign, a: Value, b: Value, types: seq<Desc>, d: Desc, i: nat)
    requires SameItems(a, b, types, d) && i < |types|
    requires ConvertElements(env, a, types, d, i + 1) == ConvertElements(env, b, types, d, i + 1)
    ensures ConvertElements(env, a, types, d, i) == ConvertElements(env, b, types, d, i)
  {
    ItemsAgree(env, a, b, types[i], i);
    ElementsStep(env, a, types, d, i);
    ElementsStep(env, b, types, d, i);
  }

  lemma ItemsAgree(env: Foreign, a: Value, b: Value, t: Desc, i: nat)
    requires IsCollection(a) && IsCollection(b) && i < Len(a) && i < Len(b)
    requires Element(a, i) == Element(b, i)
    ensures ItemResult(env, a, t, i) == ItemResult(env, b, t, i)
  {
  }

  /** Text that is not a literal collection, converted to `[str]`, gives its comma pieces unstripped. */
  lemma TextToStrings(env: Foreign, s: string)
    requires env.literalEval(s).Err? && ',' in s
    ensures ConvertValue(env, VStr(s), DSeq(ListKind, [DScalar(StrK)])) == Ok(VList(Texts(Split(s, ','))))
  {
    SeqFromOther(env, VStr(s), ListKind, [DScalar(StrK)]);
    StringsKept(env, Texts(Split(s, ',')));
  }

  /** Each string converted to the one member `str` is itself. */
  lemma StringsEach(env: Foreign, items: seq<Value>)
    requires forall j :: 0 <= j < |items| ==> items[j].VStr?
    ensures forall j :: 0 <= j < |items| ==> ConvertValue(env, items[j], ToTypeLaws.MemberFor([DScalar(StrK)], j)) == Ok(items[j])
  {
    forall j | 0 <= j < |items|
      ensures ConvertValue(env, items[j], ToTypeLaws.MemberFor([DScalar(StrK)], j)) == Ok(items[j])
    {
      InstanceKept(env, items[j], StrK);
    }
  }

  /** A list of strings converted to `[str]` is the same list. */
  lemma StringsKept(env: Foreign, items: seq<Value>)
    requires forall j :: 0 <= j < |items| ==> items[j].VStr?
    ensures ConvertValue(env, VList(items), DSeq(ListKind, [DScalar(StrK)])) == Ok(VList(items))
  {
    var t := DSeq(ListKind, [DScalar(StrK)]);
    var r := ConvertValue(env, VList(items), t);
    StringsEach(env, items);
    assert r.Ok? && r.value.VList? && |r.value.items| == |items| &&
      forall j :: 0 <= j < |items| ==> ConvertValue(env, items[j], ToTypeLaws.MemberFor([DScalar(StrK)], j)) == Ok(r.value.items[j])
    by {
      assert GuardGenericAlias(t).Ok? by { PlainUnchanged(t, TypeError); }
      SeqElementwise(env, VList(items), ListKind, [DScalar(StrK)]);
    }
    assert r.value.items == items;
  }

  /**
   * As written, "test 1, test 2, test 3" converted to `[str]` keeps the space
   * in front of the second and third fields.
   */
  lemma CommaTextUnstripped(env: Foreign)
    requires env.literalEval("test 1, test 2, test 3").Err?
    ensures ConvertValue(env, VStr("test 1, test 2, test 3"), DSeq(ListKind, [DScalar(StrK)]))
      == Ok(VList([VStr("test 1"), VStr(" test 2"), VStr(" test 3")]))
  {
    ToTypeLaws.CommaOnly();
    TextToStrings(env, "test 1, test 2, test 3");
    CommaTexts();
  }

  lemma CommaTexts()
    ensures Texts(Split("test 1, test 2, test 3", ',')) == [VStr("test 1"), VStr(" test 2"), VStr(" test 3")]
  {
    var parts := ["test 1", " test 2", " test 3"];
    ToTypeLaws.CommaJoin();
    SplitJoin(parts, ',');
    assert Texts(parts)[0] == VStr("test 1");
  }

  /**
   * A dict converts key by key and value by value with the first entry of the
   * target, into a dict built from the converted pairs in order; a failing
   * conversion fails the whole, and so does a converted key that cannot be
   * hashed, with TypeError.
   */
  lemma DictKeywise(env: Foreign, es: seq<(Value, Value)>, t: Desc)
    requires GuardGenericAlias(t).Ok? && GuardGenericAlias(t).value.DMap? && GuardGenericAlias(t).value.entries != []
    ensures
      var d := GuardGenericAlias(t).value;
      var kd, vd := d.entries[0].0, d.entries[0].1;
      var r := ConvertValue(env, VDict(es), t);
      var allOk := forall j :: 0 <= j < |es| ==> ConvertValue(env, es[j].0, kd).Ok? && ConvertValue(env, es[j].1, vd).Ok?;
      && (!allOk ==> r.Err?)
      && (allOk ==> (r.Ok? <==> forall j :: 0 <= j < |es| ==> Hashable(ConvertValue(env, es[j].0, kd).value)))
      && (allOk && r.Err? ==> r.error == TypeError)
      && (r.Ok? ==> exists ps: seq<(Value, Value)> ::
        && |ps| == |es|
        && (forall j :: 0 <= j < |es| ==> ConvertValue(env, es[j].0, kd) == Ok(ps[j].0) && ConvertValue(env, es[j].1, vd) == Ok(ps[j].1))
        && r.value == VDict(Dicts.InsertAll([], ps, PyEq))
        && DistinctKeys(r.value.entries))
  {
    var d := GuardGenericAlias(t).value;
    GuardedTarget(env, VDict(es), t);
    PlainUnchanged(d, TypeError);
    assert ConvertValue(env, VDict(es), d) == MapBranch(env, VDict(es), d);
    KeywiseItems(env, es, d);
  }

  /** The dict branch on a plain dict target: the items convert keywise with the first entry, then `dict` builds the result. */
  lemma KeywiseItems(env: Foreign, es: seq<(Value, Value)>, d: Desc)
    requires d.DMap? && d.entries != []
    ensures
      var kd, vd := d.entries[0].0, d.entries[0].1;
      var r := MapBranch(env, VDict(es), d);
      var allOk := forall j :: 0 <= j < |es| ==> ConvertValue(env, es[j].0, kd).Ok? && ConvertValue(env, es[j].1, vd).Ok?;
      && (!allOk ==> r.Err?)
      && (allOk ==> (r.Ok? <==> forall j :: 0 <= j < |es| ==> Hashable(ConvertValue(env, es[j].0, kd).value)))
      && (allOk && r.Err? ==> r.error == TypeError)
      && (r.Ok? ==> exists ps: seq<(Value, Value)> ::
        && |ps| == |es|
        && (forall j :: 0 <= j < |es| ==> ConvertValue(env, es[j].0, kd) == Ok(ps[j].0) && ConvertValue(env, es[j].1, vd) == Ok(ps[j].1))
        && r.value == VDict(Dicts.InsertAll([], ps, PyEq))
        && DistinctKeys(r.value.entries))
  {
    var kd, vd := ToType.FirstEntry(d).0, ToType.FirstEntry(d).1;
    var items := ConvertItems(env, es, kd, vd, d, 0);
    if items.Ok? {
      var ps := items.value;
      assert forall j :: 0 <= j < |es| ==> ConvertValue(env, es[j].0, kd) == Ok(ps[j].0) && ConvertValue(env, es[j].1, vd) == Ok(ps[j].1);
    }
  }

  /** A dict target with no entries has no first key: IndexError. */
  lemma DictWithoutEntries(env: Foreign, es: seq<(Value, Value)>)
    ensures ConvertValue(env, VDict(es), DMap([])) == Err(IndexError)
  {
    assert NormalizePairs(DMap([]), 0, TypeError) == Ok([]);
  }

  /**
   * For a dict target, text is parsed as JSON as it is and not converted
   * further; a CRS gives its JSON dict; any other value that is not a dict is
   * returned as it is.
   */
  lemma DictFromOther(env: Foreign, v: Value, t: Desc)
    requires !v.VMember? && !v.VDict?
    requires GuardGenericAlias(t).Ok? && GuardGenericAlias(t).value.DMap?
    ensures v.VStr? ==> ConvertValue(env, v, t) == env.jsonLoads(v.s)
    ensures v.VCrs? ==> ConvertValue(env, v, t) == Ok(env.crsJson(v.crs))
    ensures !v.VStr? && !v.VCrs? ==> ConvertValue(env, v, t) == Ok(v)
  {
    GuardedTarget(env, v, t);
    PlainUnchanged(GuardGenericAlias(t).value, TypeError);
  }

  /**
   * An `Enum` target looks the input up by member name, then by value; `None`
   * stays `None`; an input that matches nothing is a ValueError.
   */
  lemma EnumTarget(env: Foreign, v: Value, def: EnumDef)
    ensures v.VNone? ==> ConvertValue(env, v, DEnum(def)) == Ok(VNone)
    ensures var r := ConvertValue(env, v, DEnum(def));
      !v.VNone? && r.Ok? ==> exists j :: 0 <= j < |def.members| && r.value == MemberAt(def, j)
    ensures v.VStr? && NameIndex(def, v.s, 0).Some? ==>
      ConvertValue(env, v, DEnum(def)) == Ok(MemberAt(def, Canonical(def, NameIndex(def, v.s, 0).value)))
    ensures (!v.VNone? && !v.VMember? && (!v.VStr? || NameIndex(def, v.s, 0).None?) && Hashable(v) &&
      ValueIndex(def, v, 0).Some?) ==>
      ConvertValue(env, v, DEnum(def)) == Ok(MemberAt(def, ValueIndex(def, v, 0).value))
    ensures var r := ConvertValue(env, v, DEnum(def));
      r.Err? ==> r.error == ValueError || (r.error == TypeError && !Hashable(v))
  {
    EnumEntry(env, v, def);
  }

  /** An `Enum` target is already plain, so the input goes straight to the member lookup. */
  lemma EnumEntry(env: Foreign, v: Value, def: EnumDef)
    ensures ConvertValue(env, v, DEnum(def)) ==
      var v1 := if v.VMember? then VStr(v.name) else v;
      if v1.VNone? then Ok(VNone) else EnumLookup(def, v1)
  {
    PlainUnchanged(DEnum(def), TypeError);
  }

  /** A member converted to its own `Enum` gives that member back, or the member it is an alias of. */
  lemma EnumRoundTrip(env: Foreign, def: EnumDef, j: nat)
    requires ToTypeLaws.DistinctNames(def) && j < |def.members|
    ensures ConvertValue(env, MemberAt(def, j), DEnum(def)) == Ok(MemberAt(def, Canonical(def, j)))
  {
    var i := NameIndex(def, def.members[j].0, 0);
    assert i.Some?;
    assert i.value == j;
  }

  /** A duration given to `str` is rendered "HH:MM:SS", to `float` as its total seconds. */
  lemma DurationOut(env: Foreign, micros: int)
    ensures ConvertValue(env, VDuration(micros), DScalar(StrK)) == Ok(VStr(Durations.Render(env, micros)))
    ensures ConvertValue(env, VDuration(micros), DScalar(FloatK)) == Ok(VFloat(Durations.TotalSeconds(micros)))
  {
    ScalarEntry(env, VDuration(micros), StrK);
    ScalarEntry(env, VDuration(micros), FloatK);
    DurationBranch(env, micros);
  }

  lemma DurationBranch(env: Foreign, micros: int)
    ensures ScalarBranch(env, VDuration(micros), StrK) == Ok(VStr(Durations.Render(env, micros)))
    ensures ScalarBranch(env, VDuration(micros), FloatK) == Ok(VFloat(Durations.TotalSeconds(micros)))
  {
  }

  /** A `timedelta` target uses the legacy reader on anything that is not already a duration. */
  lemma DurationIn(env: Foreign, v: Value)
    requires !v.VNone? && !v.VDuration? && !v.VMember?
    ensures ConvertValue(env, v, DScalar(DurationK)) ==
      match Legacy.ParseDuration(env, v)
      case Ok(m) => Ok(VDuration(m))
      case Err(e) => Err(e)
  {
    ScalarEntry(env, v, DurationK);
    DurationInBranch(env, v);
  }

  lemma DurationInBranch(env: Foreign, v: Value)
    requires !v.VNone? && !v.VDuration? && !v.VMember?
    ensures ScalarBranch(env, v, DurationK) ==
      match Legacy.ParseDuration(env, v)
      case Ok(m) => Ok(VDuration(m))
      case Err(e) => Err(e)
  {
    assert !IsInstance(v, DurationK);
    assert Prepare(env, true, v, DurationK) == v;
    var p := Legacy.ParseDuration(env, v);
    assert Parse(env, v, DurationK) == if p.Ok? then Ok(VDuration(p.value)) else Err(p.error);
    if p.Ok? {
      assert Finish(env, VDuration(p.value), DurationK) == Ok(VDuration(p.value));
    }
  }

  /** Text `strptime` reads as "%H:%M:%S" is that clock reading. */
  lemma ClockFirst(env: Foreign, s: string)
    requires env.strptimeHMS(s).Some?
    ensures ConvertValue(env, VStr(s), DScalar(DurationK)) == Ok(VDuration(ClockMicros(env.strptimeHMS(s).value)))
  {
    DurationIn(env, VStr(s));
  }

  /**
   * Otherwise colon text of at least three fields, all numbers, is days
   * (when there are four or more), hours, minutes and seconds read from the
   * left; any further fields are ignored.
   */
  lemma ColonFields(env: Foreign, s: string, xs: seq<real>)
    requires env.strptimeHMS(s).None? && Durations.ReadFloats(env, Split(s, ':')) == Ok(xs) && |xs| >= 3
    ensures ConvertValue(env, VStr(s), DScalar(DurationK)) == Ok(VDuration(Durations.FromSeconds(FieldSeconds(xs).value)))
  {
    DurationIn(env, VStr(s));
  }

  /** Three or four fields are positional: seconds, minutes, hours and days from the right. */
  lemma FieldsPositional(xs: seq<real>)
    requires |xs| == 3 || |xs| == 4
    ensures FieldSeconds(xs) == Some(Durations.ColonSeconds(xs))
  {
    Durations.ComponentsAreRightToLeft(xs);
    if |xs| == 3 {
      Durations.ThreeFields(xs);
    } else {
      assert Durations.Components(xs) == map[
        Durations.Seconds := xs[3], Durations.Minutes := xs[2], Durations.Hours := xs[1], Durations.Days := xs[0]];
    }
  }

  /** Fields after the fourth do not count; fewer than three is no reading. */
  lemma FieldsBeyondFourIgnored(xs: seq<real>)
    ensures |xs| >= 4 ==> FieldSeconds(xs) == FieldSeconds(xs[..4])
    ensures |xs| < 3 <==> FieldSeconds(xs).None?
  {
  }

  /**
   * As written, colon text of exactly two fields that `strptime` refuses
   * ("20:15", "00:00") is a ValueError: the fields read, but there is no third
   * to index, and the text as a whole is no float.
   */
  lemma TwoFieldsRejected(env: Foreign, s: string)
    requires Count(s, ':') == 1 && env.strptimeHMS(s).None?
    ensures ConvertValue(env, VStr(s), DScalar(DurationK)) == Err(ValueError)
  {
    assert ReadText(env, s).None? by {
      TwoFieldsUnread(env, s);
    }
    assert FloatOf(env, VStr(s)) == Err(ValueError) by {
      CountedOccurs(s, ':');
      ColonNotFloat(env, s);
    }
    DurationIn(env, VStr(s));
  }

  lemma TwoFieldsUnread(env: Foreign, s: string)
    requires Count(s, ':') == 1 && env.strptimeHMS(s).None?
    ensures ReadText(env, s).None?
  {
    var r := Durations.ReadFloats(env, Split(s, ':'));
    if r.Ok? {
      assert |r.value| == 2;
      assert FieldSeconds(r.value).None?;
    }
  }

  /**
   * As written, five digit fields or more ("02:01:13:20:15") are accepted: the
   * first four are read as days, hours, minutes and seconds and the rest dropped.
   */
  lemma ExtraFieldsAccepted(env: Foreign, ps: seq<string>)
    requires |ps| >= 5 && forall i :: 0 <= i < |ps| ==> IsDigits(ps[i])
    requires env.strptimeHMS(Join(ps, ':')).None?
    ensures FieldSeconds(Durations.DigitNumbers(ps)).Some?
    ensures ConvertValue(env, VStr(Join(ps, ':')), DScalar(DurationK))
      == Ok(VDuration(Durations.FromSeconds(FieldSeconds(Durations.DigitNumbers(ps)).value)))
  {
    DigitFieldsSplit(env, ps);
    ColonFields(env, Join(ps, ':'), Durations.DigitNumbers(ps));
  }

  lemma DigitFieldsSplit(env: Foreign, ps: seq<string>)
    requires |ps| >= 1 && forall i :: 0 <= i < |ps| ==> IsDigits(ps[i])
    ensures Durations.ReadFloats(env, Split(Join(ps, ':'), ':')) == Ok(Durations.DigitNumbers(ps))
  {
    assert forall i :: 0 <= i < |ps| ==> Lacks(ps[i], ':');
    SplitJoin(ps, ':');
    Durations.ReadDigitFields(env, ps);
  }

  /** Four fields or more are days, hours, minutes and seconds from the left. */
  lemma FieldsAfterDays(xs: seq<real>)
    requires |xs| >= 4
    ensures FieldSeconds(xs) == Some(xs[0] * 86400.0 + xs[1] * 3600.0 + xs[2] * 60.0 + xs[3])
  {
    var rest := xs[1..];
    assert rest[0] == xs[1] && rest[1] == xs[2] && rest[2] == xs[3];
  }

  /** A duration survives the round trip through its total seconds. */
  lemma DurationSecondsRoundTrip(env: Foreign, micros: int)
    ensures var x := ConvertValue(env, VDuration(micros), DScalar(FloatK));
      x.Ok? && ConvertValue(env, x.value, DScalar(DurationK)) == Ok(VDuration(micros))
  {
    DurationOut(env, micros);
    Durations.SecondsRoundTrip(micros);
    DurationIn(env, VFloat(Durations.TotalSeconds(micros)));
  }

  /**
   * A date given to `datetime` is refused with TypeError (`parse_date` wants
   * text); a datetime given to `date` is already an instance of `date` and
   * comes back as the datetime, which never equals the day.
   */
  lemma DateAndDateTime(env: Foreign, day: Date, time: Time)
    ensures ConvertValue(env, VDate(day), DScalar(DateTimeK)) == Err(TypeError)
    ensures ConvertValue(env, VDateTime(day, time), DScalar(DateK)) == Ok(VDateTime(day, time))
    ensures !PyEq(VDateTime(day, time), VDate(day))
  {
    ScalarEntry(env, VDate(day), DateTimeK);
    ScalarEntry(env, VDateTime(day, time), DateK);
    DateBranches(env, day, time);
  }

  lemma DateBranches(env: Foreign, day: Date, time: Time)
    ensures ScalarBranch(env, VDate(day), DateTimeK) == Err(TypeError)
    ensures ScalarBranch(env, VDateTime(day, time), DateK) == Ok(VDateTime(day, time))
  {
  }

  /**
   * A `bool` target literal-evaluates the text: a bool literal is itself,
   * another literal its truthiness, and an error (a bare word such as "test"
   * gives ValueError) propagates.
   */
  lemma BoolFromText(env: Foreign, s: string)
    ensures env.literalEval(s).Err? ==> ConvertValue(env, VStr(s), DScalar(BoolK)) == Err(env.literalEval(s).error)
    ensures env.literalEval(s).Ok? && env.literalEval(s).value.VBool? ==>
      ConvertValue(env, VStr(s), DScalar(BoolK)) == env.literalEval(s)
    ensures env.literalEval(s).Ok? && !env.literalEval(s).value.VBool? && !env.literalEval(s).value.VDuration? && !env.literalEval(s).value.VCrs? ==>
      ConvertValue(env, VStr(s), DScalar(BoolK)) == Ok(VBool(Truthy(env, env.literalEval(s).value)))
  {
  }

  /** `convert_to_json` leaves a JSON value as it is. */
  lemma JsonFixpoint(env: Foreign, v: Value)
    requires Json.JsonShape(v)
    ensures ConvertToJson(env, v) == Ok(v)
  {
    var leaf := (x: Value) => Leaf(env, x);
    assert leaf(VNone) == Ok(VNone);
    Json.ReduceFixpoint(leaf, v);
  }

  /** `ast.literal_eval` never produces a CRS. */
  ghost predicate LiteralsPlain(env: Foreign)
  {
    forall s :: env.literalEval(s).Ok? ==> !env.literalEval(s).value.VCrs?
  }

  /** A leaf other than a CRS converts to a JSON leaf, and `None` to `None`. */
  lemma LeafIsJson(env: Foreign, v: Value)
    requires LiteralsPlain(env) && !v.VCrs?
    ensures Leaf(env, v).Ok? ==> Json.JsonLeaf(Leaf(env, v).value)
    ensures Leaf(env, VNone) == Ok(VNone)
  {
    ConvertedLeaf(env, v, FloatK);
    ConvertedLeaf(env, v, IntK);
    ConvertedLeaf(env, v, BoolK);
    ConvertedLeaf(env, v, StrK);
  }

  lemma ConvertedLeaf(env: Foreign, v: Value, k: Kind)
    requires LiteralsPlain(env) && k in {FloatK, IntK, BoolK, StrK} && !v.VCrs?
    ensures ConvertValue(env, v, DScalar(k)).Ok? ==> Json.JsonLeaf(ConvertValue(env, v, DScalar(k)).value)
  {
    var r := ConvertValue(env, v, DScalar(k));
    if r.Ok? && !v.VNone? && k != BoolK {
      assert IsInstance(r.value, k) by { ScalarResultIsInstance(env, v, k); }
      Json.InstanceIsLeaf(r.value, k);
    } else if r.Ok? && !v.VNone? {
      BoolLeaf(env, v);
    }
  }

  /** A value given to `bool` other than a CRS gives a JSON leaf. */
  lemma BoolLeaf(env: Foreign, v: Value)
    requires LiteralsPlain(env) && !v.VCrs? && !v.VNone?
    ensures ConvertValue(env, v, DScalar(BoolK)).Ok? ==> Json.JsonLeaf(ConvertValue(env, v, DScalar(BoolK)).value)
  {
    var v1 := if v.VMember? then VStr(v.name) else v;
    assert ConvertValue(env, v, DScalar(BoolK)) == ScalarBranch(env, v1, BoolK) by { ScalarEntry(env, v, BoolK); }
    if !IsInstance(v1, BoolK) {
      var p := env.literalEval(StrOf(env, Prepare(env, true, v1, BoolK)));
      if p.Ok? {
        FinishBoolLeaf(env, p.value);
      }
    }
  }

  /** The last stage for `bool` gives a JSON leaf unless it is handed a CRS. */
  lemma FinishBoolLeaf(env: Foreign, x: Value)
    requires !x.VCrs?
    ensures Finish(env, x, BoolK).Ok? ==> Json.JsonLeaf(Finish(env, x, BoolK).value)
  {
  }

  /** With a class as target, conversion is the scalar branch on the input (an enum member by its name). */
  lemma ScalarEntry(env: Foreign, v: Value, k: Kind)
    ensures ConvertValue(env, v, DScalar(k)) == ScalarBranch(env, if v.VMember? then VStr(v.name) else v, k)
  {
    PlainUnchanged(DScalar(k), TypeError);
  }

  /** A datetime whose text does not evaluate as a literal becomes that text. */
  lemma JsonDateTime(env: Foreign, day: Date, time: Time)
    requires env.literalEval(env.strOf(VDateTime(day, time))).Err?
    ensures ConvertToJson(env, VDateTime(day, time)) == Ok(VStr(env.strOf(VDateTime(day, time))))
  {
    var x := VDateTime(day, time);
    DateTimeLeaf(env, day, time);
    assert Json.Reduce((y: Value) => Leaf(env, y), x) == Leaf(env, x);
  }

  lemma DateTimeLeaf(env: Foreign, day: Date, time: Time)
    requires env.literalEval(env.strOf(VDateTime(day, time))).Err?
    ensures Leaf(env, VDateTime(day, time)) == Ok(VStr(env.strOf(VDateTime(day, time))))
  {
    var x := VDateTime(day, time);
    ScalarEntry(env, x, FloatK);
    ScalarEntry(env, x, IntK);
    ScalarEntry(env, x, BoolK);
    ScalarEntry(env, x, StrK);
    DateTimeBranches(env, day, time);
  }

  lemma DateTimeBranches(env: Foreign, day: Date, time: Time)
    requires env.literalEval(env.strOf(VDateTime(day, time))).Err?
    ensures ScalarBranch(env, VDateTime(day, time), FloatK).Err?
    ensures ScalarBranch(env, VDateTime(day, time), IntK).Err?
    ensures ScalarBranch(env, VDateTime(day, time), BoolK).Err?
    ensures ScalarBranch(env, VDateTime(day, time), StrK) == Ok(VStr(env.strOf(VDateTime(day, time))))
  {
  }

  /** As written, a CRS is returned as it is by `convert_to_json`, which is not a JSON value. */
  lemma JsonKeepsCrs(env: Foreign, c: nat)
    ensures ConvertToJson(env, VCrs(c)) == Ok(VCrs(c))
    ensures !Json.JsonShape(VCrs(c))
  {
    CrsKept(env, c, FloatK);
  }
}
