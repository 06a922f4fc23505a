/**
 * Type descriptors and their normalisation (`subscripted_type` in
 * typepigeon/types.py, and its legacy twin `guard_generic_alias`).
 *
 * A descriptor is plain data: `None`, `Any`, a class, the name of a builtin, an
 * `Enum` class, a list or tuple literal of descriptors, a dict literal mapping
 * descriptors to descriptors, or a typing alias such as `List[int]`,
 * `Tuple[str, float]`, `Dict[str, int]` or `Union[int, str]`. Normalising rewrites
 * every alias into the literal it stands for, throughout the tree, and rejects
 * a subscripted `Union`. The bare `typing.Union` has no `__origin__` and is not
 * a collection, so it is kept as it is.
 */
module Descriptors {
  import opened Wrappers
  import opened Values
  import Dicts

  datatype SeqKind = ListKind | TupleKind

  /**
   * The `__origin__` of a typing alias. `DBareAlias(UnionOrigin)` stands for the
   * bare `typing.Union`, which has no `__origin__` of its own.
   */
  datatype Origin = SeqOrigin(kind: SeqKind) | DictOrigin | UnionOrigin

  datatype Desc =
    | DNone
    | DAny
    | DName(name: string)
    | DScalar(cls: Kind)
    | DEnum(def: EnumDef)
    | DSeq(kind: SeqKind, members: seq<Desc>)
    | DMap(entries: seq<(Desc, Desc)>)
    | DAlias(origin: Origin, args: seq<Desc>)
    | DBareAlias(origin: Origin)

  /**
   * `getattr(builtins, name)` for a descriptor given by name: `None` and the
   * builtin classes this model knows; any other name is an AttributeError.
   */
  function Builtin(name: string): (r: Result<Desc, Error>)
    ensures r.Ok? ==> Plain(r.value) && Size(r.value) == 1 && (r.value.DNone? || r.value.DScalar?)
    ensures name in {"str", "int", "float", "bool", "list", "tuple", "dict"} ==> r.Ok? && r.value.DScalar?
    ensures name == "None" ==> r == Ok(DNone)
    ensures name !in {"None", "str", "int", "float", "bool", "list", "tuple", "dict"} ==> r == Err(AttributeError)
  {
    if name == "None" then Ok(DNone)
    else if name == "str" then Ok(DScalar(StrK))
    else if name == "int" then Ok(DScalar(IntK))
    else if name == "float" then Ok(DScalar(FloatK))
    else if name == "bool" then Ok(DScalar(BoolK))
    else if name == "list" then Ok(DScalar(ListK))
    else if name == "tuple" then Ok(DScalar(TupleK))
    else if name == "dict" then Ok(DScalar(DictK))
    else Err(AttributeError)
  }

  /** Descriptor equality: Python's `==` on classes, literals and aliases. */
  predicate SameDesc(a: Desc, b: Desc)
  {
    a == b
  }

  function Size(d: Desc): (n: nat)
    ensures n >= 1
  {
    match d
    case DSeq(_, ms) => 1 + SizeAll(ms)
    case DMap(_) => 1 + SizeEntries(d, 0)
    case DAlias(_, args) => 1 + SizeAll(args)
    case _ => 1
  }

  function SizeAll(ms: seq<Desc>): nat
  {
    if ms == [] then 0 else Size(ms[0]) + SizeAll(ms[1..])
  }

  function SizeEntries(d: Desc, i: nat): nat
    requires d.DMap? && i <= |d.entries|
    decreases d, |d.entries| - i
  {
    if i == |d.entries| then 0 else Size(d.entries[i].0) + Size(d.entries[i].1) + SizeEntries(d, i + 1)
  }

  /** The size of a list of entries, outside any descriptor. */
  function PairsSize(ps: seq<(Desc, Desc)>): nat
  {
    if ps == [] then 0 else Size(ps[0].0) + Size(ps[0].1) + PairsSize(ps[1..])
  }

  lemma {:induction false} SizeEntriesPairs(d: Desc, i: nat)
    requires d.DMap? && i <= |d.entries|
    ensures SizeEntries(d, i) == PairsSize(d.entries[i..])
    decreases |d.entries| - i
  {
    if i < |d.entries| {
      SizeEntriesPairs(d, i + 1);
      assert d.entries[i..][1..] == d.entries[i + 1..];
    }
  }

  /** Each member of a list or tuple descriptor is smaller than the descriptor. */
  lemma {:induction false} MemberSmaller(ms: seq<Desc>, i: nat)
    requires i < |ms|
    ensures Size(ms[i]) <= SizeAll(ms)
  {
    if i > 0 {
      MemberSmaller(ms[1..], i - 1);
    }
  }

  /** Each entry of a dict descriptor, key and value together, is smaller than the descriptor. */
  lemma {:induction false} EntrySmaller(d: Desc, i: nat, j: nat)
    requires d.DMap? && j <= i < |d.entries|
    ensures Size(d.entries[i].0) + Size(d.entries[i].1) <= SizeEntries(d, j)
    decreases i - j
  {
    if j < i {
      EntrySmaller(d, i, j + 1);
    }
  }

  /** `hash(d)` succeeds: list and dict literals are unhashable, so is a tuple holding one. */
  predicate DescHashable(d: Desc)
  {
    match d
    case DSeq(ListKind, _) => false
    case DMap(_) => false
    case DSeq(TupleKind, ms) => forall i :: 0 <= i < |ms| ==> DescHashable(ms[i])
    case _ => true
  }

  /**
   * A descriptor holding no alias anywhere (the bare `typing.Union` is not one),
   * whose dict literals have hashable, distinct keys: the form normalisation
   * produces.
   */
  predicate Plain(d: Desc)
  {
    match d
    case DAlias(_, _) => false
    case DBareAlias(o) => o == UnionOrigin
    case DSeq(_, ms) => forall i :: 0 <= i < |ms| ==> Plain(ms[i])
    case DMap(es) =>
      && (forall i :: 0 <= i < |es| ==> Plain(es[i].0) && DescHashable(es[i].0) && Plain(es[i].1))
      && Dicts.DistinctBy(es, SameDesc)
    case _ => true
  }

  /** A subscripted `Union` alias occurs somewhere in `d`. */
  predicate ContainsUnion(d: Desc)
  {
    match d
    case DAlias(UnionOrigin, _) => true
    case DAlias(_, args) => exists i :: 0 <= i < |args| && ContainsUnion(args[i])
    case DSeq(_, ms) => exists i :: 0 <= i < |ms| && ContainsUnion(ms[i])
    case DMap(es) => exists i :: 0 <= i < |es| && (ContainsUnion(es[i].0) || ContainsUnion(es[i].1))
    case _ => false
  }

  /**
   * Normalisation, raising `unionError` on a `Union` alias: NotImplementedError
   * in `subscripted_type`, TypeError (from `issubclass(typing.Union, Mapping)`)
   * in `guard_generic_alias`.
   *
   * A list or tuple alias becomes the literal of its normalised arguments; a dict
   * alias becomes a one-entry dict literal (a ValueError when it does not have
   * exactly two arguments, a TypeError when the key is unhashable); an alias
   * without arguments becomes the empty container, and the bare `typing.Union`
   * is kept as it is; literals are normalised
   * member by member, a dict literal over its (key, value) items, which are then
   * inserted into a new dict; everything else is returned as it is.
   */
  function NormalizeWith(d: Desc, unionError: Error): (r: Result<Desc, Error>)
    ensures r.Ok? ==> Plain(r.value) && Size(r.value) <= Size(d)
    ensures r.Ok? ==> (r.value.DName? <==> d.DName?)
    decreases d
  {
    match d
    case DAlias(UnionOrigin, _) => Err(unionError)
    case DBareAlias(UnionOrigin) => Ok(d)
    case DBareAlias(SeqOrigin(k)) => Ok(DSeq(k, []))
    case DBareAlias(DictOrigin) => Ok(DMap([]))
    case DAlias(SeqOrigin(k), args) =>
      var ms :- NormalizeAll(args, unionError);
      Ok(DSeq(k, ms))
    case DAlias(DictOrigin, args) =>
      var ms :- NormalizeAll(args, unionError);
      DictAlias(args, ms)
    case DSeq(k, ms) =>
      var ns :- NormalizeAll(ms, unionError);
      Ok(DSeq(k, ns))
    case DMap(es) =>
      var ps :- NormalizePairs(d, 0, unionError);
      SizeEntriesPairs(d, 0);
      DictOf(ps)
    case _ => Ok(d)
  }

  /** `[normalise(m) for m in ms]`: the first failing member decides the error. */
  function NormalizeAll(ms: seq<Desc>, unionError: Error): (r: Result<seq<Desc>, Error>)
    ensures r.Ok? <==> forall i :: 0 <= i < |ms| ==> NormalizeWith(ms[i], unionError).Ok?
    ensures r.Ok? ==> |r.value| == |ms|
    ensures r.Ok? ==> forall i :: 0 <= i < |ms| ==> NormalizeWith(ms[i], unionError) == Ok(r.value[i])
    ensures r.Ok? ==> SizeAll(r.value) <= SizeAll(ms)
    ensures r.Ok? ==> forall i :: 0 <= i < |r.value| ==> Plain(r.value[i])
    decreases ms
  {
    if ms == [] then Ok([])
    else
      var h :- NormalizeWith(ms[0], unionError);
      var t :- NormalizeAll(ms[1..], unionError);
      assert forall i :: 1 <= i < |ms| ==> ms[i] == ms[1..][i - 1];
      assert ([h] + t)[1..] == t;
      Ok([h] + t)
  }

  /** The items of a dict literal from position `i` on, each normalised key first, then value. */
  function NormalizePairs(d: Desc, i: nat, unionError: Error): (r: Result<seq<(Desc, Desc)>, Error>)
    requires d.DMap? && i <= |d.entries|
    ensures r.Ok? <==> forall j :: i <= j < |d.entries| ==>
      NormalizeWith(d.entries[j].0, unionError).Ok? && NormalizeWith(d.entries[j].1, unionError).Ok?
    ensures r.Ok? ==> |r.value| == |d.entries| - i
    ensures r.Ok? ==> forall j :: i <= j < |d.entries| ==>
      NormalizeWith(d.entries[j].0, unionError) == Ok(r.value[j - i].0) &&
      NormalizeWith(d.entries[j].1, unionError) == Ok(r.value[j - i].1)
    ensures r.Ok? ==> PairsSize(r.value) <= SizeEntries(d, i)
    ensures r.Ok? ==> forall j :: 0 <= j < |r.value| ==> Plain(r.value[j].0) && Plain(r.value[j].1)
    decreases d, |d.entries| - i
  {
    if i == |d.entries| then Ok([])
    else
      match NormalizeWith(d.entries[i].0, unionError)
      case Err(e) => Err(e)
      case Ok(k) =>
        match NormalizeWith(d.entries[i].1, unionError)
        case Err(e) => Err(e)
        case Ok(v) =>
          match NormalizePairs(d, i + 1, unionError)
          case Err(e) => Err(e)
          case Ok(rest) =>
            PairsCons((k, v), rest);
            Ok([(k, v)] + rest)
  }

  /** Putting one item in front of others shifts them by one and adds its size. */
  lemma PairsCons(p: (Desc, Desc), ps: seq<(Desc, Desc)>)
    ensures |[p] + ps| == |ps| + 1 && ([p] + ps)[0] == p
    ensures forall j :: 0 <= j < |ps| ==> ([p] + ps)[j + 1] == ps[j]
    ensures PairsSize([p] + ps) == Size(p.0) + Size(p.1) + PairsSize(ps)
  {
    assert ([p] + ps)[1..] == ps;
  }

  /** `dict([tuple(ms)])` for the normalised arguments `ms` of a dict alias. */
  function DictAlias(args: seq<Desc>, ms: seq<Desc>): (r: Result<Desc, Error>)
    requires |ms| == |args| && SizeAll(ms) <= SizeAll(args)
    requires forall i :: 0 <= i < |ms| ==> Plain(ms[i])
    ensures r.Ok? ==> Plain(r.value) && Size(r.value) <= Size(DAlias(DictOrigin, args)) && r.value.DMap?
  {
    if |ms| != 2 then Err(ValueError)
    else if !DescHashable(ms[0]) then Err(TypeError)
    else
      assert SizeAll(ms) == Size(ms[0]) + Size(ms[1]) by {
        var t := ms[1..];
        assert t[0] == ms[1] && t[1..] == [];
        assert SizeAll(t[1..]) == 0;
        assert SizeAll(t) == Size(t[0]) + SizeAll(t[1..]);
      }
      var r := DMap([(ms[0], ms[1])]);
      assert SizeEntries(r, 1) == 0;
      Ok(r)
  }

  /** `dict(ps)` for normalised items `ps`: a TypeError when a key is unhashable. */
  function DictOf(ps: seq<(Desc, Desc)>): (r: Result<Desc, Error>)
    requires forall i :: 0 <= i < |ps| ==> Plain(ps[i].0) && Plain(ps[i].1)
    ensures r.Ok? <==> forall i :: 0 <= i < |ps| ==> DescHashable(ps[i].0)
    ensures r.Ok? ==> r == Ok(DMap(Dicts.InsertAll([], ps, SameDesc)))
    ensures r.Ok? ==> Plain(r.value) && Size(r.value) <= 1 + PairsSize(ps)
    ensures r.Err? ==> r.error == TypeError
  {
    if forall i :: 0 <= i < |ps| ==> DescHashable(ps[i].0) then
      var es := Dicts.InsertAll([], ps, SameDesc);
      Dicts.InsertAllDistinct([], ps, SameDesc);
      assert Dicts.AllPairs(ps, (k: Desc) => Plain(k) && DescHashable(k), Plain);
      Dicts.InsertAllPreserves([], ps, SameDesc, (k: Desc) => Plain(k) && DescHashable(k), Plain);
      InsertAllSize([], ps);
      SizeEntriesPairs(DMap(es), 0);
      PlainMap(es);
      Ok(DMap(es))
    else Err(TypeError)
  }

  lemma PlainMap(es: seq<(Desc, Desc)>)
    requires Dicts.DistinctBy(es, SameDesc)
    requires Dicts.AllPairs(es, (k: Desc) => Plain(k) && DescHashable(k), Plain)
    ensures Plain(DMap(es))
  {
    forall i | 0 <= i < |es| ensures Plain(es[i].0) && DescHashable(es[i].0) && Plain(es[i].1) {
      assert ((k: Desc) => Plain(k) && DescHashable(k))(es[i].0);
    }
  }

  lemma {:induction false} PairsSizeAppend(ps: seq<(Desc, Desc)>, p: (Desc, Desc))
    ensures PairsSize(ps + [p]) == PairsSize(ps) + Size(p.0) + Size(p.1)
  {
    if ps != [] {
      assert (ps + [p])[1..] == ps[1..] + [p];
      PairsSizeAppend(ps[1..], p);
    }
  }

  lemma {:induction false} PairsSizeUpdate(ps: seq<(Desc, Desc)>, i: nat, v: Desc)
    requires i < |ps|
    ensures PairsSize(ps[i := (ps[i].0, v)]) == PairsSize(ps) - Size(ps[i].1) + Size(v)
  {
    if i > 0 {
      assert ps[i := (ps[i].0, v)][1..] == ps[1..][i - 1 := (ps[i].0, v)];
      PairsSizeUpdate(ps[1..], i - 1, v);
    }
  }

  /** Inserting entries into a dict never holds more descriptor than the entries did. */
  lemma {:induction false} InsertAllSize(acc: seq<(Desc, Desc)>, ps: seq<(Desc, Desc)>)
    ensures PairsSize(Dicts.InsertAll(acc, ps, SameDesc)) <= PairsSize(acc) + PairsSize(ps)
    decreases |ps|
  {
    if ps != [] {
      var acc' := Dicts.Insert(acc, ps[0].0, ps[0].1, SameDesc);
      match Dicts.Find(acc, ps[0].0, SameDesc) {
        case None => PairsSizeAppend(acc, ps[0]);
        case Some(i) => PairsSizeUpdate(acc, i, ps[0].1);
      }
      InsertAllSize(acc', ps[1..]);
    }
  }

  /** `subscripted_type` (typepigeon/types.py). */
  function Normalize(d: Desc): Result<Desc, Error>
  {
    NormalizeWith(d, NotImplementedError)
  }

  /** A member, or an item's key or value, that fails makes the whole list fail with its own first error. */
  lemma {:induction false} AllError(ms: seq<Desc>, e: Error, x: Error)
    requires NormalizeAll(ms, e) == Err(x)
    ensures exists i :: 0 <= i < |ms| && NormalizeWith(ms[i], e) == Err(x)
  {
    if NormalizeWith(ms[0], e).Ok? {
      AllError(ms[1..], e, x);
      var i :| 0 <= i < |ms[1..]| && NormalizeWith(ms[1..][i], e) == Err(x);
      assert ms[1..][i] == ms[i + 1];
    }
  }

  lemma {:induction false} PairsError(d: Desc, i: nat, e: Error, x: Error)
    requires d.DMap? && i <= |d.entries| && NormalizePairs(d, i, e) == Err(x)
    ensures exists j :: i <= j < |d.entries| && (NormalizeWith(d.entries[j].0, e) == Err(x) || NormalizeWith(d.entries[j].1, e) == Err(x))
    decreases |d.entries| - i
  {
    if NormalizeWith(d.entries[i].0, e).Ok? && NormalizeWith(d.entries[i].1, e).Ok? {
      PairsError(d, i + 1, e, x);
    }
  }

  /**
   * A subscripted `Union` anywhere in a descriptor makes normalisation fail, and
   * at the top it fails with the union error itself.
   */
  lemma {:induction false} UnionRejected(d: Desc, e: Error)
    requires ContainsUnion(d)
    ensures NormalizeWith(d, e).Err?
    ensures d.DAlias? && d.origin == UnionOrigin ==> NormalizeWith(d, e) == Err(e)
  {
    match d
    case DAlias(UnionOrigin, _) =>
    case DAlias(o, args) =>
      var i :| 0 <= i < |args| && ContainsUnion(args[i]);
      UnionRejected(args[i], e);
      AliasMemberError(o, args, i, e);
    case DSeq(k, ms) =>
      var i :| 0 <= i < |ms| && ContainsUnion(ms[i]);
      UnionRejected(ms[i], e);
      AliasMemberError(SeqOrigin(k), ms, i, e);
    case DMap(es) =>
      var i :| 0 <= i < |es| && (ContainsUnion(es[i].0) || ContainsUnion(es[i].1));
      if ContainsUnion(es[i].0) {
        UnionRejected(es[i].0, e);
      } else {
        UnionRejected(es[i].1, e);
      }
      EntryError(d, i, e);
  }

  /** A failing argument makes an alias fail, and a failing member a list or tuple literal. */
  lemma AliasMemberError(o: Origin, args: seq<Desc>, i: nat, e: Error)
    requires i < |args| && NormalizeWith(args[i], e).Err?
    ensures NormalizeWith(DAlias(o, args), e).Err?
    ensures o.SeqOrigin? ==> NormalizeWith(DSeq(o.kind, args), e).Err?
  {
    assert NormalizeAll(args, e).Err?;
  }

  /** A failing key or value makes a dict literal fail. */
  lemma EntryError(d: Desc, i: nat, e: Error)
    requires d.DMap? && i < |d.entries|
    requires NormalizeWith(d.entries[i].0, e).Err? || NormalizeWith(d.entries[i].1, e).Err?
    ensures NormalizeWith(d, e).Err?
  {
    assert NormalizePairs(d, 0, e).Err?;
  }

  lemma {:induction false} ErrorSource(d: Desc, e: Error)
    requires NormalizeWith(d, e).Err?
    ensures NormalizeWith(d, e).error in {e, ValueError, TypeError}
    ensures NormalizeWith(d, e).error !in {ValueError, TypeError} ==> ContainsUnion(d)
  {
    var x := NormalizeWith(d, e).error;
    match d
    case DAlias(UnionOrigin, _) =>
    case DBareAlias(_) =>
    case DAlias(_, args) =>
      if NormalizeAll(args, e).Err? {
        AllError(args, e, x);
        var i :| 0 <= i < |args| && NormalizeWith(args[i], e) == Err(x);
        ErrorSource(args[i], e);
      }
    case DSeq(_, ms) =>
      AllError(ms, e, x);
      var i :| 0 <= i < |ms| && NormalizeWith(ms[i], e) == Err(x);
      ErrorSource(ms[i], e);
    case DMap(es) =>
      if NormalizePairs(d, 0, e).Err? {
        PairsError(d, 0, e, x);
        var j :| 0 <= j < |es| && (NormalizeWith(es[j].0, e) == Err(x) || NormalizeWith(es[j].1, e) == Err(x));
        if NormalizeWith(es[j].0, e) == Err(x) {
          ErrorSource(es[j].0, e);
        } else {
          ErrorSource(es[j].1, e);
        }
      }
  }

  /** `subscripted_type` raises NotImplementedError exactly when a `Union` alias decides the outcome. */
  lemma NotImplementedMeansUnion(d: Desc)
    requires Normalize(d) == Err(NotImplementedError)
    ensures ContainsUnion(d)
  {
    ErrorSource(d, NotImplementedError);
  }

  /** Equal first members and equal rests give equal normalised members. */
  lemma AllStepCongruent(ms: seq<Desc>, e1: Error, e2: Error)
    requires ms != []
    requires NormalizeWith(ms[0], e1) == NormalizeWith(ms[0], e2)
    requires NormalizeAll(ms[1..], e1) == NormalizeAll(ms[1..], e2)
    ensures NormalizeAll(ms, e1) == NormalizeAll(ms, e2)
  {
  }

  /** Equal first items and equal rests give equal items. */
  lemma PairsStepCongruent(d: Desc, i: nat, e1: Error, e2: Error)
    requires d.DMap? && i < |d.entries|
    requires NormalizeWith(d.entries[i].0, e1) == NormalizeWith(d.entries[i].0, e2)
    requires NormalizeWith(d.entries[i].1, e1) == NormalizeWith(d.entries[i].1, e2)
    requires NormalizePairs(d, i + 1, e1) == NormalizePairs(d, i + 1, e2)
    ensures NormalizePairs(d, i, e1) == NormalizePairs(d, i, e2)
  {
  }

  /** Outside a `Union` alias, equal normalised parts give equal results. */
  lemma ShapeCongruent(d: Desc, e1: Error, e2: Error)
    requires d.DAlias? ==> d.origin != UnionOrigin && NormalizeAll(d.args, e1) == NormalizeAll(d.args, e2)
    requires d.DSeq? ==> NormalizeAll(d.members, e1) == NormalizeAll(d.members, e2)
    requires d.DMap? ==> NormalizePairs(d, 0, e1) == NormalizePairs(d, 0, e2)
    ensures NormalizeWith(d, e1) == NormalizeWith(d, e2)
  {
  }

  /** One step of `NormalizePairs`, spelled out. */
  lemma PairsStep(d: Desc, i: nat, e: Error)
    requires d.DMap? && i < |d.entries|
    ensures NormalizePairs(d, i, e) ==
      match NormalizeWith(d.entries[i].0, e)
      case Err(x) => Err(x)
      case Ok(k) =>
        match NormalizeWith(d.entries[i].1, e)
        case Err(x) => Err(x)
        case Ok(v) =>
          match NormalizePairs(d, i + 1, e)
          case Err(x) => Err(x)
          case Ok(rest) => Ok([(k, v)] + rest)
  {
  }

  /** Without a `Union` alias the choice of union error makes no difference. */
  lemma {:induction false} UnionErrorIrrelevant(d: Desc, e1: Error, e2: Error)
    requires !ContainsUnion(d)
    ensures NormalizeWith(d, e1) == NormalizeWith(d, e2)
    decreases d, 1
  {
    match d {
      case DAlias(o, args) =>
        MembersIrrelevant(args, e1, e2);
      case DSeq(_, ms) =>
        MembersIrrelevant(ms, e1, e2);
      case DMap(es) =>
        PairsIrrelevant(d, 0, e1, e2);
      case _ =>
    }
    ShapeCongruent(d, e1, e2);
  }

  lemma {:induction false} MembersIrrelevant(ms: seq<Desc>, e1: Error, e2: Error)
    requires forall i :: 0 <= i < |ms| ==> !ContainsUnion(ms[i])
    ensures NormalizeAll(ms, e1) == NormalizeAll(ms, e2)
    decreases ms, 1
  {
    if ms != [] {
      UnionErrorIrrelevant(ms[0], e1, e2);
      assert forall i :: 0 <= i < |ms[1..]| ==> ms[1..][i] == ms[i + 1];
      MembersIrrelevant(ms[1..], e1, e2);
      AllStepCongruent(ms, e1, e2);
    }
  }

  lemma {:induction false} PairsIrrelevant(d: Desc, i: nat, e1: Error, e2: Error)
    requires d.DMap? && i <= |d.entries| && !ContainsUnion(d)
    ensures NormalizePairs(d, i, e1) == NormalizePairs(d, i, e2)
    decreases d, 0, |d.entries| - i
  {
    if i < |d.entries| {
      UnionErrorIrrelevant(d.entries[i].0, e1, e2);
      UnionErrorIrrelevant(d.entries[i].1, e1, e2);
      PairsIrrelevant(d, i + 1, e1, e2);
      PairsStepCongruent(d, i, e1, e2);
    }
  }

  /**
   * An already-plain descriptor comes back as it is: classes, names, enums,
   * `None`, `Any`, the bare `typing.Union`, and literals with nothing left to rewrite (`[str]` gives `[str]`).
   */
  lemma {:induction false} PlainUnchanged(d: Desc, e: Error)
    requires Plain(d)
    ensures NormalizeWith(d, e) == Ok(d)
    decreases d, 1
  {
    match d
    case DSeq(k, ms) =>
      PlainMembersUnchanged(ms, e);
    case DMap(es) =>
      PlainPairsUnchanged(d, 0, e);
      assert d.entries[0..] == es;
      PlainMapUnchanged(d, e);
    case _ =>
  }

  lemma {:induction false} PlainMembersUnchanged(ms: seq<Desc>, e: Error)
    requires forall i :: 0 <= i < |ms| ==> Plain(ms[i])
    ensures NormalizeAll(ms, e) == Ok(ms)
    decreases ms, 1
  {
    if ms != [] {
      PlainUnchanged(ms[0], e);
      assert forall i :: 0 <= i < |ms[1..]| ==> ms[1..][i] == ms[i + 1];
      PlainMembersUnchanged(ms[1..], e);
      assert [ms[0]] + ms[1..] == ms;
      AllStep(ms, e);
    }
  }

  lemma {:induction false} PlainPairsUnchanged(d: Desc, i: nat, e: Error)
    requires d.DMap? && i <= |d.entries| && Plain(d)
    ensures NormalizePairs(d, i, e) == Ok(d.entries[i..])
    decreases d, 0, |d.entries| - i
  {
    if i < |d.entries| {
      PlainUnchanged(d.entries[i].0, e);
      PlainUnchanged(d.entries[i].1, e);
      PlainPairsUnchanged(d, i + 1, e);
      assert [(d.entries[i].0, d.entries[i].1)] + d.entries[i + 1..] == d.entries[i..];
      PairsStep(d, i, e);
    } else {
      assert d.entries[i..] == [];
    }
  }

  /** A plain dict literal whose items come back unchanged is rebuilt as it is. */
  lemma PlainMapUnchanged(d: Desc, e: Error)
    requires d.DMap? && Plain(d) && NormalizePairs(d, 0, e) == Ok(d.entries)
    ensures NormalizeWith(d, e) == Ok(d)
  {
    assert [] + d.entries == d.entries;
    Dicts.InsertAllFresh([], d.entries, SameDesc);
  }

  /** Normalising twice is normalising once. */
  lemma Idempotent(d: Desc, e: Error)
    requires NormalizeWith(d, e).Ok?
    ensures NormalizeWith(NormalizeWith(d, e).value, e) == NormalizeWith(d, e)
  {
    PlainUnchanged(NormalizeWith(d, e).value, e);
  }

  /**
   * A typing alias normalises to the literal it stands for: `List[T]` and
   * `Tuple[A, B]` as the list or tuple literal of their arguments, `Dict[K, V]` as
   * the one-entry dict literal `{K: V}`; any other arity of a dict alias is a
   * ValueError; an alias without arguments is the empty container.
   */
  lemma AliasIsLiteral(o: Origin, args: seq<Desc>, e: Error)
    ensures o.SeqOrigin? ==> NormalizeWith(DAlias(o, args), e) == NormalizeWith(DSeq(o.kind, args), e)
    ensures o == DictOrigin && |args| == 2 ==>
      NormalizeWith(DAlias(o, args), e) == NormalizeWith(DMap([(args[0], args[1])]), e)
    ensures o == DictOrigin && |args| != 2 && NormalizeAll(args, e).Ok? ==> NormalizeWith(DAlias(o, args), e) == Err(ValueError)
    ensures o.SeqOrigin? ==> NormalizeWith(DBareAlias(o), e) == Ok(DSeq(o.kind, []))
    ensures o == DictOrigin ==> NormalizeWith(DBareAlias(o), e) == Ok(DMap([]))
  {
    if o.SeqOrigin? {
      SeqAliasSide(o.kind, args, e);
    } else if o == DictOrigin {
      if |args| == 2 {
        assert args == [args[0], args[1]];
        DictAliasIsLiteral(args[0], args[1], e);
      } else {
        DictAliasSide(args, e);
      }
    }
  }

  lemma DictAliasIsLiteral(a: Desc, b: Desc, e: Error)
    ensures NormalizeWith(DAlias(DictOrigin, [a, b]), e) == NormalizeWith(DMap([(a, b)]), e)
  {
    var na, nb := NormalizeWith(a, e), NormalizeWith(b, e);
    DictAliasSide([a, b], e);
    NormalizeTwo(a, b, e);
    DictLiteralSide(a, b, e);
    if na.Ok? && nb.Ok? && DescHashable(na.value) {
      assert Dicts.InsertAll([], [(na.value, nb.value)], SameDesc) == [(na.value, nb.value)];
    }
  }

  /** `Dict[...]` normalised: the error of its arguments, else the dict built from them. */
  lemma DictAliasSide(args: seq<Desc>, e: Error)
    ensures NormalizeWith(DAlias(DictOrigin, args), e) ==
      match NormalizeAll(args, e)
      case Err(x) => Err(x)
      case Ok(ms) => DictAlias(args, ms)
  {
  }

  /** `List[...]` and `Tuple[...]` normalise as the literal of their arguments. */
  lemma SeqAliasSide(k: SeqKind, args: seq<Desc>, e: Error)
    ensures NormalizeWith(DAlias(SeqOrigin(k), args), e) == NormalizeWith(DSeq(k, args), e)
  {
  }

  /** `{a: b}` normalised: the first failing part, else the dict of the normalised pair. */
  lemma DictLiteralSide(a: Desc, b: Desc, e: Error)
    ensures var na, nb := NormalizeWith(a, e), NormalizeWith(b, e);
      NormalizeWith(DMap([(a, b)]), e) ==
        if na.Err? then Err(na.error) else if nb.Err? then Err(nb.error)
        else DictOf([(na.value, nb.value)])
  {
    NormalizeOnePair(a, b, e);
  }

  lemma NormalizeTwo(a: Desc, b: Desc, e: Error)
    ensures var na, nb := NormalizeWith(a, e), NormalizeWith(b, e);
      NormalizeAll([a, b], e) ==
        if na.Err? then Err(na.error) else if nb.Err? then Err(nb.error) else Ok([na.value, nb.value])
  {
    var args := [a, b];
    assert args[1..] == [b] && [b][1..] == [];
    AllStep(args, e);
    AllStep([b], e);
    var na, nb := NormalizeWith(a, e), NormalizeWith(b, e);
    if na.Ok? && nb.Ok? {
      assert [na.value] + ([nb.value] + []) == [na.value, nb.value];
    }
  }

  /** One step of `NormalizeAll`, spelled out. */
  lemma AllStep(ms: seq<Desc>, e: Error)
    requires ms != []
    ensures NormalizeAll(ms, e) ==
      match NormalizeWith(ms[0], e)
      case Err(x) => Err(x)
      case Ok(h) =>
        match NormalizeAll(ms[1..], e)
        case Err(x) => Err(x)
        case Ok(t) => Ok([h] + t)
  {
  }

  lemma NormalizeOnePair(a: Desc, b: Desc, e: Error)
    ensures var na, nb := NormalizeWith(a, e), NormalizeWith(b, e);
      NormalizePairs(DMap([(a, b)]), 0, e) ==
        if na.Err? then Err(na.error) else if nb.Err? then Err(nb.error) else Ok([(na.value, nb.value)])
  {
    PairsStep(DMap([(a, b)]), 0, e);
    assert NormalizePairs(DMap([(a, b)]), 1, e) == Ok([]);
    var na, nb := NormalizeWith(a, e), NormalizeWith(b, e);
    if na.Ok? && nb.Ok? {
      assert [(na.value, nb.value)] + [] == [(na.value, nb.value)];
    }
  }

  /**
   * A list or tuple literal keeps its kind and its number of members, each member
   * normalised; a dict literal becomes the dict built from its normalised items,
   * which has at most as many entries, exactly as many when no two normalised
   * keys are equal.
   */
  lemma LiteralMemberwise(d: Desc, e: Error)
    requires d.DSeq? || d.DMap?
    requires NormalizeWith(d, e).Ok?
    ensures d.DSeq? ==> var r := NormalizeWith(d, e).value;
      && r.DSeq? && r.kind == d.kind && |r.members| == |d.members|
      && forall i :: 0 <= i < |d.members| ==> NormalizeWith(d.members[i], e) == Ok(r.members[i])
    ensures d.DMap? ==> var r := NormalizeWith(d, e).value; var ps := NormalizePairs(d, 0, e).value;
      && r == DMap(Dicts.InsertAll([], ps, SameDesc))
      && |r.entries| <= |d.entries|
      && (Dicts.DistinctBy(ps, SameDesc) ==> r.entries == ps && |r.entries| == |d.entries|)
  {
    if d.DMap? {
      var ps := MapLiteralStep(d, e);
      Dicts.InsertAllLength([], ps, SameDesc);
      if Dicts.DistinctBy(ps, SameDesc) {
        assert [] + ps == ps;
        Dicts.InsertAllFresh([], ps, SameDesc);
      }
    } else {
      SeqLiteralStep(d, e);
    }
  }

  /** A normalised list or tuple literal is the literal of its normalised members. */
  lemma SeqLiteralStep(d: Desc, e: Error)
    requires d.DSeq? && NormalizeWith(d, e).Ok?
    ensures NormalizeAll(d.members, e).Ok?
    ensures NormalizeWith(d, e) == Ok(DSeq(d.kind, NormalizeAll(d.members, e).value))
  {
  }

  /** A normalised dict literal is the dict of its normalised items `ps`. */
  lemma MapLiteralStep(d: Desc, e: Error) returns (ps: seq<(Desc, Desc)>)
    requires d.DMap? && NormalizeWith(d, e).Ok?
    ensures NormalizePairs(d, 0, e) == Ok(ps)
    ensures NormalizeWith(d, e) == Ok(DMap(Dicts.InsertAll([], ps, SameDesc)))
  {
    ps := NormalizePairs(d, 0, e).value;
  }
}
