/**
 * The parts of scalar conversion that typepigeon/to_type.py and
 * typepigeon/convert.py share: the lookup of an `Enum` member by name and then
 * by value, and the conversion of a `timedelta` or a CRS before the target's
 * own rules apply.
 */
module Scalars {
  import opened Wrappers
  import opened Values
  import Durations

  /** The first member at or after `i` whose value equals `v`. */
  function ValueIndex(def: EnumDef, v: Value, i: nat): (r: Option<nat>)
    requires i <= |def.members|
    ensures r.Some? ==> i <= r.value < |def.members| && PyEq(def.members[r.value].1, v)
    ensures r.Some? ==> forall j :: i <= j < r.value ==> !PyEq(def.members[j].1, v)
    ensures r.None? ==> forall j :: i <= j < |def.members| ==> !PyEq(def.members[j].1, v)
    decreases |def.members| - i
  {
    if i == |def.members| then None
    else if PyEq(def.members[i].1, v) then Some(i)
    else ValueIndex(def, v, i + 1)
  }

  /** The first member called `name`. */
  function NameIndex(def: EnumDef, name: string, i: nat): (r: Option<nat>)
    requires i <= |def.members|
    ensures r.Some? ==> i <= r.value < |def.members| && def.members[r.value].0 == name
    ensures r.None? ==> forall j :: i <= j < |def.members| ==> def.members[j].0 != name
    decreases |def.members| - i
  {
    if i == |def.members| then None
    else if def.members[i].0 == name then Some(i)
    else NameIndex(def, name, i + 1)
  }

  /**
   * The member that entry `j` stands for: the first entry with an equal value,
   * later entries with that value being aliases of it.
   */
  function Canonical(def: EnumDef, j: nat): (c: nat)
    requires j < |def.members|
    ensures c <= j && PyEq(def.members[c].1, def.members[j].1)
    ensures forall i :: 0 <= i < c ==> !PyEq(def.members[i].1, def.members[j].1)
  {
    PyEqReflexive(def.members[j].1);
    ValueIndex(def, def.members[j].1, 0).value
  }

  function MemberAt(def: EnumDef, c: nat): Value
    requires c < |def.members|
  {
    VMember(def.name, def.members[c].0, def.members[c].1)
  }

  /**
   * `cls[v]`, and if that raises KeyError, `cls(v)`: the member named `v`, else
   * the member whose value equals `v`, else a ValueError. An unhashable `v`
   * makes the name lookup raise TypeError, which is not caught.
   */
  function EnumLookup(def: EnumDef, v: Value): (r: Result<Value, Error>)
    ensures r.Ok? ==> exists j :: 0 <= j < |def.members| && r.value == MemberAt(def, j)
    ensures !Hashable(v) ==> r == Err(TypeError)
    ensures Hashable(v) && v.VStr? && NameIndex(def, v.s, 0).Some? ==>
      r == Ok(MemberAt(def, Canonical(def, NameIndex(def, v.s, 0).value)))
    ensures r.Err? && Hashable(v) ==> (
      && r.error == ValueError
      && (v.VStr? ==> forall j :: 0 <= j < |def.members| ==> def.members[j].0 != v.s)
      && (forall j :: 0 <= j < |def.members| ==> !PyEq(def.members[j].1, v)))
    ensures r.Ok? && (!v.VStr? || NameIndex(def, v.s, 0).None?) ==>
      exists j :: 0 <= j < |def.members| && PyEq(def.members[j].1, v) && r.value == MemberAt(def, j)
    ensures Hashable(v) && (!v.VStr? || NameIndex(def, v.s, 0).None?) && ValueIndex(def, v, 0).Some? ==>
      r == Ok(MemberAt(def, ValueIndex(def, v, 0).value))
  {
    if !Hashable(v) then Err(TypeError)
    else
      var byName := if v.VStr? then NameIndex(def, v.s, 0) else None;
      if byName.Some? then Ok(MemberAt(def, Canonical(def, byName.value)))
      else match ValueIndex(def, v, 0)
        case Some(c) => Ok(MemberAt(def, c))
        case None => Err(ValueError)
  }

  /**
   * What both engines do first with a `timedelta` or a CRS when the target is
   * another class: a duration becomes its "HH:MM:SS" text for a `str` target and
   * its total seconds otherwise; a CRS (when pyproj is there) becomes its WKT, its
   * JSON dict or its EPSG code for a `str`, `dict` or `int` target. Anything else
   * is left as it is.
   */
  function Prepare(env: Foreign, pyproj: bool, v: Value, k: Kind): (r: Value)
    ensures v.VDuration? && IsSubclass(k, StrK) ==> r == VStr(Durations.Render(env, v.micros))
    ensures v.VDuration? && !IsSubclass(k, StrK) ==> r == VFloat(Durations.TotalSeconds(v.micros))
    ensures !v.VDuration? && !(pyproj && v.VCrs?) ==> r == v
  {
    match v
    case VDuration(m) =>
      if IsSubclass(k, StrK) then VStr(Durations.Render(env, m)) else VFloat(Durations.TotalSeconds(m))
    case VCrs(c) =>
      if !pyproj then v
      else if IsSubclass(k, StrK) then VStr(env.crsWkt(c))
      else if IsSubclass(k, DictK) then env.crsJson(c)
      else if IsSubclass(k, IntK) then
        (match env.crsEpsg(c)
         case Some(n) => VInt(n)
         case None => VNone)
      else v
    case _ => v
  }
}
