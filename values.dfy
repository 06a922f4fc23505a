/**
 * Python values as the coercion engines see them, the classes they convert to, and
 * the parts of Python's object model the engines lean on: `type()`, `isinstance`,
 * `==` between dictionary keys, hashability, truthiness, `str()` and the numeric
 * constructors. Behaviour that belongs to other libraries or to arbitrary user
 * classes is a parameter (`Foreign`); which optional packages are installed is
 * another (`Caps`).
 */
module Values {
  import opened Wrappers
  import opened Text
  import Dicts

  /** The exceptions the engines raise or let through. */
  datatype Error =
    | NotImplementedError
    | ValueError
    | TypeError
    | KeyError
    | AttributeError
    | StopIteration
    | RuntimeError
    | IndexError
    | SyntaxError
    | OtherError(name: string)

  /**
   * An exception as it leaves a generator expression: a StopIteration raised
   * inside becomes a RuntimeError (PEP 479), any other passes unchanged.
   */
  function GeneratorError(e: Error): (r: Error)
    ensures r != StopIteration
    ensures e != StopIteration ==> r == e
    ensures e == StopIteration ==> r == RuntimeError
  {
    if e == StopIteration then RuntimeError else e
  }

  /** Classes a value can be converted to: the right-hand side of `isinstance(v, k)`. */
  datatype Kind =
    | StrK | IntK | FloatK | BoolK | ListK | TupleK | DictK
    | DateK | DateTimeK | DurationK | CrsK
    | ClassK(name: string)

  datatype Date = Date(year: int, month: int, day: int)
  datatype Time = Time(hour: int, minute: int, second: int, micro: int)
  const Midnight := Time(0, 0, 0, 0)

  /**
   * A Python value. Floats are ideal reals; a `timedelta` is a whole number of
   * microseconds; a dict is its entries in insertion order; an enum member keeps
   * its class name, its name and its value; a `pyproj.CRS` and an instance of a
   * user class are opaque tokens.
   */
  datatype Value =
    | VNone
    | VBool(b: bool)
    | VInt(i: int)
    | VFloat(x: real)
    | VStr(s: string)
    | VList(items: seq<Value>)
    | VTuple(items: seq<Value>)
    | VDict(entries: seq<(Value, Value)>)
    | VDuration(micros: int)
    | VDate(date: Date)
    | VDateTime(date: Date, time: Time)
    | VMember(enumName: string, name: string, value: Value)
    | VPath(posix: string)
    | VCrs(crs: nat)
    | VObject(cls: string, id: nat)

  /** An `Enum` class: its name and its members `(name, value)` in definition order. */
  datatype EnumDef = EnumDef(name: string, members: seq<(string, Value)>)

  /**
   * What the engines call but do not define: `ast.literal_eval`, `json.loads`,
   * `dateutil.parser.parse`, `datetime.strptime(s, "%H:%M:%S")`, `float()` and
   * `int()` of text this model does not read itself, `str()`, `bool()`, `float()`
   * and `int()` of values without a fixed rendering here, calling a class or its
   * `from_string` (an `AttributeError` when it has none), the pyproj CRS methods
   * `to_wkt`, `to_json_dict` and `to_epsg`, and the `04.3` seconds format.
   */
  datatype Foreign = Foreign(
    literalEval: string -> Result<Value, Error>,
    jsonLoads: string -> Result<Value, Error>,
    parseDate: string -> Result<Value, Error>,
    strptimeHMS: string -> Option<Time>,
    parseFloat: string -> Option<real>,
    parseInt: string -> Option<int>,
    strOf: Value -> string,
    truthy: Value -> bool,
    toFloat: Value -> Option<real>,
    toInt: Value -> Option<int>,
    construct: (Kind, Value) -> Result<Value, Error>,
    fromString: (Kind, string) -> Result<Value, Error>,
    crsWkt: nat -> string,
    crsJson: nat -> Value,
    crsEpsg: nat -> Option<int>,
    formatSeconds: real -> string)

  /** Which optional packages are installed. */
  datatype Caps = Caps(pyproj: bool, dateutil: bool)

  /** `type(v)`. */
  function TypeOf(v: Value): Kind
  {
    match v
    case VNone => ClassK("NoneType")
    case VBool(_) => BoolK
    case VInt(_) => IntK
    case VFloat(_) => FloatK
    case VStr(_) => StrK
    case VList(_) => ListK
    case VTuple(_) => TupleK
    case VDict(_) => DictK
    case VDuration(_) => DurationK
    case VDate(_) => DateK
    case VDateTime(_, _) => DateTimeK
    case VMember(e, _, _) => ClassK(e)
    case VPath(_) => ClassK("PosixPath")
    case VCrs(_) => CrsK
    case VObject(c, _) => ClassK(c)
  }

  /** `issubclass(k, of)`: among these classes only `bool` < `int` and `datetime` < `date`. */
  predicate IsSubclass(k: Kind, of: Kind)
  {
    k == of || (k == BoolK && of == IntK) || (k == DateTimeK && of == DateK)
  }

  /** `isinstance(v, k)`. */
  predicate IsInstance(v: Value, k: Kind)
  {
    IsSubclass(TypeOf(v), k)
  }

  /** `isinstance(v, Collection)`, which for these values is also `isinstance(v, Iterable)`. */
  predicate IsCollection(v: Value)
  {
    v.VStr? || v.VList? || v.VTuple? || v.VDict?
  }

  /** `len(v)`. */
  function Len(v: Value): nat
    requires IsCollection(v)
  {
    match v
    case VStr(s) => |s|
    case VList(xs) => |xs|
    case VTuple(xs) => |xs|
    case VDict(es) => |es|
  }

  /** `hash(v)` succeeds: lists and dicts are unhashable, and so is a tuple holding one. */
  predicate Hashable(v: Value)
  {
    match v
    case VList(_) => false
    case VDict(_) => false
    case VTuple(xs) => forall i :: 0 <= i < |xs| ==> Hashable(xs[i])
    case _ => true
  }

  predicate IsNumber(v: Value)
  {
    v.VBool? || v.VInt? || v.VFloat?
  }

  function NumberOf(v: Value): real
    requires IsNumber(v)
  {
    match v
    case VBool(b) => if b then 1.0 else 0.0
    case VInt(i) => i as real
    case VFloat(x) => x
  }

  /**
   * Python `==`: numbers compare by value across `bool`, `int` and `float`
   * (`1 == True == 1.0`), tuples and lists element by element, everything else
   * structurally.
   */
  predicate PyEq(a: Value, b: Value)
  {
    if IsNumber(a) && IsNumber(b) then NumberOf(a) == NumberOf(b)
    else if (a.VTuple? && b.VTuple?) || (a.VList? && b.VList?) then
      |a.items| == |b.items| && forall i :: 0 <= i < |a.items| ==> PyEq(a.items[i], b.items[i])
    else a == b
  }

  /** Every value equals itself. */
  lemma {:induction false} PyEqReflexive(v: Value)
    ensures PyEq(v, v)
  {
    if (v.VTuple? || v.VList?) && !IsNumber(v) {
      forall i | 0 <= i < |v.items| ensures PyEq(v.items[i], v.items[i]) {
        PyEqReflexive(v.items[i]);
      }
    }
  }

  /** `bool(v)`. */
  function Truthy(env: Foreign, v: Value): bool
  {
    match v
    case VNone => false
    case VBool(b) => b
    case VInt(i) => i != 0
    case VFloat(x) => x != 0.0
    case VStr(s) => |s| > 0
    case VList(xs) => |xs| > 0
    case VTuple(xs) => |xs| > 0
    case VDict(es) => |es| > 0
    case VDuration(m) => m != 0
    case VObject(_, _) => env.truthy(v)
    case _ => true
  }

  /** `str(n)` for an integer. */
  function IntText(n: int): string
  {
    if n < 0 then "-" + Decimal(-n) else Decimal(n)
  }

  /** `str(v)` (and `f"{v}"`). */
  function StrOf(env: Foreign, v: Value): string
  {
    match v
    case VStr(s) => s
    case VNone => "None"
    case VBool(b) => if b then "True" else "False"
    case VInt(i) => IntText(i)
    case VPath(p) => p
    case _ => env.strOf(v)
  }

  /** ASCII characters that can occur in text `float()` accepts (digits, signs, point, underscore, exponent, "inf", "infinity", "nan", spaces). */
  predicate FloatChar(c: char)
  {
    IsDigit(c) || c in "+-._eEiInNfFtTyYaA" || IsSpace(c)
  }

  /** ASCII characters that can occur in text `int()` accepts. */
  predicate IntChar(c: char)
  {
    IsDigit(c) || c in "+-_" || IsSpace(c)
  }

  /** `s` holds an ASCII character outside what `float()` accepts. */
  predicate NotFloatText(s: string)
  {
    exists i :: 0 <= i < |s| && s[i] < '\U{0080}' && !FloatChar(s[i])
  }

  predicate NotIntText(s: string)
  {
    exists i :: 0 <= i < |s| && s[i] < '\U{0080}' && !IntChar(s[i])
  }

  /**
   * `float(s)`: plain decimal digits (around which spaces are ignored) are read
   * here, blank text and text with an ASCII character `float()` never accepts are
   * a ValueError, and everything else is left to the parser parameter.
   */
  function FloatOfText(env: Foreign, s: string): (r: Result<real, Error>)
    ensures IsDigits(Strip(s)) ==> r == Ok(DigitsValue(Strip(s)) as real)
    ensures Strip(s) == [] || (!IsDigits(Strip(s)) && NotFloatText(s)) ==> r == Err(ValueError)
    ensures r.Err? ==> r.error == ValueError
  {
    var t := Strip(s);
    if IsDigits(t) then Ok(DigitsValue(t) as real)
    else if t == [] || NotFloatText(s) then Err(ValueError)
    else match env.parseFloat(s)
      case Some(x) => Ok(x)
      case None => Err(ValueError)
  }

  /** `int(s)`, read the same way. */
  function IntOfText(env: Foreign, s: string): (r: Result<int, Error>)
    ensures IsDigits(Strip(s)) ==> r == Ok(DigitsValue(Strip(s)))
    ensures Strip(s) == [] || (!IsDigits(Strip(s)) && NotIntText(s)) ==> r == Err(ValueError)
    ensures r.Err? ==> r.error == ValueError
  {
    var t := Strip(s);
    if IsDigits(t) then Ok(DigitsValue(t))
    else if t == [] || NotIntText(s) then Err(ValueError)
    else match env.parseInt(s)
      case Some(n) => Ok(n)
      case None => Err(ValueError)
  }

  /** `int(x)` for a float: truncation toward zero. */
  function Trunc(x: real): (r: int)
    ensures x >= 0.0 ==> r as real <= x < r as real + 1.0
    ensures x < 0.0 ==> r as real - 1.0 < x <= r as real
  {
    if x >= 0.0 then x.Floor else -((-x).Floor)
  }

  /** Text holding a colon is never a float. */
  lemma ColonNotFloat(env: Foreign, s: string)
    requires ':' in s
    ensures FloatOfText(env, s) == Err(ValueError)
  {
    var i :| 0 <= i < |s| && s[i] == ':';
    assert !FloatChar(s[i]);
    var r := Strip(s);
    var a := SkipSpace(s, 0);
    assert !IsSpace(s[i]);
    assert a <= i < a + |r| && r[i - a] == ':';
    assert !IsDigits(r);
  }

  function FloatOf(env: Foreign, v: Value): Result<real, Error>
  {
    match v
    case VFloat(x) => Ok(x)
    case VInt(i) => Ok(i as real)
    case VBool(b) => Ok(if b then 1.0 else 0.0)
    case VStr(s) => FloatOfText(env, s)
    case VObject(_, _) =>
      (match env.toFloat(v)
       case Some(x) => Ok(x)
       case None => Err(TypeError))
    case _ => Err(TypeError)
  }

  /** `int(v)`. */
  function IntOf(env: Foreign, v: Value): Result<int, Error>
  {
    match v
    case VInt(i) => Ok(i)
    case VBool(b) => Ok(if b then 1 else 0)
    case VFloat(x) => Ok(Trunc(x))
    case VStr(s) => IntOfText(env, s)
    case VObject(_, _) =>
      (match env.toInt(v)
       case Some(n) => Ok(n)
       case None => Err(TypeError))
    case _ => Err(TypeError)
  }

  /** Rounding to the nearest integer, ties to even, as `timedelta` rounds microseconds. */
  function RoundHalfEven(x: real): (r: int)
    ensures x - 0.5 <= r as real <= x + 0.5
    ensures r == x.Floor || r == x.Floor + 1
    ensures x - x.Floor as real < 0.5 ==> r == x.Floor
    ensures x - x.Floor as real > 0.5 ==> r == x.Floor + 1
    ensures x - x.Floor as real == 0.5 ==> r % 2 == 0
    ensures x == x.Floor as real ==> r == x.Floor
  {
    var f := x.Floor;
    var frac := x - f as real;
    if frac < 0.5 then f
    else if frac > 0.5 then f + 1
    else if f % 2 == 0 then f
    else f + 1
  }

  const MicrosPerSecond: int := 1000000
  const MicrosPerMinute: int := 60 * MicrosPerSecond
  const MicrosPerHour: int := 60 * MicrosPerMinute
  const MicrosPerDay: int := 24 * MicrosPerHour

  /**
   * Calling class `k` with the single argument `v`. `str`, `int`, `float`,
   * `bool` and `timedelta` (whose one positional argument counts days) are read
   * here, and always yield an instance of their class; `date` and `datetime` need
   * three arguments; the other classes are parameters.
   */
  function Construct(env: Foreign, k: Kind, v: Value): (r: Result<Value, Error>)
    ensures r.Ok? && k in {StrK, IntK, FloatK, BoolK, DurationK} ==> TypeOf(r.value) == k
    ensures k in {StrK, BoolK} ==> r.Ok?
    ensures k in {DateK, DateTimeK} ==> r == Err(TypeError)
  {
    match k
    case StrK => Ok(VStr(StrOf(env, v)))
    case IntK => var n :- IntOf(env, v); Ok(VInt(n))
    case FloatK => var x :- FloatOf(env, v); Ok(VFloat(x))
    case BoolK => Ok(VBool(Truthy(env, v)))
    case DurationK =>
      if IsNumber(v) then Ok(VDuration(RoundHalfEven(NumberOf(v) * MicrosPerDay as real))) else Err(TypeError)
    case DateK => Err(TypeError)
    case DateTimeK => Err(TypeError)
    case _ => env.construct(k, v)
  }

  /** `k.from_string(s)`: only CRS and user classes can have one. */
  function FromString(env: Foreign, k: Kind, s: string): (r: Result<Value, Error>)
    ensures !k.CrsK? && !k.ClassK? ==> r == Err(AttributeError)
  {
    if k.CrsK? || k.ClassK? then env.fromString(k, s) else Err(AttributeError)
  }

  /** The one-character strings of `w`, in order: what iterating a `str` yields. */
  function Chars(w: string): (r: seq<Value>)
    ensures |r| == |w| && forall j :: 0 <= j < |w| ==> r[j] == VStr([w[j]])
  {
    seq(|w|, j requires 0 <= j < |w| => VStr([w[j]]))
  }

  /** The `i`-th element `v[i]`: a one-character string of a string, the value stored under key `i` of a dict. */
  function Element(v: Value, i: nat): (r: Result<Value, Error>)
    requires IsCollection(v) && i < Len(v)
    ensures v.VList? || v.VTuple? ==> r == Ok(v.items[i])
    ensures v.VStr? ==> r == Ok(VStr([v.s[i]]))
    ensures v.VDict? && r.Ok? ==> exists j :: 0 <= j < |v.entries| && PyEq(v.entries[j].0, VInt(i)) && r.value == v.entries[j].1
    ensures v.VDict? && r.Err? ==> r.error == KeyError && forall j :: 0 <= j < |v.entries| ==> !PyEq(v.entries[j].0, VInt(i))
  {
    match v
    case VStr(s) => Ok(VStr([s[i]]))
    case VList(xs) => Ok(xs[i])
    case VTuple(xs) => Ok(xs[i])
    case VDict(es) =>
      match Dicts.Find(es, VInt(i), PyEq)
      case Some(j) => Ok(es[j].1)
      case None => Err(KeyError)
  }

  /** Keys are pairwise unequal under Python `==`, as in every Python dict. */
  predicate DistinctKeys(es: seq<(Value, Value)>)
  {
    Dicts.DistinctBy(es, PyEq)
  }

  /**
   * `dict(pairs)`: a TypeError when a key is unhashable; otherwise the pairs
   * inserted in order, a key equal to an earlier one replacing its value.
   */
  function BuildDict(ps: seq<(Value, Value)>): (r: Result<seq<(Value, Value)>, Error>)
    ensures r.Ok? <==> forall i :: 0 <= i < |ps| ==> Hashable(ps[i].0)
    ensures r.Err? ==> r.error == TypeError
    ensures r.Ok? ==> DistinctKeys(r.value) && r.value == Dicts.InsertAll([], ps, PyEq)
  {
    if forall i :: 0 <= i < |ps| ==> Hashable(ps[i].0) then
      Dicts.InsertAllDistinct([], ps, PyEq);
      Ok(Dicts.InsertAll([], ps, PyEq))
    else Err(TypeError)
  }
}
