/**
 * `timedelta` text. A duration is rendered as `f"{hours:02}:{minutes:02}:{seconds:04.3}"`
 * and read back from colon-separated numbers; the current engine
 * (typepigeon/to_type.py) and the legacy one (typepigeon/convert.py) read them
 * differently.
 */
module Durations {
  import opened Wrappers
  import opened Values
  import opened Text

  /** `divmod(td, timedelta(hours=1))[0]`: whole hours, rounded down, not capped at 24. */
  function WholeHours(micros: int): int
  {
    micros / MicrosPerHour
  }

  /** The whole minutes of what is left after the hours. */
  function WholeMinutes(micros: int): int
  {
    micros % MicrosPerHour / MicrosPerMinute
  }

  /** `remainder / timedelta(seconds=1)`: the seconds left after the minutes. */
  function RestSeconds(micros: int): real
  {
    (micros % MicrosPerMinute) as real / MicrosPerSecond as real
  }

  /** The three fields add up to the duration; minutes lie in 0..59 and seconds in [0, 60). */
  lemma Fields(micros: int)
    ensures WholeHours(micros) * MicrosPerHour + WholeMinutes(micros) * MicrosPerMinute + micros % MicrosPerMinute == micros
    ensures WholeHours(micros) * MicrosPerHour <= micros < (WholeHours(micros) + 1) * MicrosPerHour
    ensures 0 <= WholeMinutes(micros) < 60 && 0.0 <= RestSeconds(micros) < 60.0
  {
    var h, r := micros / MicrosPerHour, micros % MicrosPerHour;
    var m, q := r / MicrosPerMinute, r % MicrosPerMinute;
    assert MicrosPerHour == 60 * MicrosPerMinute;
    assert micros == h * MicrosPerHour + r && 0 <= r < MicrosPerHour;
    assert r == m * MicrosPerMinute + q && 0 <= q < MicrosPerMinute;
    assert 0 <= m < 60;
    assert micros == (60 * h + m) * MicrosPerMinute + q;
    assert micros % MicrosPerMinute == q;
  }

  /** A non-negative duration has non-negative whole hours and minutes. */
  lemma FieldsNatural(micros: int)
    requires micros >= 0
    ensures WholeHours(micros) >= 0 && WholeMinutes(micros) >= 0
  {
    assert MicrosPerHour > 0 && MicrosPerMinute > 0;
  }

  /** `to_type(td, str)`. */
  function Render(env: Foreign, micros: int): string
  {
    Pad2(WholeHours(micros)) + ":" + Pad2(WholeMinutes(micros)) + ":" + env.formatSeconds(RestSeconds(micros))
  }

  /** `td / timedelta(seconds=1)`: the total seconds, as `to_type(td, float)` gives them. */
  function TotalSeconds(micros: int): real
  {
    micros as real / MicrosPerSecond as real
  }

  /** `timedelta(seconds=x)`, rounding to whole microseconds. */
  function FromSeconds(x: real): (micros: int)
    ensures x * MicrosPerSecond as real - 0.5 <= micros as real <= x * MicrosPerSecond as real + 0.5
  {
    RoundHalfEven(x * MicrosPerSecond as real)
  }

  /** A duration's total seconds turn back into the same duration. */
  lemma SecondsRoundTrip(micros: int)
    ensures FromSeconds(TotalSeconds(micros)) == micros
  {
    assert TotalSeconds(micros) * MicrosPerSecond as real == micros as real;
  }

  /** `[float(part) for part in parts]`: the first part that does not read is a ValueError. */
  function ReadFloats(env: Foreign, parts: seq<string>): (r: Result<seq<real>, Error>)
    ensures r.Ok? <==> forall i :: 0 <= i < |parts| ==> FloatOfText(env, parts[i]).Ok?
    ensures r.Ok? ==> |r.value| == |parts| && forall i :: 0 <= i < |parts| ==> FloatOfText(env, parts[i]) == Ok(r.value[i])
    ensures r.Err? ==> r.error == ValueError
  {
    if parts == [] then Ok([])
    else
      var x :- FloatOfText(env, parts[0]);
      var rest :- ReadFloats(env, parts[1..]);
      assert forall i :: 1 <= i < |parts| ==> parts[i] == parts[1..][i - 1];
      Ok([x] + rest)
  }

  /** The keyword arguments of `timedelta` that the colon parser fills. */
  datatype Keyword = Days | Hours | Minutes | Seconds

  /**
   * The keyword arguments of `timedelta(**components)` for two to four parts,
   * read from the right: seconds last, then minutes, then hours, then days.
   */
  function Components(parts: seq<real>): map<Keyword, real>
    requires 2 <= |parts| <= 4
  {
    var n := |parts|;
    var c := map[Seconds := parts[n - 1], Minutes := parts[n - 2]];
    var c := if n >= 3 then c[Hours := parts[n - 3]] else c;
    if n == 4 then c[Days := parts[n - 4]] else c
  }

  /**
   * The loop of typepigeon/to_type.py that fills `components` by popping parts
   * off the front: days when more than three remain, hours when more than two,
   * and the last two as minutes and seconds.
   */
  method FillComponents(parts0: seq<real>) returns (components: map<Keyword, real>)
    requires 2 <= |parts0| <= 4
    ensures components == Components(parts0)
  {
    var parts := parts0;
    components := map[];
    if |parts| > 3 {
      components := components[Days := parts[0]];
      parts := parts[1..];
    }
    if |parts| > 2 {
      components := components[Hours := parts[0]];
      parts := parts[1..];
    }
    assert parts == parts0[|parts0| - 2..];
    components := components[Minutes := parts[0]];
    components := components[Seconds := parts[1]];
  }

  function Component(c: map<Keyword, real>, name: Keyword): real
  {
    if name in c then c[name] else 0.0
  }

  /** `timedelta(**c)` in seconds: the keyword arguments that are not given count as zero. */
  function ComponentSeconds(c: map<Keyword, real>): real
  {
    Component(c, Days) * 86400.0 + Component(c, Hours) * 3600.0 + Component(c, Minutes) * 60.0 + Component(c, Seconds)
  }

  /** What a colon field at `place` from the right counts in seconds. */
  function PlaceValue(place: nat): real
  {
    if place == 0 then 1.0 else if place == 1 then 60.0 else if place == 2 then 3600.0 else 86400.0
  }

  /** Colon fields as positional digits of a mixed radix: seconds, minutes, hours, days from the right. */
  function ColonSeconds(parts: seq<real>): real
  {
    if parts == [] then 0.0 else parts[0] * PlaceValue(|parts| - 1) + ColonSeconds(parts[1..])
  }

  /** The components come to the positional reading of the parts. */
  lemma ComponentsAreRightToLeft(parts: seq<real>)
    requires 2 <= |parts| <= 4
    ensures ComponentSeconds(Components(parts)) == ColonSeconds(parts)
  {
    var n := |parts|;
    var last := parts[n - 2..];
    LastTwo(last);
    if n == 2 {
      assert last == parts;
      assert Components(parts) == map[Seconds := parts[1], Minutes := parts[0]];
    } else if n == 3 {
      assert parts[1..] == last;
      assert Components(parts) == map[Seconds := parts[2], Minutes := parts[1], Hours := parts[0]];
    } else {
      assert parts[1..][1..] == last;
      assert Components(parts) == map[Seconds := parts[3], Minutes := parts[2], Hours := parts[1], Days := parts[0]];
    }
  }

  lemma LastTwo(last: seq<real>)
    requires |last| == 2
    ensures ColonSeconds(last) == last[0] * 60.0 + last[1]
  {
    var t := last[1..];
    assert t == [last[1]] && t[1..] == [];
    assert ColonSeconds(t) == last[1] * PlaceValue(0) + ColonSeconds(t[1..]);
  }

  /**
   * `timedelta(**components)` for text holding a colon (typepigeon/to_type.py):
   * every part must read as a float, and more than four parts is a ValueError.
   */
  function ParseColon(env: Foreign, s: string): (r: Result<int, Error>)
    requires ':' in s
    ensures r.Ok? ==> 2 <= |Split(s, ':')| <= 4
    ensures r.Err? ==> r.error == ValueError
  {
    CountPositive(s, ':');
    var parts :- ReadFloats(env, Split(s, ':'));
    if |parts| > 4 then Err(ValueError)
    else Ok(FromSeconds(ComponentSeconds(Components(parts))))
  }

  /** The `timedelta` branch of typepigeon/to_type.py: colon text, or else a count of seconds. */
  function ParseDuration(env: Foreign, v: Value): Result<int, Error>
  {
    if v.VStr? && ':' in v.s then ParseColon(env, v.s)
    else
      var x :- FloatOf(env, v);
      Ok(FromSeconds(x))
  }

  /** Colon text is read right to left as seconds, minutes, hours and days. */
  lemma ParseColonPositional(env: Foreign, s: string)
    requires ':' in s && ParseColon(env, s).Ok?
    ensures ReadFloats(env, Split(s, ':')).Ok?
    ensures ParseColon(env, s) == Ok(FromSeconds(ColonSeconds(ReadFloats(env, Split(s, ':')).value)))
  {
    ComponentsAreRightToLeft(ReadFloats(env, Split(s, ':')).value);
  }

  /** Five or more colon fields are a ValueError, whatever they hold. */
  lemma TooManyFields(env: Foreign, s: string)
    requires Count(s, ':') >= 4
    ensures ':' in s && ParseColon(env, s) == Err(ValueError)
  {
    if ':' !in s {
      assert Lacks(s, ':');
      LacksCount(s, ':');
    }
  }

  /** The rendered text of a non-negative duration holds its hours and minutes as digit fields. */
  lemma RenderFields(env: Foreign, micros: int)
    requires micros >= 0 && Lacks(env.formatSeconds(RestSeconds(micros)), ':')
    ensures Split(Render(env, micros), ':') == [Pad2(WholeHours(micros)), Pad2(WholeMinutes(micros)), env.formatSeconds(RestSeconds(micros))]
  {
    var h, m, f := Pad2(WholeHours(micros)), Pad2(WholeMinutes(micros)), env.formatSeconds(RestSeconds(micros));
    Fields(micros);
    Pad2RoundTrip(WholeHours(micros));
    Pad2RoundTrip(WholeMinutes(micros));
    assert Lacks(h, ':') && Lacks(m, ':');
    var parts := [h, m, f];
    assert parts[1..] == [m, f] && [m, f][1..] == [f];
    assert Join([m, f], ':') == m + [':'] + f;
    assert Join(parts, ':') == h + [':'] + (m + [':'] + f);
    assert Join(parts, ':') == Render(env, micros);
    SplitJoin(parts, ':');
  }

  /**
   * Rendering a non-negative duration and reading the text back gives the same
   * duration, provided the seconds text reads back as the seconds it renders.
   */
  lemma RenderRoundTrip(env: Foreign, micros: int)
    requires micros >= 0
    requires Lacks(env.formatSeconds(RestSeconds(micros)), ':')
    requires FloatOfText(env, env.formatSeconds(RestSeconds(micros))) == Ok(RestSeconds(micros))
    ensures ParseDuration(env, VStr(Render(env, micros))) == Ok(micros)
  {
    var s := Render(env, micros);
    var h, m, sec := WholeHours(micros), WholeMinutes(micros), RestSeconds(micros);
    RenderFields(env, micros);
    CountedOccurs(s, ':');
    FieldsNatural(micros);
    ReadRendered(env, h, m, env.formatSeconds(sec), sec);
    var xs := [h as real, m as real, sec];
    ParseColonOf(env, s, xs);
    ThreeFields(xs);
    FieldsInSeconds(micros);
    var x := ComponentSeconds(Components(xs));
    assert x == h as real * 3600.0 + m as real * 60.0 + sec;
    ExactSeconds(x, micros);
  }

  /** Seconds that are a whole number of microseconds convert without rounding. */
  lemma ExactSeconds(x: real, micros: int)
    requires x * MicrosPerSecond as real == micros as real
    ensures FromSeconds(x) == micros
  {
    assert (micros as real).Floor == micros;
  }

  lemma ParseColonOf(env: Foreign, s: string, xs: seq<real>)
    requires ':' in s && ReadFloats(env, Split(s, ':')) == Ok(xs) && 2 <= |xs| <= 4
    ensures ParseDuration(env, VStr(s)) == Ok(FromSeconds(ComponentSeconds(Components(xs))))
  {
  }

  lemma ThreeFields(xs: seq<real>)
    requires |xs| == 3
    ensures ComponentSeconds(Components(xs)) == xs[0] * 3600.0 + xs[1] * 60.0 + xs[2]
  {
    assert Components(xs) == map[Seconds := xs[2], Minutes := xs[1], Hours := xs[0]];
  }

  /** Two padded whole fields and a seconds text that reads back read as the three numbers. */
  lemma ReadRendered(env: Foreign, h: nat, m: nat, f: string, sec: real)
    requires FloatOfText(env, f) == Ok(sec)
    ensures ReadFloats(env, [Pad2(h), Pad2(m), f]) == Ok([h as real, m as real, sec])
  {
    PadReads(env, h);
    PadReads(env, m);
    ReadThree(env, Pad2(h), Pad2(m), f, h as real, m as real, sec);
  }

  /** Three parts that each read as a number read, together, as those three numbers. */
  lemma ReadThree(env: Foreign, a: string, b: string, c: string, x: real, y: real, z: real)
    requires FloatOfText(env, a) == Ok(x) && FloatOfText(env, b) == Ok(y) && FloatOfText(env, c) == Ok(z)
    ensures ReadFloats(env, [a, b, c]) == Ok([x, y, z])
  {
    var ps, xs := [a, b, c], [x, y, z];
    assert forall i :: 0 <= i < 3 ==> FloatOfText(env, ps[i]) == Ok(xs[i]);
    ReadFloatsOk(env, ps, xs);
  }

  /** Parts that each read as a number read, all together, as those numbers. */
  lemma ReadFloatsOk(env: Foreign, ps: seq<string>, xs: seq<real>)
    requires |ps| == |xs| && forall i :: 0 <= i < |ps| ==> FloatOfText(env, ps[i]) == Ok(xs[i])
    ensures ReadFloats(env, ps) == Ok(xs)
  {
    var r := ReadFloats(env, ps);
    assert r.Ok?;
    assert r.value == xs;
  }

  /** A zero-padded field reads back as its number. */
  lemma PadReads(env: Foreign, n: nat)
    ensures FloatOfText(env, Pad2(n)) == Ok(n as real)
  {
    Pad2RoundTrip(n);
    StripDigits(Pad2(n));
  }

  lemma FieldsInSeconds(micros: int)
    ensures (WholeHours(micros) as real * 3600.0 + WholeMinutes(micros) as real * 60.0 + RestSeconds(micros)) * MicrosPerSecond as real == micros as real
  {
    Fields(micros);
    var h, m, q := WholeHours(micros), WholeMinutes(micros), micros % MicrosPerMinute;
    assert (h * MicrosPerHour + m * MicrosPerMinute + q) as real == micros as real;
    assert RestSeconds(micros) * MicrosPerSecond as real == q as real;
  }

  /** The numbers that fields of decimal digits stand for. */
  function DigitNumbers(ps: seq<string>): (xs: seq<real>)
    requires forall i :: 0 <= i < |ps| ==> IsDigits(ps[i])
    ensures |xs| == |ps| && forall i :: 0 <= i < |ps| ==> IsDigits(ps[i]) && xs[i] == DigitsValue(ps[i]) as real
  {
    if ps == [] then []
    else
      assert IsDigits(ps[0]) && forall i :: 1 <= i < |ps| ==> ps[1..][i - 1] == ps[i];
      [DigitsValue(ps[0]) as real] + DigitNumbers(ps[1..])
  }

  /** Fields of decimal digits read as the numbers they spell. */
  lemma ReadDigitFields(env: Foreign, ps: seq<string>)
    requires forall i :: 0 <= i < |ps| ==> IsDigits(ps[i])
    ensures ReadFloats(env, ps) == Ok(DigitNumbers(ps))
  {
    forall i | 0 <= i < |ps|
      ensures FloatOfText(env, ps[i]) == Ok(DigitNumbers(ps)[i])
    {
      StripDigits(ps[i]);
    }
    ReadFloatsOk(env, ps, DigitNumbers(ps));
  }

  /** Two digit fields around a colon read as minutes and seconds. */
  lemma MinutesAndSeconds(env: Foreign, m: string, s: string)
    requires IsDigits(m) && IsDigits(s)
    ensures ParseDuration(env, VStr(m + ":" + s)) == Ok(FromSeconds((DigitsValue(m) * 60 + DigitsValue(s)) as real))
  {
    TwoFieldsRead(env, m, s);
    TwoFieldsValue(m, s);
  }

  lemma TwoFieldsRead(env: Foreign, m: string, s: string)
    requires IsDigits(m) && IsDigits(s)
    ensures ParseDuration(env, VStr(m + ":" + s)) == Ok(FromSeconds(ComponentSeconds(Components(DigitNumbers([m, s])))))
  {
    SplitTwo(m, s, ':');
    ReadDigitFields(env, [m, s]);
    ParseColonOf(env, m + ":" + s, DigitNumbers([m, s]));
  }

  lemma TwoFieldsValue(m: string, s: string)
    requires IsDigits(m) && IsDigits(s)
    ensures ComponentSeconds(Components(DigitNumbers([m, s]))) == (DigitsValue(m) * 60 + DigitsValue(s)) as real
  {
    var xs := DigitNumbers([m, s]);
    ComponentsAreRightToLeft(xs);
    LastTwo(xs);
  }
}
