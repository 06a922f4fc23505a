# TypePigeon coercion core in Dafny

TypePigeon converts Python values to a requested target type. A target is a
class (`int`, `str`, `datetime`, `timedelta`, `pyproj.CRS`, an `Enum`), the
name of a builtin (`"float"`), `None`, `typing.Any`, a `typing` alias
(`List[str]`, `Dict[str, float]`, `Tuple[int, str]`), or a literal container
standing for a type (`[str]`, `(int, str)`, `{str: float}`). This project
models four parts of it:

- `subscripted_type` (`typepigeon/types.py`) rewrites a target into plain
  literal form and rejects a subscripted `Union` (module `Descriptors`);
- `to_type` (`typepigeon/to_type.py`) is the coercion engine (modules
  `ToType` and `ToTypeLaws`). Its helpers live in `Values` (Python's object
  model), `Text` (strip, split, splitlines), `Durations` (timedelta text in
  both directions), `Scalars` (enum lookup, the duration and CRS
  preparation) and `Dicts` (dict building with Python key equality);
- `to_json` (`typepigeon/to_json.py`) reduces a value to a JSON-like shape
  (module `Json`);
- the older module `typepigeon/convert.py`, which holds `convert_value`,
  `convert_to_json` and `guard_generic_alias` (modules `Legacy` and
  `LegacyLaws`).

Targets are the datatype `Descriptors.Desc`, values are `Values.Value`, and
exceptions are `Values.Error` inside a `Result`. Whatever the engines call but
do not define is a field of the record `Values.Foreign`, passed as a
parameter:

- `ast.literal_eval`, `json.loads`, `dateutil.parser.parse` and
  `datetime.strptime`;
- `float()` and `int()` of non-decimal text;
- `str()`, truthiness, and the conversion of user objects;
- class constructors and `from_string`;
- the pyproj CRS methods;
- the `04.3` seconds format.

Decimal text is read by the model itself. The result of
`installed_packages()` is the record `Values.Caps`.

The legacy module imports pyproj, dateutil and shapely unconditionally, so
its model takes pyproj and dateutil as present.

The modern engine is modelled as written. JSON text given to a mapping target
is returned as `json.loads` produced it, without per-entry conversion
(`typepigeon/to_type.py:121-122`).

`Legacy.ConvertValue` differs from the modern engine with the same inputs in
five places that the repository's own tests for it contradict (see
"## Findings"). It also differs in a sixth place that its own return
annotation contradicts. Each difference is proved.

## Model

| member | source | states |
|---|---|---|
| Descriptors.Builtin | typepigeon/to_type.py:73-74 | the builtin names `str`, `int`, `float`, `bool`, `list`, `tuple`, `dict` and `None` resolve to a plain one-node target; any other name is an AttributeError |
| Descriptors.NormalizeWith | typepigeon/types.py:5-52 | a rewritten target is plain (no alias left), no larger than the input, and is a name exactly when the input is |
| Descriptors.NormalizeAll | typepigeon/types.py:48 | the members are rewritten one by one: success exactly when every member succeeds, with the same length and each member's own result |
| Descriptors.NormalizePairs | typepigeon/types.py:46-48 | the entries of a dict target are rewritten key and value, in order; success exactly when every key and value succeeds |
| Descriptors.DictAlias | typepigeon/types.py:36-50 | `Dict[K, V]` becomes a plain dict target no larger than the alias |
| Descriptors.DictOf | typepigeon/types.py:49-50 | building the dict target succeeds exactly when every key is hashable (TypeError otherwise), and equal keys keep the last value in first position |
| Descriptors.UnionRejected | typepigeon/types.py:24-29 | any target containing a subscripted `Union`, at any depth, is rejected; a top-level subscripted `Union` fails with the error given for it |
| Descriptors.ErrorSource | typepigeon/types.py:24-51 | rewriting fails only with the `Union` error, ValueError or TypeError, and the `Union` error only when a `Union` is present |
| Descriptors.NotImplementedMeansUnion | typepigeon/types.py:24-29 | a NotImplementedError from `subscripted_type` means the target contains a subscripted `Union` |
| Descriptors.UnionErrorIrrelevant | typepigeon/types.py:24-29 | without a `Union` the error chosen for it cannot change the result of the rewrite |
| Descriptors.PlainUnchanged | typepigeon/types.py:49-52 | a target that is already plain is returned unchanged; the bare `typing.Union`, which has no `__origin__`, is plain |
| Descriptors.Idempotent | typepigeon/types.py:5-52 | rewriting a rewritten target gives the same target |
| Descriptors.AliasIsLiteral | typepigeon/types.py:36-46 | `List[...]` and `Tuple[...]` rewrite like the literal with the same members; `Dict` with two arguments rewrites like the one-entry dict literal, and with any other number it is a ValueError; bare `List` and `Dict` become empty literals |
| Descriptors.DictAliasIsLiteral | typepigeon/types.py:38-41 | `Dict[K, V]` and `{K: V}` rewrite to the same target |
| Descriptors.LiteralMemberwise | typepigeon/types.py:44-51 | a literal container is rewritten member by member and keeps its kind |
| Text.Strip | typepigeon/to_type.py:106 | the result is the input with leading and trailing whitespace removed, and neither of its ends is whitespace |
| Text.Split | typepigeon/to_type.py:103 | `str.split(sep)`: one more field than separators, no field holds the separator, and joining the fields gives back the text |
| Text.SplitLines | typepigeon/to_type.py:101 | `str.splitlines()`: no line holds a line break, the lines put back together are the text without its breaks, and text without a break is one line (none when empty) |
| Text.FirstLine | typepigeon/to_type.py:101 | with a break in the text, the first line is the text before the first break |
| Text.LineThenRest | typepigeon/to_type.py:101 | a line ended by one break (other than a `\r` that starts `\r\n`) is the first line, followed by the lines of the rest |
| Text.CrLfThenRest | typepigeon/to_type.py:101 | a line ended by `\r\n` is the first line, the pair being one break, followed by the lines of the rest |
| Text.SplitLinesJoin | typepigeon/to_type.py:101 | lines without breaks, the last one not empty, joined with `\n` split back into exactly those lines |
| Text.ReplaceChar | typepigeon/to_type.py:122 | `str.replace(a, b)` on one character: same length, every `a` becomes `b` (so no `a` is left), every other character is kept |
| Values.FloatOfText | typepigeon/to_type.py:182 | `float()` of decimal text is its value; empty text or text with a character no float literal holds is a ValueError; it fails with nothing else |
| Values.IntOfText | typepigeon/to_type.py:226 | `int()` of decimal text is its value; empty text or text with a character no int literal holds is a ValueError; it fails with nothing else |
| Values.RoundHalfEven | typepigeon/to_type.py:195 | the rounding `timedelta` applies to microseconds: the floor below one half, the floor plus one above one half, the even neighbour on an exact half, and exact on whole numbers |
| Values.Construct | typepigeon/to_type.py:226 | calling `str`, `int`, `float`, `bool` or `timedelta` gives a value of exactly that class; `str` and `bool` never fail; `date(x)` and `datetime(x)` with one argument are a TypeError |
| Values.FromString | typepigeon/to_type.py:220-224 | only CRS and user classes have `from_string`; any other class gives AttributeError |
| Values.Element | typepigeon/to_type.py:117 | `value[index]`: the item of a list or tuple, the character of a str, and for a dict the value stored under a key equal to the index, or KeyError when there is none |
| Values.BuildDict | typepigeon/to_type.py:131 | `dict(pairs)` succeeds exactly when every key is hashable (TypeError otherwise), has no duplicate keys, and equals inserting the pairs in order |
| Dicts.LastWriteWins | typepigeon/to_type.py:131 | when a key is inserted last, looking it up gives the value inserted last |
| Durations.Fields | typepigeon/to_type.py:149-151 | the `divmod` by one hour and one minute splits a duration into whole hours, minutes under 60 and seconds under 60 that add back to it |
| Durations.FromSeconds | typepigeon/to_type.py:195 | `timedelta(seconds=x)` is within half a microsecond of `x` seconds |
| Durations.SecondsRoundTrip | typepigeon/to_type.py:154 | dividing a duration by one second and building a `timedelta` from that many seconds gives the duration back |
| Durations.ReadFloats | typepigeon/to_type.py:182 | reading the colon fields succeeds exactly when every field reads as a float, giving one number per field, and fails only with ValueError |
| Durations.FillComponents | typepigeon/to_type.py:186-193 | the loop that pops days and hours off the field list fills the keyword map of `Components` |
| Durations.ComponentsAreRightToLeft | typepigeon/to_type.py:186-193 | the keyword arguments built from 2 to 4 fields read the fields right to left as seconds, minutes, hours, days |
| Durations.ParseColon | typepigeon/to_type.py:181-193 | colon text parses only with 2 to 4 fields, and fails only with ValueError |
| Durations.ParseColonPositional | typepigeon/to_type.py:181-193 | a parsed colon text is the positional sum of its fields, rounded to microseconds |
| Durations.TooManyFields | typepigeon/to_type.py:183-185 | colon text with four or more colons is a ValueError |
| Durations.RenderFields | typepigeon/to_type.py:149-152 | the rendered text of a non-negative duration is its padded hours, padded minutes and formatted seconds, split at colons |
| Durations.RenderRoundTrip | typepigeon/to_type.py:149-193 | parsing the rendered text of a non-negative duration gives the duration back, when the seconds are formatted exactly and without a colon |
| Durations.MinutesAndSeconds | typepigeon/to_type.py:186-193 | decimal text `m:s` is `m` minutes and `s` seconds |
| Scalars.ValueIndex | typepigeon/to_type.py:142 | lookup by value finds the first member whose value equals the input, or reports, when there is none, that no member's value equals it |
| Scalars.NameIndex | typepigeon/to_type.py:139 | lookup by name finds the member with that name, or reports, when there is none, that no member has it |
| Scalars.Canonical | typepigeon/to_type.py:139-142 | an alias stands for the first member with an equal value |
| Scalars.EnumLookup | typepigeon/to_type.py:137-145 | `Enum[x]` first, then `Enum(x)`: a result is always a member; a name finds its canonical member, and a hashable value that names no member finds its first equal member; an unhashable input is a TypeError; a ValueError means neither name nor value matched |
| Scalars.Prepare | typepigeon/to_type.py:147-164 | a duration meets a str target as rendered text and any other target as float seconds; a value that is neither a duration nor a CRS, or a CRS without pyproj, passes through unchanged |
| ToType.Build | typepigeon/to_type.py:116-120 | the rebuilt collection has the target's kind (list or tuple) and holds exactly the converted items |
| ToType.Pieces | typepigeon/to_type.py:99-105 | text with a newline becomes at least one piece, none holding a line break, that together are the text without its line breaks; otherwise text with a comma becomes one more piece than it has commas, none holding a comma, that joined with commas give back the text; otherwise the text is its only piece |
| ToType.PiecesOfLines | typepigeon/to_type.py:99-101 | text of two or more break-free lines joined by `\n`, the last not empty, falls apart into exactly those lines |
| ToType.Stripped | typepigeon/to_type.py:106 | every piece is stripped, in order |
| ToType.Elements | typepigeon/to_type.py:92-108 | the value to be iterated is always a collection |
| ToType.Pairing | typepigeon/to_type.py:109-115 | the member types pair with the items exactly when there is one member (repeated for every item) or as many members as items; otherwise it is a ValueError |
| ToType.ConvertElements | typepigeon/to_type.py:116-118 | the items convert exactly when each item converts to its paired type, giving each item's own result in order; a failure is never StopIteration, because the generator turns it into RuntimeError |
| ToType.ElementsFirstFailure | typepigeon/to_type.py:116-118 | a failed conversion of the items is the error of the first item that fails, every earlier item converting, with StopIteration turned into RuntimeError |
| ToType.FirstEntry | typepigeon/to_type.py:126-127 | the key type is the first key `next(iter(d))` of the dict target and the value type is what the target maps that key to; both are smaller than the target |
| ToType.ConvertItems | typepigeon/to_type.py:128-131 | the pairs convert exactly when every key and value converts, giving each key's and value's own result in order |
| ToType.Finish | typepigeon/to_type.py:219-226 | a value that is already an instance is returned; a successful result for a builtin, date or duration class is an instance of it |
| ToType.ConvertEntries | typepigeon/to_type.py:124-131 | the loop over the dict's items gives the result of `ConvertItems` |
| ToTypeLaws.NormalizedTarget | typepigeon/to_type.py:79 | converting to a target is converting to its rewritten form |
| ToTypeLaws.NamedTarget | typepigeon/to_type.py:73-74 | a builtin's name converts like the builtin; an unknown name is an AttributeError |
| ToTypeLaws.NoneAndAny | typepigeon/to_type.py:81-84 | `None` as target always gives `None`; `Any` returns the input, or the name of an enum member |
| ToTypeLaws.NoneInput | typepigeon/to_type.py:81-120 | `None` converts to the empty list or tuple for a sequence target and stays `None` for any other target |
| ToTypeLaws.NoneScalar | typepigeon/to_type.py:146 | `None` given to a class stays `None` |
| ToTypeLaws.UnionTarget | typepigeon/to_type.py:79 | a target containing a subscripted `Union` always fails, with NotImplementedError when it is that `Union` itself |
| ToTypeLaws.BareUnionTarget | typepigeon/to_type.py:146-169 | the bare `typing.Union` is kept by `subscripted_type`; as a target it turns `None` into `None` and any other value into a TypeError |
| ToTypeLaws.ExactClassKept | typepigeon/to_type.py:146 | a value whose exact class is the target is returned unchanged |
| ToTypeLaws.ScalarResultIsInstance | typepigeon/to_type.py:146-226 | a successful conversion of a value other than `None` to `str`, `int`, `float`, `bool`, `timedelta`, `date` or `datetime` is an instance of that class |
| ToTypeLaws.SeqElementwise | typepigeon/to_type.py:109-118 | a list or tuple converted to a sequence target fails with ValueError on an arity mismatch; otherwise it succeeds exactly when every item converts to its member type, and the result has the target's kind and each item's own result; on failure, it is the first failing item's error, with StopIteration turned into RuntimeError |
| ToTypeLaws.SeqFromOther | typepigeon/to_type.py:92-108 | text that is not a literal collection converts as its stripped pieces; a literal collection other than text converts as itself; a value that is not a collection converts as a one-item list |
| ToTypeLaws.SeqFromTextLiteral | typepigeon/to_type.py:90-118 | text whose literal is a `str` converts as the list of that string's one-character strings |
| ToTypeLaws.CommaTextStripped | typepigeon/to_type.py:99-106 | `'test 1, test 2, test 3'` to `[str]` gives `['test 1', 'test 2', 'test 3']` |
| ToTypeLaws.TextToStrings | typepigeon/to_type.py:99-118 | non-literal text converted to `[str]` gives its stripped pieces |
| ToTypeLaws.StringsKept | typepigeon/to_type.py:109-118 | a list of str converted to `[str]` is unchanged |
| ToTypeLaws.DictKeywise | typepigeon/to_type.py:124-131 | a dict converted to `{K: V}` fails when an item fails; otherwise it succeeds exactly when every converted key is hashable (TypeError when one is not), and the result is the converted pairs inserted in order |
| ToTypeLaws.DictWithoutEntries | typepigeon/to_type.py:126 | a dict converted to the empty dict target is a StopIteration |
| ToTypeLaws.EmptyDictMember | typepigeon/to_type.py:116-127 | a list converted to `List[Dict]`, the dict member having no entries, fails with RuntimeError and not StopIteration |
| ToTypeLaws.DictFromOther | typepigeon/to_type.py:121-136 | text given to a dict target is `json.loads` of it with single quotes made double; a CRS with pyproj is its JSON dict; anything else is unchanged |
| ToTypeLaws.EnumTarget | typepigeon/to_type.py:137-145 | `None` stays `None`; a result is always a member; a name finds its canonical member, and a hashable value that names no member, text included, finds its first equal member; failures are ValueError, or TypeError for an unhashable input |
| ToTypeLaws.EnumRoundTrip | typepigeon/to_type.py:76-77 | when member names are distinct, a member converted to its own enum gives its canonical member |
| ToTypeLaws.DurationOut | typepigeon/to_type.py:147-154 | a duration given to `str` is its rendered text, and given to `float` its seconds |
| ToTypeLaws.DurationIn | typepigeon/to_type.py:180-195 | any other value given to `timedelta` is the parsed duration, with the parser's error when that fails |
| ToTypeLaws.DurationTooManyFields | typepigeon/to_type.py:183-185 | text with four or more colons given to `timedelta` is a ValueError |
| ToTypeLaws.MinutesAndSeconds | typepigeon/to_type.py:186-193 | decimal text `m:s` given to `timedelta` is `m` minutes `s` seconds |
| ToTypeLaws.FiveFieldsRejected | typepigeon/to_type.py:183-185 | colon text with five or more fields given to `timedelta` is a ValueError |
| ToTypeLaws.DurationSecondsRoundTrip | typepigeon/to_type.py:147-195 | duration to `float` and back is the same duration |
| ToTypeLaws.DurationTextRoundTrip | typepigeon/to_type.py:149-193 | a non-negative duration to `str` and back is the same duration, when the seconds are formatted exactly and without a colon |
| ToTypeLaws.DateAndDateTime | typepigeon/to_type.py:170-178 | a date given to `datetime` is that day at midnight; a datetime given to `date` is its day |
| ToTypeLaws.BoolFromText | typepigeon/to_type.py:165-169 | text given to `bool`: a bool literal is that bool; a ValueError from `literal_eval` falls back to truthiness, so `'test'` is True; any other error propagates |
| Json.ReducePairs | typepigeon/to_json.py:37 | the pairs reduce exactly when every key and value reduces, giving each one's own result in order |
| Json.ReduceAll | typepigeon/to_json.py:39 | the items reduce exactly when every item reduces, giving each item's own result in order |
| Json.ReduceKeepsPrimitives | typepigeon/to_json.py:30-34 | a Path is its posix text, an enum member is its name, and a value of exact class float, int, bool or str is unchanged |
| Json.ReduceSequence | typepigeon/to_json.py:35-40 | a list or tuple becomes a list of the reduced items, succeeding exactly when each item does |
| Json.ReduceMapping | typepigeon/to_json.py:35-38 | a dict becomes the dict of its reduced pairs, inserted in order with keys of any class; it succeeds exactly when every key and value reduces and every reduced key is hashable |
| Json.ReduceShape | typepigeon/to_json.py:30-51 | when every leaf result is a JSON leaf, every result has JSON shape |
| Json.ReduceFixpoint | typepigeon/to_json.py:30-40 | a value that already has JSON shape is returned unchanged |
| Json.ReduceIdempotent | typepigeon/to_json.py:30-51 | reducing a reduced value gives the same value |
| Json.LeafIsJson | typepigeon/to_json.py:41-51 | the float, int, bool, str chain gives a JSON leaf and keeps `None` |
| Json.ConvertedLeaf | typepigeon/to_json.py:43-51 | conversion to float, int, bool or str gives a JSON leaf |
| Json.ToJsonShape | typepigeon/to_json.py:30-51 | every result of `to_json` has JSON shape, and `to_json` of it is itself |
| Json.ToJsonLeaves | typepigeon/to_json.py:41-51 | `None` stays `None`; an object with a float value is that float, otherwise an object with an int value is that int; a duration is its seconds |
| Json.ToJsonDateTime | typepigeon/to_json.py:41-51 | a datetime whose text is no literal becomes that text |
| Legacy.GuardGenericAlias | typepigeon/convert.py:268-312 | the rewritten target is plain and no larger than the input |
| Legacy.Texts | typepigeon/convert.py:86-87 | the comma fields become str values, one per field and unstripped |
| Legacy.Elements | typepigeon/convert.py:80-89 | the value to be iterated is always a collection |
| Legacy.ConvertElements | typepigeon/convert.py:100-103 | the items convert exactly when each converts to its paired type, giving each item's own result in order; a failure is never StopIteration, because the generator turns it into RuntimeError |
| Legacy.ElementsFirstFailure | typepigeon/convert.py:100-103 | a failed conversion of the items is the error of the first item that fails, every earlier item converting, with StopIteration turned into RuntimeError |
| Legacy.ConvertItems | typepigeon/convert.py:110-118 | the pairs convert exactly when every key and value converts, giving each one's own result in order |
| Legacy.Finish | typepigeon/convert.py:191-215 | an instance is returned; a duration or CRS that is not an instance is prepared again, as before the parsing stage |
| Legacy.PopFields | typepigeon/convert.py:159-166 | popping the days field and summing days, hours, minutes and seconds gives `FieldSeconds` |
| Legacy.ConvertEntries | typepigeon/convert.py:110-118 | the loop over the dict's items gives the result of `ConvertItems` |
| LegacyLaws.GuardIsNormalize | typepigeon/convert.py:268-312 | without a `Union`, `guard_generic_alias` and `subscripted_type` agree |
| LegacyLaws.GuardRejectsUnion | typepigeon/convert.py:289-294 | a target containing a subscripted `Union` is rejected; a top-level subscripted `Union` fails with TypeError, because `issubclass(Union, Mapping)` raises |
| LegacyLaws.BareUnionTarget | typepigeon/convert.py:70-129 | the bare `typing.Union` passes the guard unchanged, and converting any value to it, `None` included, is a TypeError |
| LegacyLaws.GuardIdempotent | typepigeon/convert.py:268-312 | guarding a guarded target gives the same target |
| LegacyLaws.GuardedTarget | typepigeon/convert.py:68 | converting to a target is converting to its guarded form |
| LegacyLaws.NamedTarget | typepigeon/convert.py:62-63 | a builtin's name converts like the builtin; an unknown name is an AttributeError |
| LegacyLaws.NoneAndAny | typepigeon/convert.py:70-73 | `None` as target gives `None`; `Any` returns the input, or the name of an enum member |
| LegacyLaws.NoneInput | typepigeon/convert.py:70-129 | `None` converts to the empty list or tuple for a sequence target, is a TypeError for the bare `typing.Union`, and stays `None` for any other target |
| LegacyLaws.InstanceKept | typepigeon/convert.py:129 | a value that is an instance of the target class, subclasses included, is returned unchanged |
| LegacyLaws.ScalarResultIsInstance | typepigeon/convert.py:129-215 | a successful conversion of a value other than `None` or a CRS to `str`, `int`, `float`, `timedelta` or `date` is an instance of that class |
| LegacyLaws.CrsKept | typepigeon/convert.py:129-215 | a CRS given to `float` comes back as the CRS, and given to `timedelta` is a TypeError |
| LegacyLaws.SeqElementwise | typepigeon/convert.py:90-103 | a list or tuple converted to a sequence target fails with ValueError on an arity mismatch; otherwise it succeeds exactly when every item converts to its member type, with each item's own result |
| LegacyLaws.SeqFromOther | typepigeon/convert.py:80-89 | text that is not a literal collection converts as its unstripped comma fields, or as a one-item list without a comma; a literal collection other than text converts as itself; a non-collection as a one-item list |
| LegacyLaws.SeqFromTextLiteral | typepigeon/convert.py:80-103 | text whose literal is a `str` converts as the list of that string's one-character strings |
| LegacyLaws.TextToStrings | typepigeon/convert.py:86-87 | non-literal text with a comma converted to `[str]` gives its unstripped comma fields |
| LegacyLaws.StringsKept | typepigeon/convert.py:90-103 | a list of str converted to `[str]` is unchanged |
| LegacyLaws.CommaTextUnstripped | typepigeon/convert.py:86-87 | `'test 1, test 2, test 3'` to `[str]` gives `['test 1', ' test 2', ' test 3']` |
| LegacyLaws.DictKeywise | typepigeon/convert.py:110-118 | a dict converted to `{K: V}` fails when an item fails; otherwise it succeeds exactly when every converted key is hashable, and the result is the converted pairs inserted in order |
| LegacyLaws.DictWithoutEntries | typepigeon/convert.py:112 | a dict converted to the empty dict target is an IndexError |
| LegacyLaws.DictFromOther | typepigeon/convert.py:106-109 | text given to a dict target is `json.loads` of it, without quote replacement; a CRS is its JSON dict; anything else is unchanged |
| LegacyLaws.EnumTarget | typepigeon/convert.py:119-128 | `None` stays `None`; a result is always a member; a name finds its canonical member, and a hashable value that names no member, text included, finds its first equal member; failures are ValueError, or TypeError for an unhashable input |
| LegacyLaws.EnumRoundTrip | typepigeon/convert.py:65-66 | when member names are distinct, a member converted to its own enum gives its canonical member |
| LegacyLaws.DurationOut | typepigeon/convert.py:130-137 | a duration given to `str` is its rendered text, and given to `float` its seconds |
| LegacyLaws.DurationIn | typepigeon/convert.py:151-168 | any other value given to `timedelta` is the legacy parse of it, with that parse's error |
| LegacyLaws.ClockFirst | typepigeon/convert.py:154-157 | text that `strptime` reads as `%H:%M:%S` is that clock time as a duration |
| LegacyLaws.ColonFields | typepigeon/convert.py:159-166 | otherwise colon text of three or more float fields is the sum of its fields by `FieldSeconds` |
| LegacyLaws.FieldsPositional | typepigeon/convert.py:159-166 | with three or four fields the legacy sum agrees with the modern right-to-left reading |
| LegacyLaws.FieldsBeyondFourIgnored | typepigeon/convert.py:159-166 | fields after the fourth do not count, and fewer than three fields give no sum |
| LegacyLaws.TwoFieldsRejected | typepigeon/convert.py:152-168 | text with one colon that `strptime` rejects, such as `'20:15'`, is a ValueError |
| LegacyLaws.ExtraFieldsAccepted | typepigeon/convert.py:159-166 | decimal colon text with five or more fields, such as `'02:01:13:20:15'`, is accepted as a duration |
| LegacyLaws.FieldsAfterDays | typepigeon/convert.py:159-166 | with four or more fields the sum is days, hours, minutes and seconds from the first four |
| LegacyLaws.DurationSecondsRoundTrip | typepigeon/convert.py:130-168 | duration to `float` and back is the same duration |
| LegacyLaws.DateAndDateTime | typepigeon/convert.py:129-150 | a date given to `datetime` is a TypeError; a datetime given to `date` comes back unchanged, and it is not equal to its day as a date |
| LegacyLaws.BoolFromText | typepigeon/convert.py:145-146 | text given to `bool`: a `literal_eval` error propagates; a bool literal is that bool; another literal becomes its truthiness |
| LegacyLaws.JsonFixpoint | typepigeon/convert.py:241-253 | a value that already has JSON shape is returned unchanged |
| LegacyLaws.LeafIsJson | typepigeon/convert.py:255-264 | the float, int, bool, str chain gives a JSON leaf for anything but a CRS, and keeps `None` |
| LegacyLaws.ConvertedLeaf | typepigeon/convert.py:129-215 | conversion of anything but a CRS to float, int, bool or str gives a JSON leaf |
| LegacyLaws.JsonDateTime | typepigeon/convert.py:255-264 | a datetime whose text is no literal becomes that text |
| LegacyLaws.JsonKeepsCrs | typepigeon/convert.py:255-264 | a CRS comes back unchanged, which is not JSON shape |

## Left out

- Geometry: the shapely branches (`typepigeon/to_type.py:196-217`, `typepigeon/convert.py:169-184,207-208`) are not modelled. There are no geometry classes among the targets.
- Sets and frozensets are not modelled, as values or as targets.
- A subscripted `Union` is modelled only as rejected, and the bare `typing.Union` only as the target described in the model table. Only the origins list, tuple, dict and Union are modelled for `typing` aliases.
- Floats are ideal reals: NaN, infinities and binary rounding are not modelled. The `timedelta` constructor is modelled as one rounding of the exact sum of its keyword arguments.
- `timedelta` bounds: the overflow that `timedelta` raises past its range is not modelled.
- Dict equality ignores order in Python. Here, results are stated as entry sequences in insertion order.
- The behaviour of `ast.literal_eval`, `json.loads`, `dateutil.parser.parse`, `datetime.strptime`, `str()`, user constructors, `from_string`, the CRS methods and the `04.3` seconds format are parameters. Every property holds for all such functions.
- A builtin name other than the eight that have a modelled target gives AttributeError, like a name that does not exist.
- Iterables that are not collections (generators, file objects) are not modelled.
- User classes are opaque and have no subclasses.
- Objects without `.date()`: `.date()` on a parsed value that is neither a date nor a datetime is an AttributeError here.
- Enum members with unhashable values are not modelled.
- `installed_packages` (`typepigeon/to_type.py:15-26`) probes the environment, so it is the parameter `Caps` rather than an operation.
- Legacy: the module imports pyproj, dateutil and shapely at load time, so it is modelled with pyproj and dateutil present.
- Legacy: its second bool branch (`typepigeon/convert.py:185-189`) cannot be reached after the first (`typepigeon/convert.py:145-146`), and is not modelled.
- LegacyLaws.ScalarResultIsInstance: states no instance property for `bool` and `datetime` targets, because there the result is whatever `literal_eval` or `dateutil` returns, and those are parameters.
- LegacyLaws.LeafIsJson: assumes that `literal_eval` never returns a CRS (`LiteralsPlain`). A CRS input is excluded, as `JsonKeepsCrs` shows.
- LegacyLaws.ConvertedLeaf: assumes the same, for the same reason.
- ToTypeLaws.DurationTextRoundTrip: holds only for non-negative durations whose formatted seconds are read back exactly. The `04.3` format keeps three significant digits, so longer fractions are lost.
- Durations.RenderRoundTrip: holds under the same assumptions.

## Findings

| source | as written | input that shows it | evidently intended | confidence | as-written member | corrected member |
|---|---|---|---|---|---|---|
| typepigeon/convert.py:86-87 | comma fields of non-literal text are not stripped | `convert_value('test 1, test 2, test 3', [str])` gives `['test 1', ' test 2', ' test 3']` | `['test 1', 'test 2', 'test 3']`, as `tests/test_convert.py:91,109` expects | high; not executed | LegacyLaws.CommaTextUnstripped | ToTypeLaws.CommaTextStripped |
| typepigeon/convert.py:152-168 | text with one colon that `strptime` rejects falls through to `float()` and raises ValueError | `convert_value('20:15', timedelta)` and `convert_value('00:00', timedelta)` | 20 minutes 15 seconds and zero, as `tests/test_convert.py:123-124,138-139` expects | high; not executed | LegacyLaws.TwoFieldsRejected | ToTypeLaws.MinutesAndSeconds |
| typepigeon/convert.py:159-166 | with five or more fields, everything after the fourth field is dropped | `convert_value('02:01:13:20:15', timedelta)` returns a duration | a ValueError, as `tests/test_convert.py:129-130` expects | high; not executed | LegacyLaws.ExtraFieldsAccepted | ToTypeLaws.FiveFieldsRejected |
| typepigeon/convert.py:145-146 | error of `literal_eval` propagates from the reachable bool branch | `convert_value('test', bool)` raises ValueError | True, as `tests/test_convert.py:147,151` expects and `typepigeon/convert.py:185-189` attempts | high; not executed | LegacyLaws.BoolFromText | ToTypeLaws.BoolFromText |
| typepigeon/convert.py:129 | `isinstance` lets a datetime through unchanged for a `date` target | `convert_value(datetime(2021, 3, 26), date)` gives a datetime, never equal to a date | `date(2021, 3, 26)`, as `tests/test_convert.py:119,134` expects | high; not executed | LegacyLaws.DateAndDateTime | ToTypeLaws.DateAndDateTime |
| typepigeon/convert.py:255-264 | the leaf chain returns a CRS unchanged: converting it to `float` keeps it, because neither stage has a float case for CRS | `convert_to_json(CRS.from_epsg(4326))` | a JSON value, as the return annotation at `typepigeon/convert.py:220` says | medium; not executed | LegacyLaws.JsonKeepsCrs | Json.ToJsonShape |
