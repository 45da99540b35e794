# loggingutil configuration and stdlib bridge, modelled in Dafny

This project models two pieces of the `loggingutil` Python package.

**`LogConfig`** (`loggingutil/config.py`) is a layered configuration. It
starts from a fixed table of fifteen defaults. Each `update` merges a
dictionary last-write-wins and then runs the environment pass. That pass
visits every key in insertion order. For each key it looks up the variable
`LOGGINGUTIL_<KEY>`. If the variable is set, its text is converted according
to the runtime type of the key's current value: bool first, then int, then
float, then list (parsed as JSON). Anything else takes the text verbatim.

**`LoggingUtilHandler.emit`** (`loggingutil/adapter.py`) bridges records of
Python's `logging` framework to the `Logfile` sink. It translates the
record's numeric level to a sink `LogLevel` and calls `logfile.log`. Any
failure is routed to the framework's `handleError` hook.

Files and modules:

| file | module | contents |
|---|---|---|
| wrappers.dfy | `Wrappers` | `Option`, `Result` |
| ascii.dfy | `Ascii` | ASCII `upper()` / `lower()` |
| int_literal.dfy | `IntLiteral` | `int(s)` on base-10 literals, and its inverse `Show` |
| values.dfy | `Values` | the dynamically typed `Value`, the coercion kinds, the errors |
| entries.dfy | `Entries` | insertion-ordered dictionaries: lookup, store, `dict.update` |
| env_override.dfy | `EnvOverride` | `_load_env_vars` and its coercions |
| log_config.dfy | `LogConfig` | defaults, `update`, `from_dict`, `get`, `__getitem__` |
| adapter.dfy | `Adapter` | `LoggingUtilHandler.emit` |

Modelling choices:

- A configuration is a sequence of `Entry(key, value)` in insertion order, with no repeated key. The order matters: a conversion that raises stops the pass part-way, and which keys were already converted depends on it.
- The process environment is an explicit `map<string, string>` argument.
- `float(s)` and `json.loads(s)` are the fields of a `Decoders` argument. They are left uninterpreted, and return `None` where Python raises.
- A float value is the bit pattern of its IEEE-754 double, and it is never interpreted.
- An exception raised during the pass is `Outcome.Raised(error, config)`. Here `config` is the state the object is left in.
- `emit` is a pure function. It returns the list of calls it makes on its collaborators (`SinkLog`, `HandleError`) and takes `format` and the sink's success as function arguments.

How far the code's own promises reach (the model follows the code):

- The class docstring (loggingutil/config.py:17) says that environment variables override file settings. The comment at loggingutil/config.py:69 says they take precedence. An override is converted by the runtime type of the value the key holds at that moment, and a raw merge may store a value of any type there. So the same variable text can raise on one `update` and be stored verbatim after another (`LogConfig.RetypedKeyReadsVerbatim`). A list key takes whatever JSON value its text decodes to, which may be a number, a string or `None` (`EnvOverride.JsonCoercion`).
- Every `update` re-runs the pass over the values the previous pass stored. A second pass changes nothing when every override kept the runtime type it replaced (`EnvOverride.EnvPassIdempotent`). It can change a value otherwise: a list key whose variable holds the JSON text `null` becomes `None` on the first pass and the string `"null"` on the second (`EnvOverride.EnvPassNotIdempotentForJsonScalars`).
- The level fallback of loggingutil/adapter.py:19 is under Findings.

## Model

| member | source | states |
|---|---|---|
| IntLiteral.Parse | loggingutil/config.py:80-81 | `int(text)` succeeds exactly on an optional sign followed by digits; a leading minus gives a non-positive value, otherwise non-negative |
| IntLiteral.ParseShow | loggingutil/config.py:81 | every integer written in decimal parses back to itself |
| IntLiteral.ParseNonCanonical | loggingutil/config.py:81 | a leading `+` or a leading zero does not change the parsed value and a leading `-` negates it, so `"+5"` and `"05"` read as 5; with `ParseShow` this fixes the value of every literal |
| IntLiteral.ParseExamples | loggingutil/config.py:81 | "42", "-7", "+007" parse; "", "-", "4.5", "abc" raise |
| Ascii.LowerOfUpper | loggingutil/config.py:79 | lower-casing after upper-casing equals lower-casing alone, so the truthy test ignores case |
| Entries.Lookup | loggingutil/config.py:89-94 | a key reads back None iff it is absent, and otherwise reads back the value stored at its position |
| Entries.Store | loggingutil/config.py:68 | storing under a present key replaces its value in place; a new key is appended; keys stay unique |
| Entries.StoreLookup | loggingutil/config.py:68 | after a store only the stored key reads differently |
| Entries.Merge | loggingutil/config.py:68 | `dict.update` never repeats a key, keeps every existing key (the key set only grows) and adds at most one key per incoming entry |
| Entries.MergeKeys | loggingutil/config.py:68 | `dict.update` keeps keys unique, and the key set becomes old keys ∪ incoming keys |
| Entries.MergeAsMap | loggingutil/config.py:68 | `dict.update` is last-write-wins: incoming keys take the incoming value, other keys keep theirs |
| Entries.MergeKeepsOrder | loggingutil/config.py:68 | existing keys keep their iteration positions; new keys come after them |
| Entries.MergeAppendsInOrder | loggingutil/config.py:68 | the keys `dict.update` appends are the incoming keys not already present, each once, in the order the incoming mapping first yields them |
| EnvOverride.CoerceEntry | loggingutil/config.py:74-87 | one step of the pass keeps the key, and leaves the entry unchanged when its variable is unset |
| EnvOverride.EnvName | loggingutil/config.py:74 | the variable is `ENV_PREFIX` (`LOGGINGUTIL_`) followed by the key, one character per key character, with no lower-case ASCII letter after the prefix; every key character that is not a lower-case letter is kept as it is, and every lower-case letter becomes its own upper case (the two agree after lower-casing) |
| EnvOverride.Dispatch | loggingutil/config.py:78-86 | the conversion follows the runtime type: bool values take the truthy test and never the int parse, ints the int parse, floats the float parse, lists the JSON decoder, and nothing else any of these |
| EnvOverride.CoerceText | loggingutil/config.py:78-87 | the bool and verbatim conversions never raise; the int conversion raises exactly on text that is no integer literal; every conversion except JSON yields a value of the type it was chosen by |
| EnvOverride.EnvPass | loggingutil/config.py:71-87 | the pass keeps every key at its position, whether it finishes or raises |
| EnvOverride.EnvPassSpec | loggingutil/config.py:71-87 | the pass finishes iff every entry converts, and then every position holds its converted entry; otherwise it stopped at a first failing position, with earlier entries converted and later ones untouched |
| EnvOverride.EnvPassFrame | loggingutil/config.py:73-75 | the pass never adds, drops or reorders keys, and never changes a key whose variable is unset |
| EnvOverride.EnvNameExamples | loggingutil/config.py:20 | `max_size_mb` is overridden by `LOGGINGUTIL_MAX_SIZE_MB` and `use_utc` by `LOGGINGUTIL_USE_UTC` |
| EnvOverride.EnvNameCaseBlind | loggingutil/config.py:74 | two keys share a variable exactly when they agree up to case |
| EnvOverride.BoolCoercion | loggingutil/config.py:78-79 | a bool key never raises and becomes true iff the lower-cased text is "true", "1" or "yes" |
| EnvOverride.TruthyCaseBlind | loggingutil/config.py:79 | the truthy test gives the same answer for spellings that differ only in case |
| EnvOverride.TruthyExamples | loggingutil/config.py:79 | "YES", "True", "1" are true; "0", "maybe", "", "false", "on" are false |
| EnvOverride.IntCoercion | loggingutil/config.py:80-81 | an int key takes the parsed integer, and the pass raises exactly when the text is no integer literal |
| EnvOverride.IntCoercionRoundTrip | loggingutil/config.py:80-81 | an int key whose variable holds the decimal form of n ends up holding n |
| EnvOverride.FloatCoercion | loggingutil/config.py:82-83 | a float key takes the float parse of the text and raises where that parse fails |
| EnvOverride.JsonCoercion | loggingutil/config.py:84-85 | a list key takes whatever the JSON decoder returns, list or not, and raises where it fails |
| EnvOverride.VerbatimCoercion | loggingutil/config.py:86-87 | None, string and other values take the text as a string |
| EnvOverride.CoercionIgnoresOldValue | loggingutil/config.py:76-87 | with the variable set, the result depends only on the text and the runtime type of the current value |
| EnvOverride.IntFailureStopsPass | loggingutil/config.py:73-81 | an unparseable int override raises at that key; earlier keys keep their converted values, and it and later keys are untouched |
| EnvOverride.EnvPassIdempotent | loggingutil/config.py:71-87 | a second pass changes nothing when every override kept the runtime type it replaced |
| EnvOverride.EnvPassNotIdempotentForJsonScalars | loggingutil/config.py:84-87 | a list key overridden with JSON `null` becomes None, then the string "null" on a second pass |
| LogConfig.Defaults | loggingutil/config.py:22-39 | the constructor's table; `DefaultKeys` states its keys, their order and uniqueness, and the `Default…` lemmas below state its values by type |
| LogConfig.DefaultKeys | loggingutil/config.py:22-39 | a fresh configuration holds exactly the fifteen default keys, once each, in order |
| LogConfig.DefaultStrings | loggingutil/config.py:24-27 | the defaults of filename, mode, level and rotate_time |
| LogConfig.DefaultIntegers | loggingutil/config.py:28-32 | the defaults of max_size_mb (5), keep_days (7) and batch_size (100) |
| LogConfig.DefaultSamplingRate | loggingutil/config.py:31 | the default sampling rate is the double 1.0 |
| LogConfig.DefaultFlags | loggingutil/config.py:30-36 | the defaults of compress, schema_validation, use_utc and verbose |
| LogConfig.DefaultLists | loggingutil/config.py:33-38 | the defaults of sanitize_keys, handlers and filters |
| LogConfig.Update | loggingutil/config.py:66-69 | after `update` keys are unique and the key set is old keys ∪ incoming keys, whether the pass finishes or raises |
| LogConfig.FromDict | loggingutil/config.py:59-64 | `from_dict(d)` holds the default keys ∪ the keys of d |
| LogConfig.Get | loggingutil/config.py:89-91 | `get` returns the stored value of a present key and the default for an absent one, never failing |
| LogConfig.Index | loggingutil/config.py:93-94 | `config[key]` fails with KeyNotFound exactly when the key is absent, and otherwise returns its value |
| LogConfig.GetAgreesWithIndex | loggingutil/config.py:89-94 | `get` and `config[key]` agree on present keys; `get` returns the default where indexing fails |
| LogConfig.UpdateSpec | loggingutil/config.py:66-87 | `update` against the map-level merge: it finishes iff every overridden key converts; unset keys hold the merged value; set keys hold the text converted by the merged value's type |
| LogConfig.UpdateRaisesPartWay | loggingutil/config.py:69-87 | a raising `update` leaves the merge complete and the pass stopped at a first failing key, in iteration order |
| LogConfig.EnvPrecedence | loggingutil/config.py:66-87 | for a key whose variable is set, the value after `update` is the same for any merged values of the same runtime type |
| LogConfig.EmptyUpdate | loggingutil/config.py:66-69 | `update({})` keeps the keys, leaves keys without a variable alone, and reapplies every set override |
| LogConfig.UpdateWithoutOverrides | loggingutil/config.py:66-69 | with no variable set, `update` finishes and is exactly the dictionary merge |
| LogConfig.UpdateAddsKey | loggingutil/config.py:66-68 | an unknown key is added and, while its variable is unset, reads back its value; a boolean added this way stays boolean under any override |
| LogConfig.RetypedKeyReadsVerbatim | loggingutil/config.py:78-87 | the same override text raises on an int value but is taken verbatim once a merge stored a string there |
| Adapter.Translate | loggingutil/adapter.py:12-19 | a sink level is chosen exactly for the five standard numbers, and it is the sink level whose standard number the record carries |
| Adapter.TranslateSpec | loggingutil/adapter.py:12-19 | the level table is a bijection between the five standard levels and the sink levels; every other number gives the method fallback |
| Adapter.TranslateTable | loggingutil/adapter.py:12-18 | DEBUG→DEBUG, INFO→INFO, WARNING→WARN, ERROR→ERROR, CRITICAL→FATAL |
| Adapter.Emit | loggingutil/adapter.py:9-22 | if formatting fails only the error hook is called; otherwise the sink is called exactly once with the message, the translated level and the record's name, and the hook is called once after it iff the sink raises an `Exception` |
| Adapter.LevelDependsOnlyOnLevelno | loggingutil/adapter.py:12-19 | the level the sink receives depends on the record's number alone |
| Adapter.CriticalExample | loggingutil/adapter.py:11-20 | a critical record tagged "db" reaches the sink as ("conn lost", FATAL, "db") |
| Adapter.UnknownLevelPassesMethod | loggingutil/adapter.py:19 | as written, a record at level 25 reaches the sink with the method fallback as its level |
| Adapter.TranslateIntended | loggingutil/adapter.py:19 | the corrected table agrees on standard levels and maps every other number to INFO |
| Adapter.EmitIntended | loggingutil/adapter.py:9-22 | the corrected `emit` agrees with `Emit` on standard levels; on any level, a formatting failure calls only the hook, and otherwise the sink is called once with a sink level (INFO off the table) and the hook follows iff the sink raises |

## Left out

- `from_yaml` and `from_json` (loggingutil/config.py:41-57) open and decode a file. This is I/O. The decoded mapping is what `LogConfig.Update` receives, so both reach `LogConfig.FromDict`'s behaviour.
- `__str__` (loggingutil/config.py:96-97): string formatting only.
- Live `os.environ`: replaced by an explicit environment snapshot.
- `float()` and `json.loads()`: uninterpreted `Decoders` fields. Float values are opaque bit patterns.
- IntLiteral.Parse: does not model the whitespace, underscores and non-ASCII digits that Python's `int()` also accepts, because it models only the plain `[+-]?digits` literal. It also has no digit limit: CPython 3.11 and later (and its security backports) raise ValueError on more than 4300 digits by default (`sys.get_int_max_str_digits()`), and the limit is configurable. `IntLiteral.ParseShow`, `EnvOverride.IntCoercion` and `EnvOverride.IntCoercionRoundTrip` inherit this: they claim success for longer literals, where such interpreters raise.
- Ascii.Upper and Ascii.Lower: change only ASCII letters, because full Unicode case mapping (which can change a string's length) is out of scope.
- Shared values: loggingutil/config.py:68 stores the caller's objects by reference, and `get` and `__getitem__` (loggingutil/config.py:91, 94) return the stored object itself. A list changed in place through either accessor, or through the mapping passed to `update`, changes the configuration without an `update` or an environment pass. Values here are immutable, so this aliasing is not modelled.
- Keys that are not strings, and `update(None)`: these can come from a YAML decoder and make the source raise. The model's mappings have string keys only.
- LogConfig.UpdateAddsKey: states the `custom_flag` scenario for any configuration and key rather than for the concrete defaults.
- `logging.Handler.format`, `handleError` and `Logfile.log` are external collaborators and stay abstract. `emit` evaluates `self.logfile.info` on every call; a sink without that attribute would fail every record, and that is not modelled.
- Adapter.Emit: models only exceptions derived from `Exception`, which the `except Exception` of loggingutil/adapter.py:21 catches. A `KeyboardInterrupt`, `SystemExit` or `GeneratorExit` from `format` or `logfile.log` leaves `emit` without calling `handleError`; the boolean sink outcome cannot express that. The same holds for Adapter.EmitIntended.
- `LoggingUtilHandler.__init__` and thread-safety of handlers.

## Findings

| source | as written | input that shows it | evidently intended | confidence | as-written member | corrected member |
|---|---|---|---|---|---|---|
| loggingutil/adapter.py:19 | a level outside the table falls back to the bound method `logfile.info`, which is passed to the sink as `level` | a record with `levelno` 25 (any custom level, or NOTSET 0) | the sink's `LogLevel.INFO` | not executed; medium (what `Logfile.log` does with a method as its level is not part of this model) | Adapter.UnknownLevelPassesMethod | Adapter.EmitIntended |
