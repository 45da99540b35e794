/** `LogConfig`: a table of defaults, merged with decoded mappings and then
    overridden from the environment after every merge. */
module LogConfig {
  import opened Wrappers
  import opened Values
  import opened Entries
  import opened EnvOverride
  import IntLiteral

  /** The default table installed by the constructor, in its insertion order.
      `sampling_rate` is 1.0, whose IEEE-754 double bit pattern is
      0x3FF0000000000000. */
  function Defaults(): Dict {
    [
      Entry("filename", VStr("logs.log")),
      Entry("mode", VStr("json")),
      Entry("level", VStr("INFO")),
      Entry("rotate_time", VNone),
      Entry("max_size_mb", VInt(5)),
      Entry("keep_days", VInt(7)),
      Entry("compress", VBool(false)),
      Entry("sampling_rate", VFloat(0x3FF0_0000_0000_0000)),
      Entry("batch_size", VInt(100)),
      Entry("sanitize_keys", VList([VStr("password"), VStr("token"), VStr("secret"), VStr("key")])),
      Entry("schema_validation", VBool(false)),
      Entry("use_utc", VBool(false)),
      Entry("verbose", VBool(true)),
      Entry("handlers", VList([])),
      Entry("filters", VList([]))
    ]
  }

  /** A list of keys without repeats, the key order of a dictionary that
      satisfies `UniqueKeys`. */
  predicate Distinct(ks: seq<string>) {
    forall i, j :: 0 <= i < j < |ks| ==> ks[i] != ks[j]
  }

  lemma {:induction false} DistinctCons(k: string, ks: seq<string>)
    requires Distinct(ks) && k !in ks
    ensures Distinct([k] + ks)
  {
    var s := [k] + ks;
    forall i, j | 0 <= i < j < |s| ensures s[i] != s[j] {
      if i == 0 {
        assert s[j] == ks[j - 1];
      } else {
        assert s[i] == ks[i - 1] && s[j] == ks[j - 1];
      }
    }
  }

  lemma DistinctLastKeys()
    ensures Distinct(["schema_validation", "use_utc", "verbose", "handlers", "filters"])
  {
    var t: seq<string> := ["filters"];
    DistinctCons("handlers", t); t := ["handlers"] + t;
    DistinctCons("verbose", t); t := ["verbose"] + t;
    DistinctCons("use_utc", t); t := ["use_utc"] + t;
    DistinctCons("schema_validation", t); t := ["schema_validation"] + t;
  }

  lemma DistinctMiddleKeys()
    ensures Distinct(["keep_days", "compress", "sampling_rate", "batch_size", "sanitize_keys",
                      "schema_validation", "use_utc", "verbose", "handlers", "filters"])
  {
    var t: seq<string> := ["schema_validation", "use_utc", "verbose", "handlers", "filters"];
    DistinctLastKeys();
    DistinctCons("sanitize_keys", t); t := ["sanitize_keys"] + t;
    DistinctCons("batch_size", t); t := ["batch_size"] + t;
    DistinctCons("sampling_rate", t); t := ["sampling_rate"] + t;
    DistinctCons("compress", t); t := ["compress"] + t;
    DistinctCons("keep_days", t); t := ["keep_days"] + t;
  }

  const DEFAULT_KEYS: seq<string> :=
    ["filename", "mode", "level", "rotate_time", "max_size_mb",
     "keep_days", "compress", "sampling_rate", "batch_size",
     "sanitize_keys", "schema_validation", "use_utc", "verbose",
     "handlers", "filters"]

  lemma DistinctDefaultKeys()
    ensures Distinct(DEFAULT_KEYS)
  {
    var t: seq<string> := ["keep_days", "compress", "sampling_rate", "batch_size", "sanitize_keys",
                           "schema_validation", "use_utc", "verbose", "handlers", "filters"];
    DistinctMiddleKeys();
    DistinctCons("max_size_mb", t); t := ["max_size_mb"] + t;
    DistinctCons("rotate_time", t); t := ["rotate_time"] + t;
    DistinctCons("level", t); t := ["level"] + t;
    DistinctCons("mode", t); t := ["mode"] + t;
    DistinctCons("filename", t); t := ["filename"] + t;
  }

  /** A fresh configuration holds fifteen keys, each once, in the
      documented order. */
  lemma DefaultKeys()
    ensures KeysOf(Defaults()) == DEFAULT_KEYS
    ensures UniqueKeys(Defaults())
    ensures |KeySet(Defaults())| == 15
  {
    var d := Defaults();
    assert KeysOf(d) == DEFAULT_KEYS;
    DistinctDefaultKeys();
    assert UniqueKeys(d) by {
      forall i, j | 0 <= i < j < |d| ensures d[i].key != d[j].key {
        assert d[i].key == DEFAULT_KEYS[i] && d[j].key == DEFAULT_KEYS[j];
      }
    }
    KeySetSize(d);
  }

  /** Entry `i` of the table is what `get` reads under its key. */
  lemma DefaultAt(i: nat, k: string, v: Value)
    requires i < |Defaults()| && Defaults()[i] == Entry(k, v)
    ensures Get(Defaults(), k, VNone) == v
  {
    DefaultKeys();
    AsMapAt(Defaults(), i);
  }

  // One lemma per key: each reads one position of the table back through
  // `get`. The lemmas grouping them below state the table by value type.

  lemma DefaultFilename()
    ensures Get(Defaults(), "filename", VNone) == VStr("logs.log")
  {
    DefaultAt(0, "filename", VStr("logs.log"));
  }

  lemma DefaultMode()
    ensures Get(Defaults(), "mode", VNone) == VStr("json")
  {
    DefaultAt(1, "mode", VStr("json"));
  }

  lemma DefaultLevel()
    ensures Get(Defaults(), "level", VNone) == VStr("INFO")
  {
    DefaultAt(2, "level", VStr("INFO"));
  }

  lemma DefaultRotateTime()
    ensures Get(Defaults(), "rotate_time", VNone) == VNone
  {
    DefaultAt(3, "rotate_time", VNone);
  }

  lemma DefaultMaxSizeMb()
    ensures Get(Defaults(), "max_size_mb", VNone) == VInt(5)
  {
    DefaultAt(4, "max_size_mb", VInt(5));
  }

  lemma DefaultKeepDays()
    ensures Get(Defaults(), "keep_days", VNone) == VInt(7)
  {
    DefaultAt(5, "keep_days", VInt(7));
  }

  lemma DefaultCompress()
    ensures Get(Defaults(), "compress", VNone) == VBool(false)
  {
    DefaultAt(6, "compress", VBool(false));
  }

  lemma DefaultBatchSize()
    ensures Get(Defaults(), "batch_size", VNone) == VInt(100)
  {
    DefaultAt(8, "batch_size", VInt(100));
  }

  lemma DefaultSanitizeKeys()
    ensures Get(Defaults(), "sanitize_keys", VNone) == VList([VStr("password"), VStr("token"), VStr("secret"), VStr("key")])
  {
    DefaultAt(9, "sanitize_keys", VList([VStr("password"), VStr("token"), VStr("secret"), VStr("key")]));
  }

  lemma DefaultSchemaValidation()
    ensures Get(Defaults(), "schema_validation", VNone) == VBool(false)
  {
    DefaultAt(10, "schema_validation", VBool(false));
  }

  lemma DefaultUseUtc()
    ensures Get(Defaults(), "use_utc", VNone) == VBool(false)
  {
    DefaultAt(11, "use_utc", VBool(false));
  }

  lemma DefaultVerbose()
    ensures Get(Defaults(), "verbose", VNone) == VBool(true)
  {
    DefaultAt(12, "verbose", VBool(true));
  }

  lemma DefaultHandlers()
    ensures Get(Defaults(), "handlers", VNone) == VList([])
  {
    DefaultAt(13, "handlers", VList([]));
  }

  lemma DefaultFilters()
    ensures Get(Defaults(), "filters", VNone) == VList([])
  {
    DefaultAt(14, "filters", VList([]));
  }

  /** The default values of the string and nullable keys. */
  lemma DefaultStrings()
    ensures Get(Defaults(), "filename", VNone) == VStr("logs.log")
    ensures Get(Defaults(), "mode", VNone) == VStr("json")
    ensures Get(Defaults(), "level", VNone) == VStr("INFO")
    ensures Get(Defaults(), "rotate_time", VNone) == VNone
  {
    DefaultFilename();
    DefaultMode();
    DefaultLevel();
    DefaultRotateTime();
  }

  /** The default values of the integer keys. */
  lemma DefaultIntegers()
    ensures Get(Defaults(), "max_size_mb", VNone) == VInt(5)
    ensures Get(Defaults(), "keep_days", VNone) == VInt(7)
    ensures Get(Defaults(), "batch_size", VNone) == VInt(100)
  {
    DefaultMaxSizeMb();
    DefaultKeepDays();
    DefaultBatchSize();
  }

  /** The default sampling rate, the float 1.0. */
  lemma DefaultSamplingRate()
    ensures Get(Defaults(), "sampling_rate", VNone) == VFloat(0x3FF0_0000_0000_0000)
  {
    DefaultAt(7, "sampling_rate", VFloat(0x3FF0_0000_0000_0000));
  }

  /** The default values of the boolean keys. */
  lemma DefaultFlags()
    ensures Get(Defaults(), "compress", VNone) == VBool(false)
    ensures Get(Defaults(), "schema_validation", VNone) == VBool(false)
    ensures Get(Defaults(), "use_utc", VNone) == VBool(false)
    ensures Get(Defaults(), "verbose", VNone) == VBool(true)
  {
    DefaultCompress();
    DefaultSchemaValidation();
    DefaultUseUtc();
    DefaultVerbose();
  }

  /** The default values of the list keys. */
  lemma DefaultLists()
    ensures Get(Defaults(), "sanitize_keys", VNone) == VList([VStr("password"), VStr("token"), VStr("secret"), VStr("key")])
    ensures Get(Defaults(), "handlers", VNone) == VList([])
    ensures Get(Defaults(), "filters", VNone) == VList([])
  {
    DefaultSanitizeKeys();
    DefaultHandlers();
    DefaultFilters();
  }

  /** `update(config_dict)`: the raw merge followed by the environment pass.
      If the pass raises, the configuration is left as the pass left it. */
  function Update(c: Dict, src: Dict, env: Environment, dec: Decoders): (r: Outcome)
    requires UniqueKeys(c)
    requires UniqueKeys(src)
    ensures UniqueKeys(r.config)
    ensures KeySet(r.config) == KeySet(c) + KeySet(src)
  {
    var merged := Merge(c, src);
    MergeKeys(c, src);
    EnvPassFrame(merged, env, dec);
    SameKeysUnique(merged, EnvPass(merged, env, dec).config);
    EnvPass(merged, env, dec)
  }

  /** `LogConfig.from_dict(d)`: the defaults updated with `d`. The file
      loaders `from_yaml` and `from_json` reach the same function once
      their decoders have produced the mapping. */
  function FromDict(src: Dict, env: Environment, dec: Decoders): (r: Outcome)
    requires UniqueKeys(src)
    ensures UniqueKeys(r.config)
    ensures KeySet(r.config) == KeySet(Defaults()) + KeySet(src)
  {
    DefaultKeys();
    Update(Defaults(), src, env, dec)
  }

  /** `get(key, default)`: never fails. */
  function Get(c: Dict, k: string, dflt: Value): (r: Value)
    ensures k in AsMap(c) ==> r == AsMap(c)[k]
    ensures k !in AsMap(c) ==> r == dflt
  {
    match Lookup(c, k)
    case Some(v) => v
    case None => dflt
  }

  /** `config[key]`: fails with KeyNotFound exactly for an absent key. */
  function Index(c: Dict, k: string): (r: Result<Value, ConfigError>)
    ensures r.Failure? <==> k !in KeySet(c)
    ensures r.Failure? ==> r.error == KeyNotFound(k)
    ensures r.Success? ==> r.value == AsMap(c)[k]
  {
    match Lookup(c, k)
    case Some(v) => Success(v)
    case None => Failure(KeyNotFound(k))
  }

  /** The two lookups agree: `config[key]` succeeds with `v` exactly when
      `get` returns `v` whatever default is passed. */
  lemma GetAgreesWithIndex(c: Dict, k: string, dflt: Value)
    ensures Index(c, k).Success? ==> Get(c, k, dflt) == Index(c, k).value
    ensures Index(c, k).Failure? ==> Get(c, k, dflt) == dflt
  {
  }

  /** The value a key holds after the raw merge, before the environment. */
  function Merged(c: Dict, src: Dict): map<string, Value> {
    AsMap(c) + AsMap(src)
  }

  /** What `update` does, key by key, against the map-level merge: it
      finishes iff every key whose variable is set converts; then every key
      of either side is present, a key whose variable is unset holds the
      merged value (the incoming one if `src` has it, else the old one), and
      a key whose variable is set holds the text converted according to the
      merged value's type. */
  lemma UpdateSpec(c: Dict, src: Dict, env: Environment, dec: Decoders)
    requires UniqueKeys(c)
    requires UniqueKeys(src)
    ensures AsMap(Update(c, src, env, dec).config).Keys == Merged(c, src).Keys
    ensures Update(c, src, env, dec).Done? <==> AllConvert(Merged(c, src), env, dec)
    ensures Update(c, src, env, dec).Done? ==>
      OverridesApplied(Merged(c, src), AsMap(Update(c, src, env, dec).config), env, dec)
  {
    MergeKeys(c, src);
    MergeAsMap(c, src);
    EnvPassAsMap(Merge(c, src), env, dec);
  }

  /** A conversion that raises leaves the configuration part-way through
      the pass: the merge is complete, keys visited before the failing one
      hold their converted values, and the failing key and every later one
      hold their merged values. */
  lemma UpdateRaisesPartWay(c: Dict, src: Dict, env: Environment, dec: Decoders)
    requires UniqueKeys(c)
    requires UniqueKeys(src)
    requires Update(c, src, env, dec).Raised?
    ensures exists j: nat :: AbortedAt(Merge(c, src), env, dec, j, Update(c, src, env, dec))
  {
    EnvPassSpec(Merge(c, src), env, dec);
  }

  /** Environment variables win over every merged layer: for a key whose
      variable is set, two updates that merge values of the same runtime
      type under that key leave the same value there, whatever the values
      were. */
  lemma EnvPrecedence(c: Dict, src1: Dict, src2: Dict, env: Environment, dec: Decoders, k: string)
    requires UniqueKeys(c) && UniqueKeys(src1) && UniqueKeys(src2)
    requires Update(c, src1, env, dec).Done? && Update(c, src2, env, dec).Done?
    requires k in Merged(c, src1) && k in Merged(c, src2)
    requires EnvName(k) in env
    requires Dispatch(Merged(c, src1)[k]) == Dispatch(Merged(c, src2)[k])
    ensures k in AsMap(Update(c, src1, env, dec).config) && k in AsMap(Update(c, src2, env, dec).config)
    ensures AsMap(Update(c, src1, env, dec).config)[k] == AsMap(Update(c, src2, env, dec).config)[k]
  {
    UpdateSpec(c, src1, env, dec);
    UpdateSpec(c, src2, env, dec);
  }

  /** Updating with an empty mapping changes no key whose variable is
      unset, and re-applies the override of every key whose variable is
      set. */
  lemma EmptyUpdate(c: Dict, env: Environment, dec: Decoders)
    requires UniqueKeys(c)
    requires Update(c, [], env, dec).Done?
    ensures OverridesApplied(AsMap(c), AsMap(Update(c, [], env, dec).config), env, dec)
  {
    assert Update(c, [], env, dec) == EnvPass(c, env, dec);
    EnvPassAsMap(c, env, dec);
  }

  /** With no variable set for any key, `update` is the plain dictionary
      merge. */
  lemma UpdateWithoutOverrides(c: Dict, src: Dict, env: Environment, dec: Decoders)
    requires UniqueKeys(c)
    requires UniqueKeys(src)
    requires forall k :: k in Merged(c, src) ==> EnvName(k) !in env
    ensures Update(c, src, env, dec).Done?
    ensures AsMap(Update(c, src, env, dec).config) == AsMap(c) + AsMap(src)
  {
    var before := Merged(c, src);
    var after := AsMap(Update(c, src, env, dec).config);
    UpdateSpec(c, src, env, dec);
    forall k | k in after ensures after[k] == before[k] {
      assert EnvName(k) !in env;
    }
  }

  /** The schema is open: `update({k: v})` adds a key the configuration
      did not have (such as `custom_flag`), it reads back `v` while its
      variable is unset, and a boolean added this way stays boolean under
      any override. */
  lemma UpdateAddsKey(c: Dict, k: string, v: Value, env: Environment, dec: Decoders)
    requires UniqueKeys(c)
    requires Update(c, [Entry(k, v)], env, dec).Done?
    ensures k in KeySet(Update(c, [Entry(k, v)], env, dec).config)
    ensures EnvName(k) !in env ==> Get(Update(c, [Entry(k, v)], env, dec).config, k, VNone) == v
    ensures v.VBool? ==> Get(Update(c, [Entry(k, v)], env, dec).config, k, VNone).VBool?
  {
    var src := [Entry(k, v)];
    UpdateSpec(c, src, env, dec);
    assert src[0] in src;
    AsMapAt(src, 0);
    assert Merged(c, src)[k] == v;
  }

  /** Because the coercion follows the current value rather than a fixed
      schema, a merge that stores a string under an integer key changes how
      that key's variable is read: the integer raises on a non-numeric text,
      the string takes it as is. */
  lemma RetypedKeyReadsVerbatim(env: Environment, dec: Decoders)
    requires EnvName("max_size_mb") in env && env[EnvName("max_size_mb")] == "abc"
    ensures CoerceEntry(Entry("max_size_mb", VInt(5)), env, dec).Failure?
    ensures CoerceEntry(Entry("max_size_mb", VStr("5")), env, dec) == Success(Entry("max_size_mb", VStr("abc")))
  {
    assert !IntLiteral.IsDigit("abc"[0]);
  }
}
