/** The environment pass `LogConfig._load_env_vars`: every key of the
    configuration may be overridden by the variable `LOGGINGUTIL_<KEY>`,
    whose text is coerced according to the key's current value. */
module EnvOverride {
  import opened Wrappers
  import opened Ascii
  import opened Values
  import opened Entries
  import IntLiteral

  /** A snapshot of the process environment. */
  type Environment = map<string, string>

  /** The decoders the pass borrows from Python and does not define itself:
      `float(s)` and `json.loads(s)`, each None where it raises. */
  datatype Decoders = Decoders(parseFloat: string -> Option<bv64>, parseJson: string -> Option<Value>)

  /** The outcome of a pass: either it finished, or it raised part-way and
      left behind the configuration as it stood at that moment. */
  datatype Outcome =
    | Done(config: Dict)
    | Raised(error: ConfigError, config: Dict)

  const ENV_PREFIX: string := "LOGGINGUTIL_"

  /** The spellings (after lower-casing) that a boolean key reads as true. */
  const TRUTHY: seq<string> := ["true", "1", "yes"]

  /** The variable that overrides `key`: the prefix, then the key with
      every lower-case ASCII letter raised. */
  function EnvName(key: string): (name: string)
    ensures |name| == |ENV_PREFIX| + |key|
    ensures name[..|ENV_PREFIX|] == ENV_PREFIX
    ensures forall i :: |ENV_PREFIX| <= i < |name| ==> !IsLowerLetter(name[i])
    ensures forall i :: 0 <= i < |key| && !IsLowerLetter(key[i]) ==> name[|ENV_PREFIX| + i] == key[i]
    ensures forall i :: 0 <= i < |key| ==> LowerChar(name[|ENV_PREFIX| + i]) == LowerChar(key[i])
  {
    ENV_PREFIX + Upper(key)
  }

  /** The coercion is picked from the runtime type of the current value,
      testing bool before int, then float, then list; anything else (None,
      a string, a dictionary) takes the text verbatim. */
  function Dispatch(v: Value): (how: Coercion)
    ensures how == AsBool <==> v.VBool?
    ensures how == AsInt <==> v.VInt?
    ensures how == AsFloat <==> v.VFloat?
    ensures how == AsJson <==> v.VList?
  {
    match v
    case VBool(_) => AsBool
    case VInt(_) => AsInt
    case VFloat(_) => AsFloat
    case VList(_) => AsJson
    case _ => Verbatim
  }

  predicate Truthy(text: string) {
    Lower(text) in TRUTHY
  }

  /** The value an environment text becomes under a coercion, or None where
      the conversion raises. */
  function CoerceText(how: Coercion, text: string, dec: Decoders): (r: Option<Value>)
    ensures how == AsBool || how == Verbatim ==> r.Some?
    ensures how == AsInt ==> (r.Some? <==> IntLiteral.IsLiteral(text))
    ensures r.Some? && how != AsJson ==> Dispatch(r.value) == how
  {
    match how
    case AsBool => Some(VBool(Truthy(text)))
    case AsInt =>
      (match IntLiteral.Parse(text)
       case Some(n) => Some(VInt(n))
       case None => None)
    case AsFloat =>
      (match dec.parseFloat(text)
       case Some(f) => Some(VFloat(f))
       case None => None)
    case AsJson => dec.parseJson(text)
    case Verbatim => Some(VStr(text))
  }

  /** One iteration of the pass: the entry as it stands after its variable
      has been consulted. */
  function CoerceEntry(e: Entry, env: Environment, dec: Decoders): (r: Result<Entry, ConfigError>)
    ensures r.Success? ==> r.value.key == e.key
    ensures EnvName(e.key) !in env ==> r == Success(e)
  {
    var name := EnvName(e.key);
    if name !in env then Success(e)
    else
      match CoerceText(Dispatch(e.value), env[name], dec)
      case Some(v) => Success(Entry(e.key, v))
      case None => Failure(InvalidEnvValue(e.key, Dispatch(e.value), env[name]))
  }

  /** The whole pass, visiting keys in iteration order and stopping at the
      first conversion that raises. */
  function EnvPass(d: Dict, env: Environment, dec: Decoders): (r: Outcome)
    ensures |r.config| == |d|
    ensures forall i :: 0 <= i < |d| ==> r.config[i].key == d[i].key
    decreases |d|
  {
    if |d| == 0 then Done(d)
    else
      match CoerceEntry(d[0], env, dec)
      case Failure(err) => Raised(err, d)
      case Success(e) =>
        match EnvPass(d[1..], env, dec)
        case Done(rest) => Done([e] + rest)
        case Raised(err, rest) => Raised(err, [e] + rest)
  }

  /** The pass stopped at index `j`: every earlier entry holds its coerced
      value, entry `j` raised `r.error`, and entries from `j` on are as
      they were. */
  ghost predicate AbortedAt(d: Dict, env: Environment, dec: Decoders, j: nat, r: Outcome)
    requires |r.config| == |d|
  {
    && j < |d|
    && r.Raised?
    && CoerceEntry(d[j], env, dec) == Failure(r.error)
    && (forall i :: 0 <= i < j ==> CoerceEntry(d[i], env, dec) == Success(r.config[i]))
    && r.config[j..] == d[j..]
  }

  /** A finished pass has converted every entry, position by position;
      the pass finishes whenever every entry converts. */
  lemma {:induction false} EnvPassDone(d: Dict, env: Environment, dec: Decoders)
    ensures EnvPass(d, env, dec).Done? <==> forall i :: 0 <= i < |d| ==> CoerceEntry(d[i], env, dec).Success?
    ensures EnvPass(d, env, dec).Done? ==>
      forall i :: 0 <= i < |d| ==> CoerceEntry(d[i], env, dec) == Success(EnvPass(d, env, dec).config[i])
    decreases |d|
  {
    if |d| > 0 {
      var tail := d[1..];
      EnvPassDone(tail, env, dec);
      assert forall i :: 1 <= i < |d| ==> d[i] == tail[i - 1];
      match CoerceEntry(d[0], env, dec)
      case Failure(_) =>
      case Success(e) =>
        assert EnvPass(d, env, dec).config == [e] + EnvPass(tail, env, dec).config;
    }
  }

  /** A pass that raised stopped at some position as `AbortedAt` says. */
  lemma {:induction false} EnvPassRaised(d: Dict, env: Environment, dec: Decoders)
    requires EnvPass(d, env, dec).Raised?
    ensures exists j: nat :: AbortedAt(d, env, dec, j, EnvPass(d, env, dec))
    decreases |d|
  {
    var r := EnvPass(d, env, dec);
    var tail := d[1..];
    match CoerceEntry(d[0], env, dec)
    case Failure(err) =>
      assert AbortedAt(d, env, dec, 0, r);
    case Success(e) =>
      var rt := EnvPass(tail, env, dec);
      EnvPassRaised(tail, env, dec);
      var j: nat :| AbortedAt(tail, env, dec, j, rt);
      assert r == Raised(rt.error, [e] + rt.config);
      AbortedCons(d, env, dec, e, j, rt);
  }

  /** Prepending an entry that converts moves the abort point one place on. */
  lemma AbortedCons(d: Dict, env: Environment, dec: Decoders, e: Entry, j: nat, rt: Outcome)
    requires |d| > 0 && |rt.config| == |d| - 1
    requires CoerceEntry(d[0], env, dec) == Success(e)
    requires AbortedAt(d[1..], env, dec, j, rt)
    ensures AbortedAt(d, env, dec, j + 1, Raised(rt.error, [e] + rt.config))
  {
    var r := Raised(rt.error, [e] + rt.config);
    var tail := d[1..];
    assert d[j + 1] == tail[j];
    forall i | 0 <= i < j + 1
      ensures CoerceEntry(d[i], env, dec) == Success(r.config[i])
    {
      if i > 0 {
        assert d[i] == tail[i - 1];
        assert r.config[i] == rt.config[i - 1];
      }
    }
    assert r.config[j + 1..] == rt.config[j..];
    assert d[j + 1..] == tail[j..];
  }

  /** What the pass computes, stated position by position: it finishes iff
      every entry coerces, in which case each position holds its coerced
      entry; otherwise it stopped at some position as `AbortedAt` says. */
  lemma EnvPassSpec(d: Dict, env: Environment, dec: Decoders)
    ensures |EnvPass(d, env, dec).config| == |d|
    ensures EnvPass(d, env, dec).Done? <==> forall i :: 0 <= i < |d| ==> CoerceEntry(d[i], env, dec).Success?
    ensures EnvPass(d, env, dec).Done? ==>
      forall i :: 0 <= i < |d| ==> CoerceEntry(d[i], env, dec) == Success(EnvPass(d, env, dec).config[i])
    ensures EnvPass(d, env, dec).Raised? ==> exists j: nat :: AbortedAt(d, env, dec, j, EnvPass(d, env, dec))
  {
    EnvPassDone(d, env, dec);
    if EnvPass(d, env, dec).Raised? {
      EnvPassRaised(d, env, dec);
    }
  }

  /** The pass never adds, drops or reorders a key, and leaves alone every
      entry whose variable is unset, whether it finishes or raises. */
  lemma EnvPassFrame(d: Dict, env: Environment, dec: Decoders)
    ensures KeysOf(EnvPass(d, env, dec).config) == KeysOf(d)
    ensures KeySet(EnvPass(d, env, dec).config) == KeySet(d)
    ensures forall i :: 0 <= i < |d| && EnvName(d[i].key) !in env ==> EnvPass(d, env, dec).config[i] == d[i]
  {
    var r := EnvPass(d, env, dec);
    EnvPassSpec(d, env, dec);
    assert KeysOf(r.config) == KeysOf(d);
    forall i | 0 <= i < |d| && EnvName(d[i].key) !in env
      ensures r.config[i] == d[i]
    {
      if r.Raised? {
        var j: nat :| AbortedAt(d, env, dec, j, r);
        if i >= j {
          assert r.config[j..][i - j] == d[j..][i - j];
        }
      }
    }
    forall k | k in KeySet(r.config) ensures k in KeySet(d) {
      KeySetIndex(r.config, k);
      var i :| 0 <= i < |r.config| && r.config[i].key == k;
      assert KeysOf(r.config)[i] == KeysOf(d)[i];
      assert d[i] in d;
    }
    forall k | k in KeySet(d) ensures k in KeySet(r.config) {
      KeySetIndex(d, k);
      var i :| 0 <= i < |d| && d[i].key == k;
      assert KeysOf(r.config)[i] == KeysOf(d)[i];
      assert r.config[i] in r.config;
    }
  }

  /** Every key of `m` whose variable is set has a text that converts. */
  ghost predicate AllConvert(m: map<string, Value>, env: Environment, dec: Decoders) {
    forall k :: k in m && EnvName(k) in env ==> CoerceText(Dispatch(m[k]), env[EnvName(k)], dec).Some?
  }

  /** `after` is `before` with every override applied: the same keys, a key
      whose variable is unset keeps its value, and a key whose variable is
      set holds the text converted according to its value in `before`. */
  ghost predicate OverridesApplied(before: map<string, Value>, after: map<string, Value>,
                                   env: Environment, dec: Decoders) {
    && after.Keys == before.Keys
    && forall k :: k in before ==>
         if EnvName(k) in env then CoerceText(Dispatch(before[k]), env[EnvName(k)], dec) == Some(after[k])
         else after[k] == before[k]
  }

  /** A finished pass, seen at one key of the map view. */
  lemma EnvPassAtKey(d: Dict, env: Environment, dec: Decoders, k: string)
    requires UniqueKeys(d)
    requires EnvPass(d, env, dec).Done?
    requires k in AsMap(d)
    ensures k in AsMap(EnvPass(d, env, dec).config)
    ensures EnvName(k) in env ==>
      CoerceText(Dispatch(AsMap(d)[k]), env[EnvName(k)], dec) == Some(AsMap(EnvPass(d, env, dec).config)[k])
    ensures EnvName(k) !in env ==> AsMap(EnvPass(d, env, dec).config)[k] == AsMap(d)[k]
  {
    var r := EnvPass(d, env, dec).config;
    EnvPassSpec(d, env, dec);
    EnvPassFrame(d, env, dec);
    SameKeysUnique(d, r);
    KeySetIndex(d, k);
    var i :| 0 <= i < |d| && d[i].key == k;
    AsMapAt(d, i);
    assert r[i].key == k;
    AsMapAt(r, i);
  }

  /** The pass against the map view of a dictionary: it keeps the keys, it
      finishes iff every set variable converts, and then it has applied
      every override. */
  lemma EnvPassAsMap(d: Dict, env: Environment, dec: Decoders)
    requires UniqueKeys(d)
    ensures AsMap(EnvPass(d, env, dec).config).Keys == AsMap(d).Keys
    ensures EnvPass(d, env, dec).Done? <==> AllConvert(AsMap(d), env, dec)
    ensures EnvPass(d, env, dec).Done? ==> OverridesApplied(AsMap(d), AsMap(EnvPass(d, env, dec).config), env, dec)
  {
    var r := EnvPass(d, env, dec);
    EnvPassFrame(d, env, dec);
    if r.Done? {
      forall k | k in AsMap(d)
        ensures k in AsMap(r.config)
        ensures EnvName(k) in env ==>
          CoerceText(Dispatch(AsMap(d)[k]), env[EnvName(k)], dec) == Some(AsMap(r.config)[k])
        ensures EnvName(k) !in env ==> AsMap(r.config)[k] == AsMap(d)[k]
      {
        EnvPassAtKey(d, env, dec, k);
      }
    } else {
      EnvPassSpec(d, env, dec);
      var j: nat :| AbortedAt(d, env, dec, j, r);
      AsMapAt(d, j);
    }
  }

  /** The variable for a key is the prefix followed by the upper-cased key. */
  lemma EnvNameExamples()
    ensures EnvName("max_size_mb") == "LOGGINGUTIL_MAX_SIZE_MB"
    ensures EnvName("use_utc") == "LOGGINGUTIL_USE_UTC"
  {
  }

  /** Two keys share a variable exactly when they agree up to ASCII case. */
  lemma EnvNameCaseBlind(k1: string, k2: string)
    ensures EnvName(k1) == EnvName(k2) <==> Upper(k1) == Upper(k2)
  {
    if EnvName(k1) == EnvName(k2) {
      assert Upper(k1) == EnvName(k1)[|ENV_PREFIX|..];
      assert Upper(k2) == EnvName(k2)[|ENV_PREFIX|..];
    }
  }

  /** A boolean key is tested before the integer test, so it never raises:
      it becomes true exactly for the three truthy spellings. */
  lemma BoolCoercion(k: string, b: bool, env: Environment, dec: Decoders)
    requires EnvName(k) in env
    ensures CoerceEntry(Entry(k, VBool(b)), env, dec)
         == Success(Entry(k, VBool(Lower(env[EnvName(k)]) in ["true", "1", "yes"])))
  {
  }

  /** Case does not matter to the truthy test. */
  lemma TruthyCaseBlind(s: string, t: string)
    requires Upper(s) == Upper(t)
    ensures Truthy(s) <==> Truthy(t)
  {
    LowerCaseBlind(s, t);
  }

  /** Sample texts for a boolean key: only the truthy spellings count. */
  lemma TruthyExamples()
    ensures Truthy("YES") && Truthy("True") && Truthy("1") && Truthy("yes")
    ensures !Truthy("0") && !Truthy("maybe") && !Truthy("") && !Truthy("false") && !Truthy("on")
  {
    assert Lower("YES") == "yes";
    assert Lower("True") == "true";
    assert Lower("1") == "1";
    assert Lower("yes") == "yes";
    assert Lower("0") == "0";
    assert Lower("maybe") == "maybe";
    assert Lower("false") == "false";
    assert Lower("on") == "on";
  }

  /** An integer key takes the base-10 parse of the text, and the pass
      raises exactly when the text is not an integer literal. */
  lemma IntCoercion(k: string, n: int, env: Environment, dec: Decoders)
    requires EnvName(k) in env
    ensures CoerceEntry(Entry(k, VInt(n)), env, dec).Success? <==> IntLiteral.IsLiteral(env[EnvName(k)])
    ensures IntLiteral.IsLiteral(env[EnvName(k)]) ==>
      CoerceEntry(Entry(k, VInt(n)), env, dec) == Success(Entry(k, VInt(IntLiteral.Parse(env[EnvName(k)]).value)))
    ensures !IntLiteral.IsLiteral(env[EnvName(k)]) ==>
      CoerceEntry(Entry(k, VInt(n)), env, dec) == Failure(InvalidEnvValue(k, AsInt, env[EnvName(k)]))
  {
  }

  /** Writing an integer back through the environment restores it. */
  lemma IntCoercionRoundTrip(k: string, previous: int, n: int, env: Environment, dec: Decoders)
    requires EnvName(k) in env && env[EnvName(k)] == IntLiteral.Show(n)
    ensures CoerceEntry(Entry(k, VInt(previous)), env, dec) == Success(Entry(k, VInt(n)))
  {
    IntLiteral.ParseShow(n);
  }

  /** None, a string or any other non-list object takes the text as is. */
  lemma VerbatimCoercion(k: string, v: Value, env: Environment, dec: Decoders)
    requires EnvName(k) in env
    requires v.VNone? || v.VStr? || v.VOther?
    ensures CoerceEntry(Entry(k, v), env, dec) == Success(Entry(k, VStr(env[EnvName(k)])))
  {
  }

  /** A list key takes whatever the JSON decoder returns, list or not, and
      the pass raises exactly when the decoder does. */
  lemma JsonCoercion(k: string, items: seq<Value>, env: Environment, dec: Decoders)
    requires EnvName(k) in env
    ensures dec.parseJson(env[EnvName(k)]).None? ==>
      CoerceEntry(Entry(k, VList(items)), env, dec) == Failure(InvalidEnvValue(k, AsJson, env[EnvName(k)]))
    ensures dec.parseJson(env[EnvName(k)]).Some? ==>
      CoerceEntry(Entry(k, VList(items)), env, dec) == Success(Entry(k, dec.parseJson(env[EnvName(k)]).value))
  {
  }

  /** A float key takes the float parse of the text, raising where it does. */
  lemma FloatCoercion(k: string, f: bv64, env: Environment, dec: Decoders)
    requires EnvName(k) in env
    ensures dec.parseFloat(env[EnvName(k)]).None? ==>
      CoerceEntry(Entry(k, VFloat(f)), env, dec) == Failure(InvalidEnvValue(k, AsFloat, env[EnvName(k)]))
    ensures dec.parseFloat(env[EnvName(k)]).Some? ==>
      CoerceEntry(Entry(k, VFloat(f)), env, dec) == Success(Entry(k, VFloat(dec.parseFloat(env[EnvName(k)]).value)))
  {
  }

  /** Environment precedence at one key: once the variable is set, what the
      key ends up holding depends on the text and the runtime type of the
      current value only, never on which value of that type it was. */
  lemma CoercionIgnoresOldValue(k: string, v1: Value, v2: Value, env: Environment, dec: Decoders)
    requires EnvName(k) in env
    requires Dispatch(v1) == Dispatch(v2)
    ensures CoerceEntry(Entry(k, v1), env, dec) == CoerceEntry(Entry(k, v2), env, dec)
  {
  }

  /** An integer conversion that raises stops the pass at that key: keys
      visited before it keep their coerced values and it and every later
      key are left as they were. */
  lemma IntFailureStopsPass(d: Dict, env: Environment, dec: Decoders, j: nat)
    requires j < |d| && d[j].value.VInt?
    requires EnvName(d[j].key) in env && !IntLiteral.IsLiteral(env[EnvName(d[j].key)])
    requires forall i :: 0 <= i < j ==> CoerceEntry(d[i], env, dec).Success?
    ensures EnvPass(d, env, dec).Raised?
    ensures EnvPass(d, env, dec).error == InvalidEnvValue(d[j].key, AsInt, env[EnvName(d[j].key)])
    ensures AbortedAt(d, env, dec, j, EnvPass(d, env, dec))
  {
    var r := EnvPass(d, env, dec);
    EnvPassSpec(d, env, dec);
    assert CoerceEntry(d[j], env, dec).Failure?;
    var j': nat :| AbortedAt(d, env, dec, j', r);
    assert j' == j;
  }

  /** A second pass over the result of a finished pass changes nothing,
      provided every override kept the runtime type of the value it
      replaced (always so for bool, int, float and string keys). */
  lemma EnvPassIdempotent(d: Dict, env: Environment, dec: Decoders)
    requires EnvPass(d, env, dec).Done?
    requires forall i :: 0 <= i < |d| ==> Dispatch(EnvPass(d, env, dec).config[i].value) == Dispatch(d[i].value)
    ensures EnvPass(EnvPass(d, env, dec).config, env, dec) == EnvPass(d, env, dec)
  {
    var r1 := EnvPass(d, env, dec).config;
    EnvPassSpec(d, env, dec);
    forall i | 0 <= i < |r1|
      ensures CoerceEntry(r1[i], env, dec) == Success(r1[i])
    {
      assert r1[i].key == d[i].key;
      if EnvName(d[i].key) in env {
        CoercionIgnoresOldValue(d[i].key, r1[i].value, d[i].value, env, dec);
        assert r1[i] == Entry(d[i].key, r1[i].value);
        assert d[i] == Entry(d[i].key, d[i].value);
      }
    }
    EnvPassSpec(r1, env, dec);
    var r2 := EnvPass(r1, env, dec).config;
    assert r2 == r1;
  }

  /** Without that proviso a second pass can change a value: a list key
      whose variable holds the JSON text `null` becomes None on the first
      pass, and on the second the None takes the text verbatim. */
  lemma EnvPassNotIdempotentForJsonScalars()
    ensures var d := [Entry("handlers", VList([]))];
            var env := map["LOGGINGUTIL_HANDLERS" := "null"];
            var dec := Decoders(_ => None, s => if s == "null" then Some(VNone) else None);
            && EnvPass(d, env, dec) == Done([Entry("handlers", VNone)])
            && EnvPass(EnvPass(d, env, dec).config, env, dec) == Done([Entry("handlers", VStr("null"))])
  {
    var d := [Entry("handlers", VList([]))];
    var env := map["LOGGINGUTIL_HANDLERS" := "null"];
    var dec := Decoders(_ => None, s => if s == "null" then Some(VNone) else None);
    assert EnvName("handlers") == "LOGGINGUTIL_HANDLERS";
    assert d[1..] == [];
    assert [Entry("handlers", VNone)][1..] == [];
  }
}
