/** The option layers of source_sites/uma_global.py: `DEFAULTS`,
    `PRESETS`, `ALLOWED_KEYS` and `_merge_options`. */
module UmaGlobal {
  import opened Text
  import opened Wrappers
  import opened PyValues

  // ---------- switches ----------

  /** `DEFAULTS` */
  const Defaults: map<string, Value> := map[
    "mode" := VStr("first"),
    "max_pages" := VInt(1),
    "headless" := VBool(true),
    "search_timeout_ms" := VInt(90000),
    "settle_ms" := VInt(250),
    "verbose" := VBool(false)]

  /** `PRESETS` */
  const Presets: map<string, map<string, Value>> := map[
    "staging" := map["headless" := VBool(true), "mode" := VStr("first"), "verbose" := VBool(true)],
    "prod" := map["headless" := VBool(true), "mode" := VStr("first"), "verbose" := VBool(false)]]

  /** `ALLOWED_KEYS`, the keys of `DEFAULTS`: the only keys an override
      may set. */
  const AllowedKeys: set<string> := {"mode", "max_pages", "headless", "search_timeout_ms", "settle_ms", "verbose"}

  /** The allowed keys are the keys of the defaults, and the presets only
      set allowed keys. */
  lemma SwitchesListed()
    ensures AllowedKeys == Defaults.Keys
    ensures forall p :: p in Presets ==> Presets[p].Keys <= AllowedKeys
  {
  }

  // ---------- `_merge_options` as layers ----------

  /** Why the options could not be merged: an `options` block that is
      truthy but not a mapping, a preset name that is a list or a dict
      (which `in PRESETS` cannot hash), or a `max_pages` or `mode` that
      `int` or `str` refuses. */
  datatype OptionsError = OptionsNotMapping | PresetUnhashable | BadMaxPages | BadMode

  /** `search.get("options") or {}` */
  function OptionsBlock(search: map<string, Value>): Result<map<string, Value>, OptionsError> {
    var v := Get(search, "options", VNone);
    if !Truthy(v) then Success(map[])
    else if v.VMap? then Success(v.m)
    else Failure(OptionsNotMapping)
  }

  /** The preset name after the loop over `(options block, search)`: the
      later source wins. */
  function PresetName(block: map<string, Value>, search: map<string, Value>): Option<Value> {
    if "preset" in search then Some(search["preset"])
    else if "preset" in block then Some(block["preset"])
    else None
  }

  /** The preset layer: `PRESETS[name]` for a known name, nothing for a
      falsy or unknown one. */
  function PresetLayer(name: Option<Value>): Result<map<string, Value>, OptionsError> {
    if name.None? || !Truthy(name.value) then Success(map[])
    else if name.value.VList? || name.value.VMap? then Failure(PresetUnhashable)
    else if name.value.VStr? && name.value.s in Presets then Success(Presets[name.value.s])
    else Success(map[])
  }

  /** The entries of `src` whose keys are in `keys`. */
  function Pick(src: map<string, Value>, keys: set<string>): (r: map<string, Value>)
    ensures r.Keys == src.Keys * keys
    ensures forall k :: k in r ==> r[k] == src[k]
  {
    map k | k in src && k in keys :: src[k]
  }

  /** The options before the type coercions: defaults, then the preset,
      then the allowed keys of the options block, then the allowed keys of
      the search entry. */
  function Layered(search: map<string, Value>): Result<map<string, Value>, OptionsError> {
    var block :- OptionsBlock(search);
    var preset :- PresetLayer(PresetName(block, search));
    Success(Defaults + preset + Pick(block, AllowedKeys) + Pick(search, AllowedKeys))
  }

  /** The four coercions, in the order the code applies them. */
  function Coerce(opts: map<string, Value>): Result<map<string, Value>, OptionsError> {
    var pages :- IntOf(Get(opts, "max_pages", VInt(1))).ToResult(BadMaxPages);
    var o1 := opts["max_pages" := VInt(pages)];
    var o2 := o1["headless" := VBool(Truthy(Get(o1, "headless", VBool(true))))];
    var o3 := o2["verbose" := VBool(Truthy(Get(o2, "verbose", VBool(false))))];
    var mode :- StrOf(Get(o3, "mode", VStr("first"))).ToResult(BadMode);
    Success(o3["mode" := VStr(LowerAscii(mode))])
  }

  /** What `_merge_options(search)` returns. */
  function MergeSpec(search: map<string, Value>): Result<map<string, Value>, OptionsError> {
    var opts :- Layered(search);
    Coerce(opts)
  }

  // ---------- `_merge_options` step by step ----------

  /** The entries of `src` under `keys` written one by one into `opts`:
      the `for k, v in src.items(): if k in keys: opts[k] = v` loop. */
  method UpdateFrom(opts: map<string, Value>, src: map<string, Value>, keys: set<string>)
    returns (r: map<string, Value>)
    ensures r == opts + Pick(src, keys)
  {
    r := opts;
    var todo := src.Keys;
    var done: set<string> := {};
    PickNone(opts, src, keys);
    while todo != {}
      invariant done + todo == src.Keys
      invariant r == opts + Pick(src, keys * done)
      decreases |todo|
    {
      var k :| k in todo;
      PickStep(opts, src, keys, done, k);
      if k in keys {
        r := r[k := src[k]];
      }
      todo := todo - {k};
      done := done + {k};
    }
    PickAll(src, keys, done);
  }

  lemma UnionEmpty(m: map<string, Value>)
    ensures m + map[] == m
  {
  }

  lemma PickEverything(src: map<string, Value>)
    ensures Pick(src, src.Keys) == src
  {
  }

  lemma PickNone(opts: map<string, Value>, src: map<string, Value>, keys: set<string>)
    ensures opts + Pick(src, keys * {}) == opts
  {
    assert Pick(src, keys * {}) == map[];
  }

  lemma PickAll(src: map<string, Value>, keys: set<string>, done: set<string>)
    requires done + {} == src.Keys
    ensures Pick(src, keys * done) == Pick(src, keys)
  {
    assert done == src.Keys;
  }

  lemma PickStep(opts: map<string, Value>, src: map<string, Value>, keys: set<string>, done: set<string>, k: string)
    requires k in src
    ensures k in keys ==> (opts + Pick(src, keys * done))[k := src[k]] == opts + Pick(src, keys * (done + {k}))
    ensures k !in keys ==> opts + Pick(src, keys * done) == opts + Pick(src, keys * (done + {k}))
  {
    if k !in keys {
      assert keys * done == keys * (done + {k});
    }
  }

  lemma PickSame(src: map<string, Value>, a: set<string>, b: set<string>)
    requires src.Keys * a == src.Keys * b
    ensures Pick(src, a) == Pick(src, b)
  {
  }

  /** `_merge_options(search)`: the layers, then the coercions. */
  method MergeOptions(search: map<string, Value>) returns (res: Result<map<string, Value>, OptionsError>)
    ensures res == MergeSpec(search)
  {
    var layered := LayerOptions(search);
    if layered.Failure? {
      return Failure(layered.error);
    }
    res := CoerceTypes(layered.value);
  }

  /** The part of `_merge_options` up to the explicit overrides. */
  method LayerOptions(search: map<string, Value>) returns (res: Result<map<string, Value>, OptionsError>)
    ensures res == Layered(search)
  {
    var opts := Defaults;
    var raw := Get(search, "options", VNone);
    var block: map<string, Value>;
    if !Truthy(raw) {
      block := map[];
    } else if raw.VMap? {
      block := raw.m;
    } else {
      return Failure(OptionsNotMapping);
    }
    assert OptionsBlock(search) == Success(block);
    var presetName: Option<Value> := None;
    if "preset" in block {
      presetName := Some(block["preset"]);
    }
    if "preset" in search {
      presetName := Some(search["preset"]);
    }
    assert presetName == PresetName(block, search);
    var preset: map<string, Value> := map[];
    UnionEmpty(opts);
    if presetName.Some? && Truthy(presetName.value) {
      var name := presetName.value;
      if name.VList? || name.VMap? {
        return Failure(PresetUnhashable);
      }
      if name.VStr? && name.s in Presets {
        preset := Presets[name.s];
        opts := UpdateFrom(opts, preset, preset.Keys);
        PickEverything(preset);
      }
    }
    assert PresetLayer(presetName) == Success(preset);
    assert opts == Defaults + preset;
    opts := UpdateFrom(opts, block, AllowedKeys);
    opts := UpdateFrom(opts, search, AllowedKeys);
    return Success(opts);
  }

  /** The "coerce types" block at the end of `_merge_options`. */
  method CoerceTypes(opts: map<string, Value>) returns (res: Result<map<string, Value>, OptionsError>)
    ensures res == Coerce(opts)
  {
    var o := opts;
    var pages := IntOf(Get(o, "max_pages", VInt(1)));
    if pages.None? {
      return Failure(BadMaxPages);
    }
    o := o["max_pages" := VInt(pages.value)];
    o := o["headless" := VBool(Truthy(Get(o, "headless", VBool(true))))];
    o := o["verbose" := VBool(Truthy(Get(o, "verbose", VBool(false))))];
    var mode := StrOf(Get(o, "mode", VStr("first")));
    if mode.None? {
      return Failure(BadMode);
    }
    o := o["mode" := VStr(LowerAscii(mode.value))];
    return Success(o);
  }

  // ---------- what the merge promises ----------

  lemma PresetLayerKeys(name: Option<Value>)
    requires PresetLayer(name).Success?
    ensures PresetLayer(name).value.Keys <= AllowedKeys
  {
    SwitchesListed();
  }

  /** The merged options have exactly the keys of `DEFAULTS`. */
  lemma MergeKeys(search: map<string, Value>)
    ensures Layered(search).Success? ==> Layered(search).value.Keys == AllowedKeys
    ensures MergeSpec(search).Success? ==> MergeSpec(search).value.Keys == AllowedKeys
  {
    if Layered(search).Success? {
      var block := OptionsBlock(search).value;
      PresetLayerKeys(PresetName(block, search));
      SwitchesListed();
      if MergeSpec(search).Success? {
        CoerceKeeps(Layered(search).value);
      }
    }
  }

  /** For each switch the highest layer that sets it decides: the search
      entry, then the options block, then a known preset, then the
      default. */
  lemma MergePrecedence(search: map<string, Value>, k: string)
    requires k in AllowedKeys
    requires Layered(search).Success?
    ensures var block := OptionsBlock(search).value;
      var preset := PresetLayer(PresetName(block, search)).value;
      Layered(search).value[k] ==
        if k in search then search[k]
        else if k in block then block[k]
        else if k in preset then preset[k]
        else Defaults[k]
  {
  }

  /** The coercions set `max_pages` to an int and `headless` and
      `verbose` to bools, each from the value before. */
  lemma CoerceShape(opts: map<string, Value>)
    requires Coerce(opts).Success?
    ensures var o := Coerce(opts).value;
      && o["max_pages"].VInt? && Some(o["max_pages"].i) == IntOf(Get(opts, "max_pages", VInt(1)))
      && o["headless"].VBool? && o["headless"].b == Truthy(Get(opts, "headless", VBool(true)))
      && o["verbose"].VBool? && o["verbose"].b == Truthy(Get(opts, "verbose", VBool(false)))
  {
    var pages := IntOf(Get(opts, "max_pages", VInt(1))).value;
    var o1 := opts["max_pages" := VInt(pages)];
    var o2 := o1["headless" := VBool(Truthy(Get(o1, "headless", VBool(true))))];
    var o3 := o2["verbose" := VBool(Truthy(Get(o2, "verbose", VBool(false))))];
    assert Get(o1, "headless", VBool(true)) == Get(opts, "headless", VBool(true));
    assert Get(o2, "verbose", VBool(false)) == Get(opts, "verbose", VBool(false));
    var mode := StrOf(Get(o3, "mode", VStr("first"))).value;
    var o := o3["mode" := VStr(LowerAscii(mode))];
    assert Coerce(opts).value == o;
    assert o["max_pages"] == o3["max_pages"] == o2["max_pages"] == o1["max_pages"];
    assert o["headless"] == o3["headless"] == o2["headless"];
    assert o["verbose"] == o3["verbose"];
  }

  /** The coercions set `mode` to the lower-cased `str` of the value
      before, so it has no upper-case letter. */
  lemma CoerceMode(opts: map<string, Value>)
    requires Coerce(opts).Success?
    ensures var o := Coerce(opts).value;
      && o["mode"].VStr? && o["mode"].s == LowerAscii(StrOf(Get(opts, "mode", VStr("first"))).value)
      && NoUpperAscii(o["mode"].s)
  {
    var pages := IntOf(Get(opts, "max_pages", VInt(1))).value;
    var o1 := opts["max_pages" := VInt(pages)];
    var o2 := o1["headless" := VBool(Truthy(Get(o1, "headless", VBool(true))))];
    var o3 := o2["verbose" := VBool(Truthy(Get(o2, "verbose", VBool(false))))];
    assert Get(o3, "mode", VStr("first")) == Get(opts, "mode", VStr("first"));
    var mode := StrOf(Get(o3, "mode", VStr("first"))).value;
    assert Coerce(opts).value == o3["mode" := VStr(LowerAscii(mode))];
    LowerAsciiShape(mode);
  }

  /** The coercions add the four coerced keys and leave every other key
      alone. */
  lemma CoerceKeeps(opts: map<string, Value>)
    requires Coerce(opts).Success?
    ensures var o := Coerce(opts).value;
      && o.Keys == opts.Keys + {"max_pages", "headless", "verbose", "mode"}
      && forall k :: k in opts && k !in {"max_pages", "headless", "verbose", "mode"} ==> o[k] == opts[k]
  {
  }

  /** `search_timeout_ms` and `settle_ms` are not coerced: they come out
      as the layers left them. */
  lemma UncoercedKeys(search: map<string, Value>)
    requires MergeSpec(search).Success?
    ensures MergeSpec(search).value.Keys == Layered(search).value.Keys == AllowedKeys
    ensures MergeSpec(search).value["search_timeout_ms"] == Layered(search).value["search_timeout_ms"]
    ensures MergeSpec(search).value["settle_ms"] == Layered(search).value["settle_ms"]
  {
    MergeKeys(search);
    SwitchesListed();
    CoerceKeeps(Layered(search).value);
  }

  /** After the coercions `max_pages` is an int, `headless` and `verbose`
      are bools, and `mode` is a lower-case str. */
  lemma CoercedTypes(search: map<string, Value>)
    requires MergeSpec(search).Success?
    ensures MergeSpec(search).value.Keys == Layered(search).value.Keys == AllowedKeys
    ensures var o := MergeSpec(search).value;
      && o["max_pages"].VInt? && o["headless"].VBool? && o["verbose"].VBool?
      && o["mode"].VStr? && NoUpperAscii(o["mode"].s)
    ensures var o := MergeSpec(search).value; var l := Layered(search).value;
      && Some(o["max_pages"].i) == IntOf(l["max_pages"])
      && o["headless"].b == Truthy(l["headless"])
      && o["verbose"].b == Truthy(l["verbose"])
      && o["mode"].s == LowerAscii(StrOf(l["mode"]).value)
  {
    MergeKeys(search);
    SwitchesListed();
    CoerceShape(Layered(search).value);
    CoerceMode(Layered(search).value);
  }

  /** A `preset` on the search entry wins over one in the options block:
      whatever the block names has no effect. */
  lemma SearchPresetWins(search: map<string, Value>, m: map<string, Value>, v: Value)
    requires "preset" in search
    requires "options" in search && search["options"] == VMap(m)
    ensures Layered(search["options" := VMap(m["preset" := v])]) == Layered(search)
    ensures MergeSpec(search["options" := VMap(m["preset" := v])]) == MergeSpec(search)
  {
    var s2 := search["options" := VMap(m["preset" := v])];
    var m2 := m["preset" := v];
    assert OptionsBlock(search) == Success(m);
    assert OptionsBlock(s2) == Success(m2);
    assert PresetName(m2, s2) == PresetName(m, search);
    assert Pick(s2, AllowedKeys) == Pick(search, AllowedKeys);
    assert Pick(m2, AllowedKeys) == Pick(m, AllowedKeys);
  }

  /** A preset name that is falsy, not a str, or not in `PRESETS` is
      ignored: the options are those of the other layers alone. */
  lemma UnknownPresetIgnored(search: map<string, Value>)
    requires OptionsBlock(search).Success?
    requires var name := PresetName(OptionsBlock(search).value, search);
      name.Some? && !name.value.VList? && !name.value.VMap?
      && !(name.value.VStr? && name.value.s in Presets)
    ensures Layered(search) == Success(Defaults + Pick(OptionsBlock(search).value, AllowedKeys) + Pick(search, AllowedKeys))
  {
    assert Defaults + map[] == Defaults;
  }

  /** A key of the search entry outside `ALLOWED_KEYS` (other than
      `options` and `preset`, which select the other layers) changes
      nothing. */
  lemma UnknownKeysIgnored(search: map<string, Value>, k: string, v: Value)
    requires k !in AllowedKeys && k != "options" && k != "preset"
    ensures MergeSpec(search[k := v]) == MergeSpec(search)
  {
    var s2 := search[k := v];
    assert Get(s2, "options", VNone) == Get(search, "options", VNone);
    assert Pick(s2, AllowedKeys) == Pick(search, AllowedKeys);
    if OptionsBlock(search).Success? {
      assert PresetName(OptionsBlock(search).value, s2) == PresetName(OptionsBlock(search).value, search);
    }
  }

  /** A key of the options block outside `ALLOWED_KEYS` (other than
      `preset`) changes nothing either. */
  lemma UnknownBlockKeysIgnored(search: map<string, Value>, m: map<string, Value>, k: string, v: Value)
    requires "options" in search && search["options"] == VMap(m)
    requires k !in AllowedKeys && k != "preset"
    ensures MergeSpec(search["options" := VMap(m[k := v])]) == MergeSpec(search)
  {
    var s2 := search["options" := VMap(m[k := v])];
    var m2 := m[k := v];
    assert OptionsBlock(search) == Success(m);
    assert OptionsBlock(s2) == Success(m2);
    assert PresetName(m2, s2) == PresetName(m, search);
    assert Pick(s2, AllowedKeys) == Pick(search, AllowedKeys);
    assert Pick(m2, AllowedKeys) == Pick(m, AllowedKeys);
    assert Layered(s2) == Layered(search);
  }

  /** A search entry with no switches gets exactly `DEFAULTS`. */
  lemma EmptySearchGetsDefaults()
    ensures MergeSpec(map[]) == Success(Defaults)
  {
    var empty: map<string, Value> := map[];
    assert Pick(empty, AllowedKeys) == empty;
    assert Defaults + empty + empty + empty == Defaults;
    assert Layered(empty) == Success(Defaults);
    DefaultsAreCoerced();
  }

  lemma DefaultsAreCoerced()
    ensures Coerce(Defaults) == Success(Defaults)
  {
    var first := "first";
    assert IntOf(Get(Defaults, "max_pages", VInt(1))) == Some(1);
    assert Defaults["max_pages" := VInt(1)] == Defaults;
    assert Defaults["headless" := VBool(true)] == Defaults;
    assert Defaults["verbose" := VBool(false)] == Defaults;
    assert StrOf(Get(Defaults, "mode", VStr("first"))) == Some(first);
    LowerFirst();
    assert Defaults["mode" := VStr(first)] == Defaults;
  }

  lemma LowerFirst()
    ensures LowerAscii("first") == "first"
  {
    var first := "first";
    assert NoUpperAscii(first);
    LowerAsciiShape(first);
  }
}
