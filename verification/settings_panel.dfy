/**
  The settings panel: a record of named settings updated one key at a time,
  reset to a default record, and the count of enabled AI models.

  The record is a map from key to value. The update writes any key with any
  value, like the object spread with a computed key that it models, and the
  model count uses the truthiness of `filter(Boolean)`; a key the record lacks
  reads as `Undefined`.
 */
module SettingsPanel {
  import Seqs

  /** A setting's value: the switches send booleans, the slider a number, the select a string. */
  datatype Value = Bool(b: bool) | Num(n: int) | Str(s: string)

  /** Reading a key: `Undefined` when the record lacks it. */
  datatype Field = Undefined | Defined(value: Value)

  type Settings = map<string, Value>

  /** The five model switches, in the order the count reads them. */
  const ModelKeys: seq<string> := ["enableGPT4", "enableClaude", "enableGemini", "enableMistral", "enableLlama"]

  /** The ten keys whose default is `true`: the five model switches and the five analysis switches. */
  const SwitchKeys: set<string> := {
    "enableGPT4", "enableClaude", "enableGemini", "enableMistral", "enableLlama",
    "webSearchEnabled", "strictMode", "analyzeUnusedCode", "analyzePerformance", "analyzeSecurity" }

  /** The thirteen keys of the default record. */
  const SettingKeys: set<string> := {
    "enableGPT4", "enableClaude", "enableGemini", "enableMistral", "enableLlama",
    "checksPerModel", "autoFix", "webSearchEnabled", "strictMode",
    "analyzeUnusedCode", "analyzePerformance", "analyzeSecurity", "severityLevel" }

  /** The record the panel starts with. */
  const InitialSettings: Settings := map[
    "enableGPT4" := Bool(true),
    "enableClaude" := Bool(true),
    "enableGemini" := Bool(true),
    "enableMistral" := Bool(true),
    "enableLlama" := Bool(true),
    "checksPerModel" := Num(3),
    "autoFix" := Bool(false),
    "webSearchEnabled" := Bool(true),
    "strictMode" := Bool(true),
    "analyzeUnusedCode" := Bool(true),
    "analyzePerformance" := Bool(true),
    "analyzeSecurity" := Bool(true),
    "severityLevel" := Str("all")
  ]

  /** The record that reset writes, a literal of its own in the component. */
  const Defaults: Settings := map[
    "enableGPT4" := Bool(true),
    "enableClaude" := Bool(true),
    "enableGemini" := Bool(true),
    "enableMistral" := Bool(true),
    "enableLlama" := Bool(true),
    "checksPerModel" := Num(3),
    "autoFix" := Bool(false),
    "webSearchEnabled" := Bool(true),
    "strictMode" := Bool(true),
    "analyzeUnusedCode" := Bool(true),
    "analyzePerformance" := Bool(true),
    "analyzeSecurity" := Bool(true),
    "severityLevel" := Str("all")
  ]

  function Get(s: Settings, key: string): Field
  {
    if key in s then Defined(s[key]) else Undefined
  }

  /** JavaScript truthiness of a field: `false`, `0`, `""` and `undefined` are falsy. */
  predicate Truthy(f: Field)
  {
    match f
    case Undefined => false
    case Defined(Bool(b)) => b
    case Defined(Num(n)) => n != 0
    case Defined(Str(t)) => t != ""
  }

  /** The five model switches as read from `s`. */
  function ModelFlags(s: Settings): (r: seq<Field>)
    ensures |r| == |ModelKeys|
    ensures forall i :: 0 <= i < |r| ==> r[i] == Get(s, ModelKeys[i])
  {
    [Get(s, ModelKeys[0]), Get(s, ModelKeys[1]), Get(s, ModelKeys[2]), Get(s, ModelKeys[3]), Get(s, ModelKeys[4])]
  }

  /** `activeModels`: how many of the five model switches are on. */
  function ActiveModels(s: Settings): (r: nat)
    ensures r <= |ModelKeys|
  {
    Seqs.Count(ModelFlags(s), Truthy)
  }

  /** `handleSettingChange`: key `key` now holds `value`; every other key is as before. */
  function HandleSettingChange(s: Settings, key: string, value: Value): (r: Settings)
    ensures Get(r, key) == Defined(value)
    ensures forall k :: k != key ==> Get(r, k) == Get(s, k)
    ensures r.Keys == s.Keys + {key}
  {
    s[key := value]
  }

  /**
    `resetSettings`: whatever the settings were, the record the panel started with:
    thirteen keys, every model and analysis switch on, three checks per model, no
    automatic fixing and severity level "all".
   */
  function ResetSettings(s: Settings): (r: Settings)
    ensures r == InitialSettings
    ensures r.Keys == SettingKeys
    ensures Get(r, "checksPerModel") == Defined(Num(3))
    ensures Get(r, "severityLevel") == Defined(Str("all"))
    ensures Get(r, "autoFix") == Defined(Bool(false))
    ensures forall k :: k in SwitchKeys ==> Get(r, k) == Defined(Bool(true))
  {
    DefaultsAreInitial();
    DefaultsKeys();
    DefaultsValues();
    Defaults
  }

  /** After a reset all five models are enabled. */
  lemma ResetEnablesAllModels(s: Settings)
    ensures ActiveModels(ResetSettings(s)) == 5
  {
    DefaultsActiveModels();
  }

  /** The reset literal and the initial literal are the same record. */
  lemma DefaultsAreInitial()
    ensures Defaults == InitialSettings
  {
  }

  lemma DefaultsKeys()
    ensures Defaults.Keys == SettingKeys
  {
  }

  lemma DefaultsValues()
    ensures Get(Defaults, "checksPerModel") == Defined(Num(3))
    ensures Get(Defaults, "severityLevel") == Defined(Str("all"))
    ensures Get(Defaults, "autoFix") == Defined(Bool(false))
    ensures forall k :: k in SwitchKeys ==> Get(Defaults, k) == Defined(Bool(true))
  {
  }

  lemma DefaultsActiveModels()
    ensures ActiveModels(Defaults) == 5
  {
    var flags := ModelFlags(Defaults);
    assert forall i :: 0 <= i < |flags| ==> Truthy(flags[i]);
    Seqs.FilterKeepsAll(flags, Truthy);
  }

  /** Resetting is idempotent, and two resets agree whatever they start from. */
  lemma ResetIdempotent(s: Settings, t: Settings)
    ensures ResetSettings(ResetSettings(s)) == ResetSettings(s)
    ensures ResetSettings(s) == ResetSettings(t)
  {
  }

  /** The model count is the sum of the five switches' truth values. */
  lemma {:induction false} ActiveModelsIsSum(s: Settings)
    ensures ActiveModels(s) == Seqs.Ind(Truthy(Get(s, "enableGPT4"))) + Seqs.Ind(Truthy(Get(s, "enableClaude")))
                             + Seqs.Ind(Truthy(Get(s, "enableGemini"))) + Seqs.Ind(Truthy(Get(s, "enableMistral")))
                             + Seqs.Ind(Truthy(Get(s, "enableLlama")))
  {
    var f := ModelFlags(s);
    assert f == [f[0]] + ([f[1]] + ([f[2]] + ([f[3]] + ([f[4]] + []))));
    Seqs.CountCons(f[0], [f[1]] + ([f[2]] + ([f[3]] + ([f[4]] + []))), Truthy);
    Seqs.CountCons(f[1], [f[2]] + ([f[3]] + ([f[4]] + [])), Truthy);
    Seqs.CountCons(f[2], [f[3]] + ([f[4]] + []), Truthy);
    Seqs.CountCons(f[3], [f[4]] + [], Truthy);
    Seqs.CountCons(f[4], [], Truthy);
  }

  /** Writing a key that is not a model switch leaves the model count as it was. */
  lemma OtherKeyKeepsActiveModels(s: Settings, key: string, value: Value)
    requires key !in ModelKeys
    ensures ActiveModels(HandleSettingChange(s, key, value)) == ActiveModels(s)
  {
    assert ModelFlags(HandleSettingChange(s, key, value)) == ModelFlags(s);
  }

  /** Writing model switch `i` moves the count by the change in that switch's truth value. */
  lemma ModelKeyChangesActiveModels(s: Settings, i: nat, value: Value)
    requires i < |ModelKeys|
    ensures ActiveModels(HandleSettingChange(s, ModelKeys[i], value)) + Seqs.Ind(Truthy(Get(s, ModelKeys[i])))
         == ActiveModels(s) + Seqs.Ind(Truthy(Defined(value)))
  {
    var flags := ModelFlags(s);
    var flags' := ModelFlags(HandleSettingChange(s, ModelKeys[i], value));
    assert flags' == flags[i := Defined(value)];
    Seqs.CountUpdate(flags, i, Defined(value), Truthy);
  }

  /** Flipping a model switch that holds a boolean moves the model count by exactly one. */
  lemma ToggleModelChangesByOne(s: Settings, i: nat)
    requires i < |ModelKeys| && ModelKeys[i] in s && s[ModelKeys[i]].Bool?
    ensures var on := s[ModelKeys[i]].b;
      && (on ==> ActiveModels(HandleSettingChange(s, ModelKeys[i], Bool(false))) == ActiveModels(s) - 1)
      && (!on ==> ActiveModels(HandleSettingChange(s, ModelKeys[i], Bool(true))) == ActiveModels(s) + 1)
  {
    ModelKeyChangesActiveModels(s, i, Bool(!s[ModelKeys[i]].b));
  }
}
