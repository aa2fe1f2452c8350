/**
 * The schema side of `ServiceConfigurator`: the configuration schema
 * extended by the settings the configured workers declare, the choice
 * between the extended and the plain schema, and the permission test on the
 * configuration file.
 *
 * The base schema (`CONFIG_JSONSCHEMA`) is a parameter: its sections come
 * from modules outside this model. What the file system reports about the
 * configuration file is passed in as well.
 */
module ServiceConfigurator {
  import opened Wrappers
  import opened Dicts
  import opened Json
  import opened WorkerFactory

  const PropertiesKey: string := "properties"
  const WorkerSettingsKey: string := "worker_settings"

  /** The base schema has no dictionary under "properties" to put the worker settings into (a `KeyError` or `TypeError`). */
  datatype SchemaError = NoPropertiesObject

  /** A declaration whose schema is taken into the worker settings. */
  predicate HasSchema(d: (string, Declaration)) {
    Truthy(d.1.settingsSchema)
  }

  /** A declaration whose worker's settings section must be present. */
  predicate IsRequired(d: (string, Declaration)) {
    Truthy(d.1.settingsSchema) && d.1.required
  }

  /** The schema entries of the worker settings, one per declaration with a truthy schema, in order. */
  function SettingsEntries(ds: Dict<string, Declaration>): Dict<string, Json> {
    if ds == [] then []
    else
      var front := SettingsEntries(ds[..|ds| - 1]);
      var d := ds[|ds| - 1];
      if HasSchema(d) then Put(front, d.0, d.1.settingsSchema) else front
  }

  /** The names the worker settings require: those with a truthy schema and `required` set, in order. */
  function RequiredNames(ds: Dict<string, Declaration>): seq<string> {
    if ds == [] then []
    else
      var d := ds[|ds| - 1];
      RequiredNames(ds[..|ds| - 1]) + if IsRequired(d) then [d.0] else []
  }

  /** A list of names as a JSON array of strings. */
  function NameArray(names: seq<string>): (j: Json)
    ensures j.JArray? && |j.items| == |names|
    ensures forall k :: 0 <= k < |names| ==> j.items[k] == JStr(names[k])
  {
    JArray(seq(|names|, k requires 0 <= k < |names| => JStr(names[k])))
  }

  const ObjectType: (string, Json) := ("type", JStr("object"))
  const NoAdditionalProperties: (string, Json) := ("additionalProperties", JBool(false))

  /** The worker-settings section: an object admitting exactly the given entries and requiring the given names. */
  function WorkerSettingsSchema(entries: Dict<string, Json>, required: seq<string>): (j: Json)
    ensures j.JObject? && DistinctKeys(j.members)
    ensures Get(j.members, "type") == Some(JStr("object"))
    ensures Get(j.members, "additionalProperties") == Some(JBool(false))
    ensures Get(j.members, "properties") == Some(JObject(entries))
    ensures Get(j.members, "required") == Some(NameArray(required))
  {
    var members := [ObjectType, NoAdditionalProperties, ("properties", JObject(entries)), ("required", NameArray(required))];
    assert members[1..][1..] == members[2..] && members[2..][1..] == members[3..];
    assert Get(members[2..], "properties") == Some(JObject(entries));
    assert Get(members[3..], "required") == Some(NameArray(required));
    assert Get(members[2..], "required") == Get(members[3..], "required");
    JObject(members)
  }

  /** The extended schema: the base with its worker-settings property replaced by the section the declarations make. */
  function ExtendedSchema(base: Json, ds: Dict<string, Declaration>): (r: Result<Json, SchemaError>)
    ensures r.Err? <==> !(base.JObject? && Get(base.members, PropertiesKey).Some? && Get(base.members, PropertiesKey).value.JObject?)
  {
    var props := if base.JObject? then Get(base.members, PropertiesKey) else None;
    if props.Some? && props.value.JObject? then
      var section := WorkerSettingsSchema(SettingsEntries(ds), RequiredNames(ds));
      Ok(JObject(Put(base.members, PropertiesKey, JObject(Put(props.value.members, WorkerSettingsKey, section)))))
    else Err(NoPropertiesObject)
  }

  /**
   * `create_extended_json_schema`: walks the declarations in order, taking
   * every truthy schema into the entries and the name of every required one
   * into the required list, then puts the section into a copy of the base.
   */
  method CreateExtendedJsonSchema(base: Json, declarations: Dict<string, Declaration>) returns (r: Result<Json, SchemaError>)
    ensures r == ExtendedSchema(base, declarations)
  {
    var entries: Dict<string, Json> := [];
    var required: seq<string> := [];
    var i := 0;
    while i < |declarations|
      invariant 0 <= i <= |declarations|
      invariant entries == SettingsEntries(declarations[..i])
      invariant required == RequiredNames(declarations[..i])
    {
      var (workerName, extraConfig) := declarations[i];
      assert declarations[..i + 1][..i] == declarations[..i];
      if Truthy(extraConfig.settingsSchema) {
        entries := Put(entries, workerName, extraConfig.settingsSchema);
        if extraConfig.required {
          required := required + [workerName];
        }
      }
      i := i + 1;
    }
    assert declarations[..|declarations|] == declarations;
    var section := WorkerSettingsSchema(entries, required);
    if base.JObject? {
      var props := Get(base.members, PropertiesKey);
      if props.Some? && props.value.JObject? {
        return Ok(JObject(Put(base.members, PropertiesKey, JObject(Put(props.value.members, WorkerSettingsKey, section)))));
      }
    }
    r := Err(NoPropertiesObject);
  }

  /** `generate_config_file_json_schema`: the extended schema for declarations, the base schema itself for none. */
  method GenerateConfigFileJsonSchema(base: Json, declarations: Option<Dict<string, Declaration>>) returns (r: Result<Json, SchemaError>)
    ensures declarations.None? || declarations.value == [] ==> r == Ok(base)
    ensures declarations.Some? && declarations.value != [] ==> r == ExtendedSchema(base, declarations.value)
  {
    if declarations.Some? && declarations.value != [] {
      r := CreateExtendedJsonSchema(base, declarations.value);
    } else {
      r := Ok(base);
    }
  }

  /**
   * The extended schema differs from the base only in the worker-settings
   * property: every other top-level member and every other property is the
   * base's.
   */
  lemma ExtendedSchemaChangesOnlyWorkerSettings(base: Json, ds: Dict<string, Declaration>, k: string, p: string)
    requires ExtendedSchema(base, ds).Ok?
    ensures var r := ExtendedSchema(base, ds).value;
      r.JObject? && (k != PropertiesKey ==> Get(r.members, k) == Get(base.members, k))
    ensures var r := ExtendedSchema(base, ds).value;
      var props := Get(base.members, PropertiesKey).value.members;
      r.JObject? && Get(r.members, PropertiesKey).Some? && Get(r.members, PropertiesKey).value.JObject? &&
      Get(Get(r.members, PropertiesKey).value.members, p) ==
        if p == WorkerSettingsKey then Some(WorkerSettingsSchema(SettingsEntries(ds), RequiredNames(ds))) else Get(props, p)
  {
    var props := Get(base.members, PropertiesKey).value.members;
    var section := WorkerSettingsSchema(SettingsEntries(ds), RequiredNames(ds));
    PutGet(base.members, PropertiesKey, JObject(Put(props, WorkerSettingsKey, section)), k);
    PutGet(base.members, PropertiesKey, JObject(Put(props, WorkerSettingsKey, section)), PropertiesKey);
    PutGet(props, WorkerSettingsKey, section, p);
  }

  /** A key that names no declaration has no schema entry. */
  lemma {:induction false} SettingsEntriesUnknown(ds: Dict<string, Declaration>, k: string)
    requires k !in Keys(ds)
    ensures Get(SettingsEntries(ds), k) == None
  {
    if ds != [] {
      var front := ds[..|ds| - 1];
      assert Keys(ds)[|ds| - 1] == ds[|ds| - 1].0;
      assert k !in Keys(front);
      SettingsEntriesUnknown(front, k);
      if HasSchema(ds[|ds| - 1]) {
        PutGet(SettingsEntries(front), ds[|ds| - 1].0, ds[|ds| - 1].1.settingsSchema, k);
      }
    }
  }

  /** Each declared worker has its schema as its entry when the schema is truthy, and no entry otherwise. */
  lemma {:induction false} SettingsEntriesGet(ds: Dict<string, Declaration>, i: nat)
    requires DistinctKeys(ds) && i < |ds|
    ensures Get(SettingsEntries(ds), ds[i].0) == if HasSchema(ds[i]) then Some(ds[i].1.settingsSchema) else None
  {
    var front := ds[..|ds| - 1];
    var d := ds[|ds| - 1];
    if i == |ds| - 1 {
      if HasSchema(d) {
        PutGet(SettingsEntries(front), d.0, d.1.settingsSchema, d.0);
      } else {
        assert d.0 !in Keys(front);
        SettingsEntriesUnknown(front, d.0);
      }
    } else {
      assert front[i] == ds[i];
      assert DistinctKeys(front);
      SettingsEntriesGet(front, i);
      if HasSchema(d) {
        PutGet(SettingsEntries(front), d.0, d.1.settingsSchema, ds[i].0);
      }
    }
  }

  /** The entries never name a worker twice. */
  lemma {:induction false} SettingsEntriesDistinct(ds: Dict<string, Declaration>)
    ensures DistinctKeys(SettingsEntries(ds))
  {
    if ds != [] {
      var front := ds[..|ds| - 1];
      var d := ds[|ds| - 1];
      SettingsEntriesDistinct(front);
      if HasSchema(d) {
        PutDistinct(SettingsEntries(front), d.0, d.1.settingsSchema);
      }
    }
  }

  /** The names required by a prefix of the declarations begin the names required by all of them. */
  lemma {:induction false} RequiredPrefix(ds: Dict<string, Declaration>, k: nat)
    requires k <= |ds|
    ensures RequiredNames(ds[..k]) <= RequiredNames(ds)
    decreases |ds| - k
  {
    if k < |ds| {
      var next := ds[..k + 1];
      assert next[..|next| - 1] == ds[..k];
      assert RequiredNames(ds[..k]) <= RequiredNames(next);
      assert ds[..k + 1] == next;
      RequiredPrefix(ds, k + 1);
    } else {
      assert ds[..k] == ds;
    }
  }

  /** A required declaration's name is in the required list, right after the names required before it. */
  lemma RequiredNameAt(ds: Dict<string, Declaration>, i: nat) returns (p: nat)
    requires i < |ds| && IsRequired(ds[i])
    ensures p == |RequiredNames(ds[..i])| && p < |RequiredNames(ds)| && RequiredNames(ds)[p] == ds[i].0
  {
    var upTo := ds[..i + 1];
    assert upTo[..|upTo| - 1] == ds[..i];
    assert RequiredNames(upTo) == RequiredNames(ds[..i]) + [ds[i].0];
    RequiredPrefix(ds, i + 1);
    p := |RequiredNames(ds[..i])|;
  }

  /** Every required name is that of a declaration with a truthy schema and `required` set. */
  lemma {:induction false} RequiredNameFrom(ds: Dict<string, Declaration>, p: nat) returns (i: nat)
    requires p < |RequiredNames(ds)|
    ensures i < |ds| && IsRequired(ds[i]) && ds[i].0 == RequiredNames(ds)[p]
  {
    var front := ds[..|ds| - 1];
    if p < |RequiredNames(front)| {
      i := RequiredNameFrom(front, p);
      assert ds[i] == front[i];
    } else {
      i := |ds| - 1;
    }
  }

  /** The required list keeps the declaration order: of two required declarations, the earlier is named first. */
  lemma RequiredInOrder(ds: Dict<string, Declaration>, i: nat, j: nat)
    requires i < j < |ds| && IsRequired(ds[i]) && IsRequired(ds[j])
    ensures exists p, q :: 0 <= p < q < |RequiredNames(ds)| && RequiredNames(ds)[p] == ds[i].0 && RequiredNames(ds)[q] == ds[j].0
  {
    var p := RequiredNameAt(ds, i);
    var q := RequiredNameAt(ds, j);
    var before := ds[..j];
    assert before[..i + 1] == ds[..i + 1];
    RequiredPrefix(before, i + 1);
    var upTo := ds[..i + 1];
    assert upTo[..|upTo| - 1] == ds[..i];
    assert |RequiredNames(upTo)| == p + 1;
  }

  /** What goes wrong with the configuration file. */
  datatype AccessError =
    | FileNotFound
    | WrongPermissions(permissions: string)

  /** The permission bits of a file mode: `st_mode & 0o777`. */
  function PermissionBits(stMode: nat): (bits: nat)
    ensures bits < 512
  {
    stMode % 512
  }

  /** The octal digit character of `d`. */
  function OctalChar(d: nat): char
    requires d < 8
  {
    ('0' as int + d) as char
  }

  /** `oct(n)[2:]`: the octal digits of `n`, without leading zeros. */
  function OctalDigits(n: nat): (s: string)
    ensures |s| >= 1
    decreases n
  {
    if n < 8 then [OctalChar(n)] else OctalDigits(n / 8) + [OctalChar(n % 8)]
  }

  /** The number a string of octal digits denotes. */
  function ParseOctal(s: string): int {
    if s == [] then 0 else ParseOctal(s[..|s| - 1]) * 8 + (s[|s| - 1] as int - '0' as int)
  }

  /** Reading the octal digits back gives the number. */
  lemma {:induction false} OctalRoundTrip(n: nat)
    ensures ParseOctal(OctalDigits(n)) == n
    decreases n
  {
    var s := OctalDigits(n);
    if n >= 8 {
      OctalRoundTrip(n / 8);
      assert s[..|s| - 1] == OctalDigits(n / 8);
    } else {
      assert s[..|s| - 1] == [];
    }
  }

  /** The permission text is "600" exactly for the bits 0o600. */
  lemma OctalSixHundred(n: nat)
    ensures OctalDigits(n) == "600" <==> n == 384
  {
    if OctalDigits(n) == "600" {
      OctalRoundTrip(n);
      assert "600"[..2] == "60" && "60"[..1] == "6";
    }
    if n == 384 {
      assert OctalDigits(6) == "6";
      assert OctalDigits(48) == "60";
    }
  }

  /** `check_config_file_access`: a missing file, or permission bits other than 0o600, are rejected. */
  function CheckConfigFileAccess(isFile: bool, stMode: nat): (r: Outcome<AccessError>)
    ensures r == Pass <==> isFile && PermissionBits(stMode) == 384
    ensures !isFile ==> r == Fail(FileNotFound)
    ensures isFile && r.Fail? ==> r.error == WrongPermissions(OctalDigits(PermissionBits(stMode)))
  {
    var permissions := OctalDigits(PermissionBits(stMode));
    OctalSixHundred(PermissionBits(stMode));
    if !isFile then Fail(FileNotFound)
    else if permissions != "600" then Fail(WrongPermissions(permissions))
    else Pass
  }
}
