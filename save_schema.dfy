/**
 * Save payloads of the browser game: migration of older payloads to the current save
 * version and the check that a payload carries every top-level key.
 */
module SaveSchema {
  import Content

  /** A JSON value as the save code sees it. */
  datatype Value =
    | Number(n: int)
    | Text(s: string)
    | Boolean(b: bool)
    | Null
    | List(elements: seq<Value>)
    | Object(fields: map<string, Value>)

  /** A save payload: its top-level keys and their values. */
  type Payload = map<string, Value>

  const SaveVersion: int := 1

  /** JavaScript truthiness (an absent key reads as `undefined`, which is falsy). */
  predicate Truthy(v: Value) {
    match v
    case Number(n) => n != 0
    case Text(s) => s != ""
    case Boolean(b) => b
    case Null => false
    case List(_) => true
    case Object(_) => true
  }

  /** `!!payload[key]`. */
  predicate Present(p: Payload, key: string) {
    key in p && Truthy(p[key])
  }

  /** The version a payload claims: its numeric `save_version`, otherwise 0. */
  function VersionOf(p: Payload): int {
    if "save_version" in p && p["save_version"].Number? then p["save_version"].n else 0
  }

  function DefaultTimeSteps(): Value {
    Object(map["total_steps" := Number(0), "clock_hours" := Number(8), "clock_minutes" := Number(0)])
  }

  function DefaultRoaming(): Value {
    Object(map["rng_seed" := Number(777), "step_counter" := Number(0), "rare_counter" := Number(0)])
  }

  /** The keys migration may write. */
  predicate MigratedKey(k: string) {
    k == "save_version" || k == "time_steps" || k == "roaming"
  }

  /** `migrateSave`: a version-0 payload gets clock and roaming defaults where they are falsy and becomes version 1. */
  function MigrateSave(p: Payload): (r: Payload)
    ensures VersionOf(p) != 0 ==> r == p
    ensures VersionOf(p) == 0 ==>
      && r.Keys == p.Keys + {"save_version", "time_steps", "roaming"}
      && r["save_version"] == Number(SaveVersion)
      && r["time_steps"] == (if Present(p, "time_steps") then p["time_steps"] else DefaultTimeSteps())
      && r["roaming"] == (if Present(p, "roaming") then p["roaming"] else DefaultRoaming())
    ensures forall k :: k in p && !MigratedKey(k) ==> k in r && r[k] == p[k]
  {
    var out := if "save_version" in p && p["save_version"].Number? then p else p["save_version" := Number(0)];
    if out["save_version"] == Number(0) then
      var withClock := if Present(out, "time_steps") then out else out["time_steps" := DefaultTimeSteps()];
      var withRoaming := if Present(withClock, "roaming") then withClock else withClock["roaming" := DefaultRoaming()];
      withRoaming["save_version" := Number(SaveVersion)]
    else out
  }

  /** A migrated payload is at the current version and both migrated sections are truthy. */
  lemma MigratedIsCurrent(p: Payload)
    requires VersionOf(p) == 0
    ensures VersionOf(MigrateSave(p)) == SaveVersion
    ensures Present(MigrateSave(p), "time_steps") && Present(MigrateSave(p), "roaming")
  {
  }

  /** Migrating twice is migrating once. */
  lemma MigrateSaveIdempotent(p: Payload)
    ensures MigrateSave(MigrateSave(p)) == MigrateSave(p)
  {
    if VersionOf(p) == 0 {
      MigratedIsCurrent(p);
    }
  }

  /** `validateSave`: every required top-level key is an own key of the payload. */
  predicate ValidateSave(p: Payload) {
    forall i :: 0 <= i < |Content.ExpectedSaveKeys| ==> Content.ExpectedSaveKeys[i] in p
  }

  /** The required keys, spelled out. */
  lemma ValidateSaveKeys(p: Payload)
    ensures ValidateSave(p) <==>
      && "save_version" in p && "player" in p && "party" in p && "inventory" in p
      && "world_flags" in p && "npc_states" in p && "roaming" in p && "time_steps" in p
  {
    var ks := Content.ExpectedSaveKeys;
    assert ks[0] == "save_version" && ks[1] == "player" && ks[2] == "party" && ks[3] == "inventory";
    assert ks[4] == "world_flags" && ks[5] == "npc_states" && ks[6] == "roaming" && ks[7] == "time_steps";
  }

  /** After migration, only the five keys migration never adds decide validity. */
  lemma ValidateAfterMigrate(p: Payload)
    requires VersionOf(p) == 0
    ensures ValidateSave(MigrateSave(p)) <==>
      "player" in p && "party" in p && "inventory" in p && "world_flags" in p && "npc_states" in p
  {
    ValidateSaveKeys(MigrateSave(p));
  }
}

/** The save-schema script's two fixtures: a current sample and a legacy copy of it. */
module SaveSchemaScript {
  import opened SaveSchema

  function Position(x: int, y: int): Value {
    Object(map["x" := Number(x), "y" := Number(y)])
  }

  /** The script's sample payload at the current version. */
  function Sample(): Payload {
    map[
      "save_version" := Number(SaveVersion),
      "player" := Object(map[
        "position" := Position(0, 0), "tile" := Position(0, 0), "facing" := Text("down"),
        "current_scene" := Text("StartTown_West"),
        "last_safe_spawn" := Object(map["scene" := Text("StartTown_West"), "position" := Position(0, 0)])]),
      "party" := List([]), "inventory" := Object(map[]), "world_flags" := Object(map[]),
      "npc_states" := Object(map[]), "roaming" := Object(map[]), "time_steps" := Object(map[])
    ]
  }

  /** The sample without `save_version`, `time_steps` and `roaming`. */
  function Legacy(): Payload {
    Sample() - {"save_version", "time_steps", "roaming"}
  }

  /** The sample validates, and the migrated legacy payload is at version 1 with both sections. */
  lemma ScriptAssertionsHold()
    ensures ValidateSave(Sample())
    ensures !ValidateSave(Legacy())
    ensures MigrateSave(Legacy())["save_version"] == Number(1)
    ensures Present(MigrateSave(Legacy()), "time_steps") && Present(MigrateSave(Legacy()), "roaming")
    ensures ValidateSave(MigrateSave(Legacy()))
  {
    assert "save_version" !in Legacy();
    ValidateSaveKeys(Sample());
    ValidateSaveKeys(Legacy());
    ValidateAfterMigrate(Legacy());
  }
}
