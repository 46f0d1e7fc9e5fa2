# Hullbound and the scores site, modelled in Dafny

This project models the checked core of two small products that share a repository:

- **Hullbound**, a tile-based creature RPG. The model covers:
  - its content validators: the Python `validate_data.py` and the two Node scripts for creatures, moves, items and encounter tables;
  - the save-payload migration and validation;
  - the game-state rules in `game.js`: the 32-bit linear congruential generator and `intRand`, the weighted encounter roll, the step clock with its autosave, the tile grid and `isBlocked`, battle HP and Chip Spice, save-slot gating, and the scene fallback.
- **The scores site**. The model covers:
  - the fixture logic of `app.js`: ordinal suffixes, fixture keys and identity, merging today's fixtures with the live feed, score parsing, and goal-flash detection;
  - the cron worker that warms league tables and runs the protected jobs;
  - the image proxy's host allow-list and its request gates.

Each source file is a module:

| module | file | source |
|---|---|---|
| `Content` | `content.dfy` | the content model and the rules all validators share |
| `HullRpgValidate` | `hull_rpg_validate.dfy` | `validate_data.py` |
| `WebValidateData` | `web_validate_data.dfy` | `validate_data.mjs` |
| `WebValidateEncounters` | `web_validate_encounters.dfy` | `validate_encounters.mjs` |
| `SaveSchema`, `SaveSchemaScript` | `save_schema.dfy` | the save code in `game.js` and its script copy |
| `Hullbound` | `hullbound.dfy` | `game.js` |
| `Scores` | `scores.dfy` | `app.js` |
| `CronWorker` | `cron_worker.dfy` | `cron/worker.js` |
| `ImageProxy` | `image_proxy.dfy` | `functions/api/image.js` |

`Results` and `Text` are shared helpers:
- `Results` holds `Option` and a pass/fail `Outcome`.
- `Text` holds JavaScript's `trim` and ASCII `toLowerCase`, `split`/`join` on one character, and Python's `sorted` on strings.

The validators stop at the first violation, so each verdict is a specification function that reports the first problem in file order. The loops in the scripts are methods proved equal to those functions. Separately, a verdict passes exactly when the shared content invariant holds. The game's mutable global `state` is the class `Hullbound.GameState`, and the scores page's flash and snapshot maps are the class `Scores.ScoreBoard`.

Each network call, the clock, URL parsing and each event's live status is a parameter of the function or method that uses it.

## Model

| member | source | states |
|---|---|---|
| Content.FirstEntryProblem | hull_rpg/tests/validate_data.py:36-38 | A scene has no bad entry exactly when every entry names a known creature and has min level <= max level; otherwise the problem is that of the first failing entry, every entry before it passing: an unknown creature if its creature is unknown, else its level range |
| Content.EncounterVerdictPassesIffOk | hull_rpg/tests/validate_data.py:31-40 | The first-problem verdict over all scenes passes exactly when every scene's entries are valid and its weight total is positive |
| Content.EmptySceneFails | hull_rpg/tests/validate_data.py:35-40 | A scene with no entries is rejected for its weight total |
| Content.EntryProblemReportedFirst | hull_rpg/tests/validate_data.py:36-40 | A scene with a bad entry is reported for an entry, never for its total |
| Content.VerdictSkipsPassingScenes | hull_rpg/tests/validate_data.py:34-40 | Scenes that pass do not affect the verdict on the scenes after them |
| Content.FirstProblemSkipsGoodEntries | hull_rpg/tests/validate_data.py:36-38 | Entries that pass do not affect the first problem of the entries after them |
| Content.ById | hull_rpg/tests/validate_data.py:45 | The id index has exactly the creatures' ids as keys, each mapped to a creature of the list with that id; the last creature with a given id is the one kept |
| Content.CountLines | hull_rpg/tests/validate_data.py:47-51 | The multi-stage count never exceeds the number of creatures |
| Content.CountLinesZeroIff | hull_rpg/tests/validate_data.py:47-51 | The count is 0 exactly when no creature starts a three-stage line |
| Content.CountLinesAllIff | hull_rpg/tests/validate_data.py:47-51 | The count equals the number of creatures exactly when every creature starts a three-stage line |
| Content.CountLinesSnoc | hull_rpg/tests/validate_data.py:48-51 | One more creature adds one to the count exactly when its target exists and evolves again |
| Content.CountLinesAppend | hull_rpg/tests/validate_data.py:47-51 | Counting lines adds up over concatenation |
| Content.CountLinesIgnoresUnknownTarget | hull_rpg/tests/validate_data.py:50 | A creature evolving into an unknown id never contributes to the count |
| Content.ExpectedSaveKeysAreEight | hull_rpg/tests/validate_data.py:54-58 | The expected save-key list names eight different keys |
| HullRpgValidate.FirstMoveFailure | hull_rpg/tests/validate_data.py:19-22 | No failure exactly when every creature has a move and all its moves are defined; otherwise the failure is that of the first creature without known moves, every creature before it passing |
| HullRpgValidate.MoveFailure | hull_rpg/tests/validate_data.py:20-22 | A creature with no moves fails for that; otherwise the reported move is one of its own moves and is undefined |
| HullRpgValidate.FirstUnknown | hull_rpg/tests/validate_data.py:21-22 | The reported move is the first undefined move of the creature |
| HullRpgValidate.MissingItems | hull_rpg/tests/validate_data.py:23-28 | The missing list is sorted, has no repeats, holds exactly the required items that are absent, and is empty iff every required item exists |
| HullRpgValidate.CheckCreaturesMovesItems | hull_rpg/tests/validate_data.py:14-28 | Passes iff there are 15 creatures, all with known moves, and all required items exist; a wrong count fails with that count; a missing-items failure lists exactly the absent required items, sorted |
| HullRpgValidate.CheckEncounterTables | hull_rpg/tests/validate_data.py:31-40 | The nested loops pass iff the encounter verdict passes, and on failure report the verdict's problem as the script's message |
| HullRpgValidate.CountLinesOfRoots | hull_rpg/tests/validate_data.py:46-51 | Counting only creatures with an `evolves_to` gives the same count as counting all creatures |
| HullRpgValidate.CountChains | hull_rpg/tests/validate_data.py:46-51 | Over creatures that evolve, the loop's tally equals the multi-stage count |
| HullRpgValidate.CheckEvolutionLinesAndSaveSchemaShape | hull_rpg/tests/validate_data.py:43-58 | The loop passes iff at least three creatures start a three-stage line, and fails with the actual count otherwise |
| HullRpgValidate.ValidateAll | hull_rpg/tests/validate_data.py:61-65 | The three checks in order: passes iff all three invariants hold; a creature/move/item failure is reported as is; after it passes, an encounter failure is the verdict's first problem; after both pass, too few lines fails with the actual count |
| WebValidateData.FirstMoveFailure | hullbound_web/tests/validate_data.mjs:10-13 | No failure iff every creature has a move and all its moves are defined; otherwise the failure is that of the first creature without known moves, every creature before it passing |
| WebValidateData.MoveFailure | hullbound_web/tests/validate_data.mjs:11-12 | A creature with no moves fails for that; otherwise the reported move is one of its own moves and is undefined |
| WebValidateData.FirstUnknownMove | hullbound_web/tests/validate_data.mjs:12 | Reports an undefined move of the creature, none iff all are defined |
| WebValidateData.FirstMissingItem | hullbound_web/tests/validate_data.mjs:15-17 | None iff every required item exists; otherwise a required item that is absent |
| WebValidateData.Validate | hullbound_web/tests/validate_data.mjs:7-17 | Passes iff the shared creature/move/item invariant holds; a wrong count is reported with the count |
| WebValidateData.SameMoveFailure | hullbound_web/tests/validate_data.mjs:10-13 | The Node script blames the same creature, and the same move, as the Python check |
| WebValidateData.SameUnknownMove | hullbound_web/tests/validate_data.mjs:12 | The Node script reports the same first undefined move as the Python check |
| WebValidateData.AgreesWithPythonCheck | hullbound_web/tests/validate_data.mjs:7-17 | The Node and Python creature/move/item checks accept exactly the same content |
| WebValidateEncounters.ValidateEncounters | hullbound_web/tests/validate_encounters.mjs:6-14 | The loops pass iff the shared encounter verdict passes and report the same first problem in the script's wording |
| SaveSchema.MigrateSave | hullbound_web/scripts/game.js:573-582 | A payload with a numeric non-zero version is unchanged; a version-0 payload gains exactly the three migrated keys, version 1, and the clock and roaming defaults where those are falsy; every other key is kept |
| SaveSchema.MigratedIsCurrent | hullbound_web/scripts/game.js:573-582 | A migrated legacy payload is at version 1 with truthy clock and roaming sections |
| SaveSchema.MigrateSaveIdempotent | hullbound_web/scripts/game.js:573-582 | Migrating twice is the same as migrating once |
| SaveSchema.ValidateSaveKeys | hullbound_web/scripts/game.js:584-587 | A payload is valid iff it has all eight required keys |
| SaveSchema.ValidateAfterMigrate | hullbound_web/tests/validate_save_schema.mjs:3-17 | After migrating a legacy payload, validity depends only on the five keys migration never adds |
| SaveSchemaScript.ScriptAssertionsHold | hullbound_web/tests/validate_save_schema.mjs:19-33 | The sample validates, the legacy copy does not, and the migrated legacy copy is version 1 with both sections and validates |
| Hullbound.NextSeed | hullbound_web/scripts/game.js:73-76 | The generator state stays a 32-bit unsigned integer |
| Hullbound.ScaledInRange | hullbound_web/scripts/game.js:78-80 | `intRand(min, max)` lands in [min, max] for every 32-bit state |
| Hullbound.FloorOfScaled | hullbound_web/scripts/game.js:78-80 | The floating-point floor of state/2^32 times the range size equals the integer quotient the model uses |
| Hullbound.PickFrom | hullbound_web/scripts/game.js:299-307 | The pick selects the first entry whose running weight sum reaches the pick; no earlier entry does |
| Hullbound.PickSelects | hullbound_web/scripts/game.js:297-307 | A pick in [1, total] always selects an entry |
| Hullbound.PickedWeightPositive | hullbound_web/scripts/game.js:299-307 | The selected entry has a positive weight |
| Hullbound.TablesByScene | hullbound_web/scripts/game.js:294-295 | The index has exactly the file's scene names as keys; every indexed table is one of the file's tables under its own name, and the last table listed for a name is the one kept |
| Hullbound.ValidatedTablesAlwaysYieldEnemy | hullbound_web/scripts/game.js:293-308 | For content that passes the encounter validators, a successful 1-in-18 roll always starts a battle with a known creature at a level inside its entry's range |
| Hullbound.StrikeHp | hullbound_web/scripts/game.js:338-347 | An enemy strike keeps HP in [0, max]; a member whose HP the damage brings to 0 or below is restored to full; otherwise HP drops by exactly the damage |
| Hullbound.Healed | hullbound_web/scripts/game.js:353 | Chip Spice never heals past max HP nor lowers an in-range HP; it heals by exactly 20 when that fits, and to max HP otherwise |
| Hullbound.SaveTarget | hullbound_web/scripts/game.js:589-592 | Autosaves go to slot 0; a manual save is accepted iff the slot is 1, 2 or 3 and goes to that slot |
| Hullbound.SceneSpawn | hullbound_web/scripts/game.js:446-452 | A known scene keeps its position; any other falls back to StartTown_West at (160, 160) |
| Hullbound.SceneMap.constructor | hullbound_web/scripts/game.js:92-96 | A new map has every base cell set to the base tile and an empty overlay |
| Hullbound.SceneMap.IsBlocked | hullbound_web/scripts/game.js:198-207 | Off-grid positions block; otherwise a position blocks iff its base tile or its overlay tile is water, rail or storefront |
| Hullbound.NegativePositionBlocked | hullbound_web/scripts/game.js:198-201 | Any position left of or above the map is blocked |
| Hullbound.MakeGrid | hullbound_web/scripts/game.js:82-84 | A fresh 20 by 30 grid with every cell set to the fill value |
| Hullbound.FillRect | hullbound_web/scripts/game.js:86-90 | Exactly the cells of the inclusive rectangle get the tile; every other cell is unchanged |
| Hullbound.GameState.constructor | hullbound_web/scripts/game.js:13-38 | The initial state: seed 777, clock 08:00, no steps, the start scene, the seeded party and inventory, and Ronnie last seen at -100000 hours, so he is due in the start scene |
| Hullbound.GameState.Lcg | hullbound_web/scripts/game.js:73-76 | Advances the seed by the generator and returns it as a fraction in [0, 1) |
| Hullbound.GameState.IntRand | hullbound_web/scripts/game.js:78-80 | One generator step, scaled into [min, max] |
| Hullbound.GameState.StartBattle | hullbound_web/scripts/game.js:310-313 | Opens the battle against the given enemy |
| Hullbound.SumWeights | hullbound_web/scripts/game.js:298-299 | The weight total is the sum of the table's weights |
| Hullbound.PickEntry | hullbound_web/scripts/game.js:300-307 | The walk stops at the first entry whose running weight reaches the pick, or at none |
| Hullbound.GameState.TryEncounter | hullbound_web/scripts/game.js:293-308 | Without encounters or a table nothing changes; otherwise the seed and the battle follow the specification roll exactly |
| Hullbound.GameState.EnemyTurn | hullbound_web/scripts/game.js:338-347 | The lead member's HP becomes the strike result; a knock-out ends the battle, anything else leaves it open |
| Hullbound.GameState.BattleItem | hullbound_web/scripts/game.js:349-359 | With Chip Spice one is used, the lead is healed and struck, and a knock-out of the healed lead ends the battle while anything else leaves it as it was; without Chip Spice nothing changes |
| Hullbound.GameState.SaveGame | hullbound_web/scripts/game.js:589-595 | Returns whether a slot was accepted and records a write to that slot only then |
| Hullbound.GameState.AdvanceClock | hullbound_web/scripts/game.js:240-246 | One step is counted and the time of day advances by two minutes modulo a day, staying a valid clock |
| Hullbound.GameState.OnTileChange | hullbound_web/scripts/game.js:238-248 | A tile change counts a step, advances the clock, autosaves to slot 0 every 40th step, and rolls an encounter; without encounters the seed and battle are unchanged, a roll without an enemy leaves the battle unchanged; party, inventory, scene, position and Ronnie are untouched |
| Hullbound.GameState.MaybeAddRonnie | hullbound_web/scripts/game.js:189-196 | Outside his two scenes, or within 24 game hours of the last meeting, the seed is untouched and Ronnie is absent; otherwise one generator step is taken and he is present iff the draw is below 0.33 |
| Hullbound.GameState.ChangeScene | hullbound_web/scripts/game.js:446-459 | The player lands on the spawn the fallback rule gives, on the matching tile; building the new scene's map takes the Ronnie draw exactly when he is due there |
| Hullbound.GameState.MeetRonnie | hullbound_web/scripts/game.js:282-289 | Meeting Ronnie records the current game hour and removes him; he is then due in no scene |
| Scores.ParseDecimalDigits | app.js:461-470 | The decimal text of a number reads back as that number |
| Scores.Ordinal | app.js:461-464 | A missing or non-finite value gives ""; a number gives its text followed by its suffix |
| Scores.OrdinalSuffixRule | app.js:465-469 | For non-negative numbers: st, nd, rd for last digit 1, 2, 3 except 11, 12, 13; th otherwise |
| Scores.OrdinalSuffixPeriodic | app.js:465-469 | The suffix repeats every hundred |
| Scores.NegativeOrdinalIsTh | app.js:465-469 | JavaScript's truncating `%` gives every negative number "th" |
| Scores.FixtureKey | app.js:866-872 | No event gives ""; an event with an id gets "id:" and the id; any other gets an "m:" match key |
| Scores.IsSameFixtureSymmetric | app.js:855-864 | Fixture identity is symmetric, and every event is its own fixture |
| Scores.FixtureKeyMatchesSameFixture | app.js:855-872 | For events with ids, equal keys and same fixture mean the same thing |
| Scores.MatchKeyIgnoresCaseAndSpaces | app.js:866-872 | Id-less events with the same date and the same team names up to case and surrounding white space share a key |
| Scores.NameMatchedFixturesShareKey | app.js:855-872 | Id-less events that are the same fixture by team names, with the same date, share a key |
| Scores.IdKeysDifferFromMatchKeys | app.js:866-872 | An event with an id never shares a key with one without |
| Scores.NumericScore | app.js:874-878 | A score exists exactly when the field holds a finite number |
| Scores.GetScorePair | app.js:880-885 | A pair exists exactly when both scores exist, and holds both |
| Scores.Override | app.js:284 | The live event's id and home score replace today's when the live event has them, and today's are kept otherwise |
| Scores.OverrideOtherFields | app.js:284 | The same spread rule for the date, both team names, both team ids and the away score: the live value wins when present, today's is kept otherwise |
| Scores.Dedup | app.js:274-288 | Each key once, nothing added or lost |
| Scores.DedupPrefix | app.js:274-288 | Keys first seen in today's list come first, in their order |
| Scores.IndexToday | app.js:276-279 | Today's events are filed once per key in first-seen order, each key holding its last event |
| Scores.IndexLive | app.js:281-285 | Each live event is spread over what its key holds; new keys go at the end |
| Scores.MergeTodayWithLive | app.js:274-288 | One event per distinct key in first-seen order, each equal to today's last event for the key with every live event for it spread over it |
| Scores.TodayOnlyKeyKeepsEvent | app.js:274-288 | A key only today's list has keeps today's event unchanged |
| Scores.SharedKeyPrefersLive | app.js:281-285 | A key with one live event gets today's event overlaid by the live fields |
| Scores.Scorer | app.js:916-921 | The side whose score rose more is credited; a tie gives "Goal Update" |
| Scores.Unexpired | app.js:890-894 | Exactly the flashes that expire after now are kept, unchanged |
| Scores.SnapshotKeys | app.js:897-905 | The next snapshot has exactly the keys of the events with both scores |
| Scores.FlashesAllUnexpired | app.js:887-932 | After detection every flash is still showing |
| Scores.FlashOnlyOnGoal | app.js:899-928 | A flash appears or changes only for a live, previously seen event whose total score rose; it lasts 7000 ms and is not forced |
| Scores.GoalFlashShows | app.js:907-928 | A live, previously seen event whose total rose, with no later goal for the same fixture in the pool, leaves that fixture's flash naming the scorer and the new score, expiring 7000 ms after now, not forced |
| Scores.ScoreBoard.PruneExpired | app.js:890-894 | The prune loop leaves exactly the unexpired flashes |
| Scores.ScoreBoard.DetectGoalFlashes | app.js:887-932 | The snapshot is replaced by the pool's snapshot and the flashes are the pruned ones updated per goal; every flash is still showing |
| CronWorker.SplitCsv | cron/worker.js:3-8 | Entries are non-empty, trimmed and comma-free |
| CronWorker.SplitCsvOfNothing | cron/worker.js:3-8 | An unset or empty value lists nothing |
| CronWorker.SplitCsvOfJoin | cron/worker.js:3-8 | Comma-free entries written with commas are read back trimmed, blank ones dropped, the others in order |
| CronWorker.SplitCsvOfNonBlankJoin | cron/worker.js:3-8 | Comma-free entries that are not blank are all read back, each trimmed |
| CronWorker.BlankEntryDropped | cron/worker.js:3-8 | Removing an entry that trims to nothing from comma-joined entries leaves the read-back list unchanged |
| CronWorker.SplitCsvOfCleanJoin | cron/worker.js:3-8 | Non-empty, trimmed, comma-free entries are read back exactly |
| CronWorker.NormalizeBase | cron/worker.js:10-14 | The result is the trimmed configured base with its trailing slash run removed, and never ends in a slash |
| CronWorker.NormalizeBaseDefault | cron/worker.js:10-14 | An unset or empty base gives the public site URL |
| CronWorker.NormalizeBaseDropsSlashes | cron/worker.js:10-14 | Any number of trailing slashes after a clean base are dropped |
| CronWorker.Leagues | cron/worker.js:1-18 | The configured list when it lists something, else the two default leagues; never empty |
| CronWorker.WarmTables | cron/worker.js:16-64 | One result per league in order, ok iff every league's request answered 2xx |
| CronWorker.RunProtectedCron | cron/worker.js:66-98 | Ok iff the request answered 2xx; a thrown request has status 0 |
| CronWorker.RunJobs | cron/worker.js:100-113 | Ok iff the warm-up and both protected jobs are ok |
| CronWorker.Fetch | cron/worker.js:121-131 | "/health" answers without running jobs; any other path reports 200 iff the jobs are ok, 502 otherwise |
| CronWorker.FetchSucceedsIffEveryRequestOk | cron/worker.js:100-131 | The report is 200 exactly when every league and both jobs answered 2xx |
| CronWorker.DefaultLeagueFailureFails | cron/worker.js:16-128 | With no leagues configured, a failing default league makes the run 502 |
| ImageProxy.AllowedHostIsDomainOrSubdomain | functions/api/image.js:1-8 | A host is allowed iff, lower-cased, it is thesportsdb.com preceded by nothing or by a name ending in a dot |
| ImageProxy.AllowedIgnoresCase | functions/api/image.js:2 | Letter case never changes the verdict |
| ImageProxy.LookalikeHostsRefused | functions/api/image.js:1-8 | Hosts that only contain the domain, and a missing host, are refused; mixed-case www is allowed |
| ImageProxy.StatusOf | functions/api/image.js:12-53 | The gate replies carry 405, 400, 403 and 415 |
| ImageProxy.OnRequest | functions/api/image.js:10-67 | Each gate's own reply: 405 for a non-GET, 400 "Missing image url", 400 "Invalid image url", 400 "Unsupported protocol", 403 for a disallowed host; then a cache hit; then a thrown fetch rejects, a non-2xx answer is passed on with its status, a non-image type gets 415, and a 2xx image is served with the cache policy; only that is stored |
| ImageProxy.OnlyGatedRequestsReachUpstream | functions/api/image.js:10-44 | The cache or the upstream is consulted exactly when the request is a GET for an http(s) URL on an allowed host |
| ImageProxy.GateFailuresAreClientErrors | functions/api/image.js:10-33 | A request that fails a gate gets 400, 403 or 405, whatever the cache and upstream hold |

## Left out

- Rendering, audio, input handling, the DOM, `localStorage` contents, the network and timers are not modelled. Their effects are parameters, or recorded events (saved slots, stored responses).
- Player movement in `update`, `checkGate`, dialogue and `buildScene`'s scene layouts are left out. They are floating-point motion and hand-written content, not rules. Only the tile-change consequences are modelled: the step count, the clock, the autosave and the encounter roll. Of `maybeAddRonnie`, the model keeps the generator draw and whether Ronnie stands in the map, not his position or sprite.
- Hullbound.GameState.constructor: the seed 777 is the value before `start` enters the first scene; that first `changeScene` already takes the Ronnie draw.
- `battleMove`, `battleRun` and `typeMultiplier` are left out. They need the move and type charts from the content files.
- `loadGame` is left out. It is `migrateSave` and `validateSave` (both modelled) followed by field copies and `changeScene` (modelled).
- Hullbound.GameState.StartBattle: does not compute the enemy HP `base_hp + level * 3`, because creature stats are not part of the content model.
- Hullbound.GameState.EnemyTurn: proves the HP bounds only when the enemy level is at least -10, so that the damage is not negative. The content validators do not rule out lower levels.
- Hullbound.GameState.BattleItem: has the same restriction as EnemyTurn.
- `endBattle` closes the battle after a 500 ms timer. The model closes it at once.
- Encounter weights, levels and scores are modelled as integers only. Left out: fractional weights (Python's `int()` truncates them, Node adds them as floats); string weights (Python's `int()` parses them, Node's `+=` concatenates them into a string); missing weights (Python raises `KeyError`, Node's sum becomes `NaN`, which passes `total <= 0`).
- Encounter scenes are visited in file order. Node's `Object.entries` visits integer-like keys first, in numeric order; Hullbound's scene names are never integer-like, so this order is left out.
- `intRand` is exact only for ranges below 2^21, where the double product cannot round. Every range the game uses is far smaller.
- Missing `moves` are modelled as an empty list, which every validator rejects. A missing or null `evolves_to` is modelled as "". A missing one makes the Python script raise `KeyError` (validate_data.py:46, 50), while the model reads it as "" and accepts the content. A null one is falsy there, as "" is in the model, so both treat it as no evolution.
- `validateSave`'s `payload &&` guard against a null payload is left out. Payloads are always objects in the model.
- `toLowerCase` is modelled on ASCII letters only. Characters outside ASCII keep their case.
- Scores.NumericScore: takes the result of JavaScript's `Number()` conversion as given, since string-to-number parsing is not modelled.
- Scores.ScoreBoard.DetectGoalFlashes: the pool is given as one list. The concatenation of the two leagues' fixture lists, and `eventState`, which decides `isLive`, are parameters.
- Scores.FixtureKey: the `!key` check is not modelled. A present event's key is never empty, as the contract shows.
- CronWorker.WarmTables, CronWorker.RunProtectedCron: omit the timestamp, the response headers and bodies, and the URL encoding of league ids.
- ImageProxy.OnRequest: URL parsing, the cache lookup and the upstream fetch are parameters. Response bodies and the `X-EZRA-Cache` header are not modelled. A thrown fetch is the reply `Rejected`; the status the hosting runtime then sends is not modelled.
