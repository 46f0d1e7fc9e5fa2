/**
 * The browser game's state rules: the 32-bit linear congruential generator and `intRand`,
 * the weighted encounter pick, the step clock, the tile grid and blocking, battle HP and
 * inventory updates, save-slot gating and the scene fallback.
 */
module Hullbound {
  import opened Results
  import Content

  const TileSize: int := 32
  const Width: int := 30
  const Height: int := 20

  /** 2^32: the generator's state is a 32-bit unsigned integer. */
  const Modulus: int := 0x1_0000_0000

  const MinutesPerDay: int := 1440

  /** `blockedTiles`: the tiles a player cannot walk onto. */
  datatype Tile = Grass | Water1 | Water2 | Board | Cobble | Brick | Mall1 | Mall2 | Rail | Escalator | Sign | Storefront

  predicate BlocksMovement(t: Tile) {
    t == Water1 || t == Water2 || t == Rail || t == Storefront
  }

  // ---------------------------------------------------------------------------------------
  // Random numbers

  /**
   * `(seed * 1664525 + 1013904223) >>> 0`. For a 32-bit seed the product stays below 2^53,
   * so the double arithmetic is exact and `>>> 0` reduces it modulo 2^32.
   */
  function NextSeed(seed: int): (r: int)
    ensures 0 <= r < Modulus
  {
    (seed * 1664525 + 1013904223) % Modulus
  }

  /** `Math.floor(seed / 2^32 * (max - min + 1)) + min`, computed on integers. */
  function Scaled(seed: int, min: int, max: int): int {
    min + (seed * (max - min + 1)) / Modulus
  }

  /** `intRand(min, max)` lands in `[min, max]` whenever the range is not empty. */
  lemma ScaledInRange(seed: int, min: int, max: int)
    requires 0 <= seed < Modulus && min <= max
    ensures min <= Scaled(seed, min, max) <= max
  {
    var k := max - min + 1;
    var n := seed * k;
    assert 0 <= n;
    assert n < Modulus * k by {
      assert (Modulus - seed) * k > 0;
    }
    var q := n / Modulus;
    assert q * Modulus <= n;
  }

  /** The floating-point form of `intRand` equals the integer form above. */
  lemma {:induction false} FloorOfScaled(seed: int, k: int)
    requires 0 <= seed
    ensures ((seed as real / Modulus as real) * k as real).Floor == (seed * k) / Modulus
  {
    var n := seed * k;
    var q := n / Modulus;
    var rem := n % Modulus;
    assert n == q * Modulus + rem && 0 <= rem < Modulus;
    var x := (seed as real / Modulus as real) * k as real;
    assert x == n as real / Modulus as real;
    assert n as real / Modulus as real == q as real + rem as real / Modulus as real;
    assert 0.0 <= rem as real / Modulus as real < 1.0;
  }

  /** An enemy a battle is fought against. */
  datatype Enemy = Enemy(creature: string, level: int, trainer: bool)

  /** Position `k`'s cumulative weight reaches the pick (`pick -= t.weight` has brought it to 0 or below). */
  predicate Reaches(table: seq<Content.EncounterEntry>, pick: int, k: nat)
    requires k < |table|
  {
    pick - Content.TotalWeight(table[..k + 1]) <= 0
  }

  /** The first position from `j` on whose cumulative weight reaches `pick`. */
  function PickFrom(table: seq<Content.EncounterEntry>, pick: int, j: nat): (r: Option<nat>)
    requires j <= |table|
    ensures r.Some? ==> j <= r.value < |table| && Reaches(table, pick, r.value)
    ensures r.Some? ==> forall k :: j <= k < r.value ==> !Reaches(table, pick, k)
    ensures r.None? ==> forall k :: j <= k < |table| ==> !Reaches(table, pick, k)
    decreases |table| - j
  {
    if j == |table| then None
    else if Reaches(table, pick, j) then Some(j)
    else PickFrom(table, pick, j + 1)
  }

  /** With a pick in `[1, total]`, some entry is always selected. */
  lemma PickSelects(table: seq<Content.EncounterEntry>, pick: int)
    requires 1 <= pick <= Content.TotalWeight(table)
    ensures PickFrom(table, pick, 0).Some?
  {
    if table != [] {
      assert table[..|table|] == table;
      assert Reaches(table, pick, |table| - 1);
    }
  }

  /** The selected entry always carries a positive weight. */
  lemma PickedWeightPositive(table: seq<Content.EncounterEntry>, pick: int)
    requires 1 <= pick && PickFrom(table, pick, 0).Some?
    ensures table[PickFrom(table, pick, 0).value].weight > 0
  {
    var i := PickFrom(table, pick, 0).value;
    assert table[..i + 1][..i] == table[..i];
    assert Content.TotalWeight(table[..i + 1]) == Content.TotalWeight(table[..i]) + table[i].weight;
    if i > 0 {
      assert !Reaches(table, pick, i - 1);
      assert table[..i - 1 + 1] == table[..i];
    } else {
      assert table[..0] == [];
    }
  }

  /** The weight total `tryEncounter` sums before drawing a pick. */
  method SumWeights(table: seq<Content.EncounterEntry>) returns (total: int)
    ensures total == Content.TotalWeight(table)
  {
    total := 0;
    for j := 0 to |table|
      invariant total == Content.TotalWeight(table[..j])
    {
      assert table[..j + 1][..j] == table[..j];
      total := total + table[j].weight;
    }
    assert table[..|table|] == table;
  }

  /** The walk `tryEncounter` makes over the table, subtracting weights until the pick is used up. */
  method PickEntry(table: seq<Content.EncounterEntry>, pick0: int) returns (found: Option<nat>)
    ensures found == PickFrom(table, pick0, 0)
  {
    var pick := pick0;
    for j := 0 to |table|
      invariant pick == pick0 - Content.TotalWeight(table[..j])
      invariant PickFrom(table, pick0, 0) == PickFrom(table, pick0, j)
    {
      assert table[..j + 1][..j] == table[..j];
      pick := pick - table[j].weight;
      if pick <= 0 {
        return Some(j);
      }
    }
    return None;
  }

  /** The generator state after a roll, and the enemy met, if any. */
  datatype Roll = Roll(seed: int, enemy: Option<Enemy>)

  /** `tryEncounter` for a scene with a table: a 1-in-18 roll, a weighted pick, then a level roll. */
  function EncounterRoll(seed: int, table: seq<Content.EncounterEntry>): Roll {
    var s1 := NextSeed(seed);
    if Scaled(s1, 1, 18) != 1 then Roll(s1, None)
    else
      var s2 := NextSeed(s1);
      match PickFrom(table, Scaled(s2, 1, Content.TotalWeight(table)), 0)
      case None => Roll(s2, None)
      case Some(i) =>
        var s3 := NextSeed(s2);
        Roll(s3, Some(Enemy(table[i].creature, Scaled(s3, table[i].minLevel, table[i].maxLevel), false)))
  }

  /** The encounter tables as the game indexes them: by scene name, a later scene entry winning. */
  function TablesByScene(scenes: seq<Content.Scene>): (m: map<string, seq<Content.EncounterEntry>>)
    ensures forall s :: s in m ==> exists i :: 0 <= i < |scenes| && scenes[i] == (s, m[s])
    ensures forall i :: 0 <= i < |scenes| ==> scenes[i].0 in m
    ensures forall i :: 0 <= i < |scenes| && LastOfName(scenes, i) ==> m[scenes[i].0] == scenes[i].1
  {
    if scenes == [] then map[]
    else
      var init := scenes[..|scenes| - 1];
      var last := scenes[|scenes| - 1];
      var m := TablesByScene(init);
      TablesIndexStep(scenes, m);
      m[last.0 := last.1]
  }

  /** Indexing one more scene entry keeps the three facts `TablesByScene` states. */
  lemma TablesIndexStep(scenes: seq<Content.Scene>, m: map<string, seq<Content.EncounterEntry>>)
    requires |scenes| > 0
    requires var init := scenes[..|scenes| - 1];
      && (forall s :: s in m ==> exists i :: 0 <= i < |init| && init[i] == (s, m[s]))
      && (forall i :: 0 <= i < |init| ==> init[i].0 in m)
      && (forall i :: 0 <= i < |init| && LastOfName(init, i) ==> m[init[i].0] == init[i].1)
    ensures var m' := m[scenes[|scenes| - 1].0 := scenes[|scenes| - 1].1];
      && (forall s :: s in m' ==> exists i :: 0 <= i < |scenes| && scenes[i] == (s, m'[s]))
      && (forall i :: 0 <= i < |scenes| ==> scenes[i].0 in m')
      && (forall i :: 0 <= i < |scenes| && LastOfName(scenes, i) ==> m'[scenes[i].0] == scenes[i].1)
  {
    var init, last := scenes[..|scenes| - 1], scenes[|scenes| - 1];
    var m' := m[last.0 := last.1];
    forall s | s in m' ensures exists i :: 0 <= i < |scenes| && scenes[i] == (s, m'[s]) {
      if s == last.0 {
        assert scenes[|scenes| - 1] == (s, m'[s]);
      } else {
        var i :| 0 <= i < |init| && init[i] == (s, m[s]);
        assert scenes[i] == init[i];
      }
    }
    forall i | 0 <= i < |scenes| ensures scenes[i].0 in m' {
      if i < |init| {
        assert scenes[i] == init[i];
      }
    }
    forall i | 0 <= i < |scenes| && LastOfName(scenes, i) ensures m'[scenes[i].0] == scenes[i].1 {
      if i < |init| {
        assert scenes[i] == init[i];
        assert scenes[|scenes| - 1].0 != scenes[i].0;
        assert LastOfName(init, i) by {
          forall j | i < j < |init| ensures init[j].0 != init[i].0 {
            assert init[j] == scenes[j];
          }
        }
      }
    }
  }

  /** No later entry of `scenes` has the same name as entry `i`. */
  predicate LastOfName<T>(scenes: seq<(string, T)>, i: nat)
    requires i < |scenes|
  {
    forall j :: i < j < |scenes| ==> scenes[j].0 != scenes[i].0
  }

  /**
   * Content that passes the encounter validators makes every triggered roll start a battle
   * with a known creature at a level inside the entry's range.
   */
  lemma ValidatedTablesAlwaysYieldEnemy(creatureIds: set<string>, scenes: seq<Content.Scene>, scene: string, seed: int)
    requires Content.EncounterTablesOk(creatureIds, scenes)
    requires scene in TablesByScene(scenes)
    requires Scaled(NextSeed(seed), 1, 18) == 1
    ensures EncounterRoll(seed, TablesByScene(scenes)[scene]).enemy.Some?
    ensures EncounterRoll(seed, TablesByScene(scenes)[scene]).enemy.value.creature in creatureIds
    ensures exists e :: (e in TablesByScene(scenes)[scene] && e.weight > 0
      && e.creature == EncounterRoll(seed, TablesByScene(scenes)[scene]).enemy.value.creature
      && e.minLevel <= EncounterRoll(seed, TablesByScene(scenes)[scene]).enemy.value.level <= e.maxLevel)
  {
    var table := TablesByScene(scenes)[scene];
    var i :| 0 <= i < |scenes| && scenes[i] == (scene, table);
    assert Content.SceneOk(table, creatureIds);
    var s2 := NextSeed(NextSeed(seed));
    var pick := Scaled(s2, 1, Content.TotalWeight(table));
    ScaledInRange(s2, 1, Content.TotalWeight(table));
    PickSelects(table, pick);
    PickedWeightPositive(table, pick);
    var j := PickFrom(table, pick, 0).value;
    assert table[j] in table;
    var s3 := NextSeed(s2);
    ScaledInRange(s3, table[j].minLevel, table[j].maxLevel);
  }

  /** `lcg() < 0.33` after the step that gave `seed`; no seed lies between 0.33 and its nearest double, so the exact comparison agrees. */
  predicate RonnieDrawn(seed: int) {
    seed as real / Modulus as real < 0.33
  }

  /** Whether the current scene rolls encounters at all. */
  predicate EncountersPossible(encounterEnabled: bool, tables: map<string, seq<Content.EncounterEntry>>, scene: string) {
    encounterEnabled && scene in tables
  }

  // ---------------------------------------------------------------------------------------
  // Battle arithmetic

  /** `enemyTurn`'s damage: `5 + Math.floor(level / 2)`. */
  function Damage(level: int): int {
    5 + level / 2
  }

  /** HP after an enemy strike (`Math.max(0, hp - dmg)`), with a knocked-out member restored to full. */
  function StrikeHp(hp: int, maxHp: int, level: int): (r: int)
    ensures 0 <= hp <= maxHp && Damage(level) >= 0 ==> 0 <= r <= maxHp
    ensures r == 0 ==> maxHp == 0
    ensures hp - Damage(level) > 0 ==> r == hp - Damage(level)
    ensures hp - Damage(level) <= 0 ==> r == maxHp
  {
    var left := if hp - Damage(level) > 0 then hp - Damage(level) else 0;
    if left <= 0 then maxHp else left
  }

  /** A strike knocks the member out exactly when the damage uses up its HP. */
  predicate KnocksOut(hp: int, level: int) {
    hp - Damage(level) <= 0
  }

  /** `Math.min(p.max_hp, p.hp + 20)`: Chip Spice heals 20, never past the maximum. */
  function Healed(hp: int, maxHp: int): (r: int)
    ensures r <= maxHp
    ensures hp <= maxHp ==> hp <= r
    ensures hp + 20 <= maxHp ==> r == hp + 20
    ensures hp + 20 >= maxHp ==> r == maxHp
  {
    if hp + 20 < maxHp then hp + 20 else maxHp
  }

  /** How many Chip Spice the inventory holds (`inventory.chip_spice || 0`). */
  function ChipSpice(inventory: map<string, int>): int {
    if "chip_spice" in inventory then inventory["chip_spice"] else 0
  }

  /** A party member's battle-relevant fields. */
  datatype PartyMember = PartyMember(creatureId: string, hp: int, maxHp: int, xp: int)

  // ---------------------------------------------------------------------------------------
  // Saving and scenes

  /** The slot `saveGame` writes: slot 0 for autosaves, a manual slot 1..3, otherwise none. */
  function SaveTarget(slot: int, autosave: bool): (r: Option<int>)
    ensures autosave ==> r == Some(0)
    ensures !autosave ==> (r.Some? <==> 1 <= slot <= 3)
    ensures r.Some? ==> 0 <= r.value <= 3 && (!autosave ==> r.value == slot)
  {
    var target := if autosave then 0 else slot;
    if !autosave && (target < 1 || target > 3) then None else Some(target)
  }

  /** The scenes `changeScene` accepts. */
  const ValidScenes: seq<string> := [
    "StartTown_West", "Route01_MarinaEdge", "Route02_FoundersLane", "TrialHall_West",
    "PrincesQuay_Exterior", "PrincesQuay_TopDeck", "PrincesQuay_Interior"
  ]

  /** A destination: an unknown scene falls back to the start town's default spawn. */
  datatype Spawn = Spawn(scene: string, x: real, y: real)

  function SceneSpawn(scene: string, x: real, y: real): (r: Spawn)
    ensures r.scene in ValidScenes
    ensures scene in ValidScenes ==> r == Spawn(scene, x, y)
    ensures scene !in ValidScenes ==> r == Spawn("StartTown_West", 160.0, 160.0)
  {
    if scene in ValidScenes then Spawn(scene, x, y) else Spawn("StartTown_West", (5 * TileSize) as real, (5 * TileSize) as real)
  }

  /** `Math.floor(p / TILE)`. */
  function TileOf(p: real): int {
    (p / TileSize as real).Floor
  }

  // ---------------------------------------------------------------------------------------
  // The tile grid

  /** A scene's two tile layers: the base layer and the optional overlay. */
  class SceneMap {
    var layer0: array2<Tile>
    var layer1: array2<Option<Tile>>

    ghost predicate Valid()
      reads this
    {
      && layer0.Length0 == Height && layer0.Length1 == Width
      && layer1.Length0 == Height && layer1.Length1 == Width
    }

    /** `baseMap`: every base cell holds `base` and the overlay is empty. */
    constructor (base: Tile)
      ensures Valid() && fresh(layer0) && fresh(layer1)
      ensures forall y, x :: 0 <= y < Height && 0 <= x < Width ==> layer0[y, x] == base && layer1[y, x] == None
    {
      var base0 := MakeGrid(base);
      var top := MakeGrid(None);
      layer0, layer1 := base0, top;
    }

    /** `isBlocked`: off-grid positions block, and so does a blocking base or overlay tile. */
    function IsBlocked(px: real, py: real): (r: bool)
      reads this, layer0, layer1
      requires Valid()
      ensures !(0 <= TileOf(px) < Width && 0 <= TileOf(py) < Height) ==> r
      ensures 0 <= TileOf(px) < Width && 0 <= TileOf(py) < Height ==>
        (r <==> BlocksMovement(layer0[TileOf(py), TileOf(px)])
                || (layer1[TileOf(py), TileOf(px)].Some? && BlocksMovement(layer1[TileOf(py), TileOf(px)].value)))
    {
      var tx := TileOf(px);
      var ty := TileOf(py);
      if tx < 0 || ty < 0 || tx >= Width || ty >= Height then true
      else
        var base := layer0[ty, tx];
        var top := layer1[ty, tx];
        if BlocksMovement(base) then true
        else top.Some? && BlocksMovement(top.value)
    }
  }

  /** Positions left of or above the map are blocked, whatever the tiles. */
  lemma NegativePositionBlocked(m: SceneMap, px: real, py: real)
    requires m.Valid() && (px < 0.0 || py < 0.0)
    ensures m.IsBlocked(px, py)
  {
    if px < 0.0 {
      assert px / TileSize as real < 0.0;
    } else {
      assert py / TileSize as real < 0.0;
    }
  }

  /** `makeGrid`: a fresh HEIGHT x WIDTH grid filled with one tile. */
  method MakeGrid<T>(fill: T) returns (g: array2<T>)
    ensures fresh(g) && g.Length0 == Height && g.Length1 == Width
    ensures forall y, x :: 0 <= y < Height && 0 <= x < Width ==> g[y, x] == fill
  {
    g := new T[Height, Width]((y, x) => fill);
  }

  /** `fillRect`: writes `tile` to exactly the cells with y0 <= y <= y1 and x0 <= x <= x1. */
  method FillRect<T>(layer: array2<T>, x0: int, y0: int, x1: int, y1: int, tile: T)
    requires 0 <= y0 && y1 < layer.Length0 && 0 <= x0 && x1 < layer.Length1
    modifies layer
    ensures forall y, x :: 0 <= y < layer.Length0 && 0 <= x < layer.Length1 ==>
      layer[y, x] == if y0 <= y <= y1 && x0 <= x <= x1 then tile else old(layer[y, x])
  {
    var y := y0;
    while y <= y1
      invariant y == y0 || y0 <= y <= y1 + 1
      invariant forall r, c :: 0 <= r < layer.Length0 && 0 <= c < layer.Length1 ==>
        layer[r, c] == if y0 <= r < y && x0 <= c <= x1 then tile else old(layer[r, c])
    {
      var x := x0;
      while x <= x1
        invariant x == x0 || x0 <= x <= x1 + 1
        invariant forall r, c :: 0 <= r < layer.Length0 && 0 <= c < layer.Length1 ==>
          layer[r, c] == if (y0 <= r < y && x0 <= c <= x1) || (r == y && x0 <= c < x) then tile else old(layer[r, c])
      {
        layer[y, x] := tile;
        x := x + 1;
      }
      y := y + 1;
    }
  }

  // ---------------------------------------------------------------------------------------
  // The game state

  /** The parts of the global `state` object these rules update. */
  class GameState {
    var rngSeed: int
    var stepCounter: int
    var totalSteps: int
    var clockHours: int
    var clockMinutes: int
    var party: seq<PartyMember>
    var inventory: map<string, int>
    var battleOpen: bool
    var enemy: Option<Enemy>
    var sceneName: string
    var playerX: real
    var playerY: real
    var tileX: int
    var tileY: int
    /** The localStorage slots written so far, oldest first. */
    var savedSlots: seq<int>
    /** `npcStates.ronnie_last_seen`, in game hours. */
    var ronnieLastSeen: int
    /** The current map has Ronnie standing in it. */
    var ronnieHere: bool

    /** The seed is 32-bit, the clock is a time of day, and every member's HP is in range. */
    ghost predicate Valid()
      reads this
    {
      && 0 <= rngSeed < Modulus
      && 0 <= clockMinutes < 60 && 0 <= clockHours < 24
      && forall i :: 0 <= i < |party| ==> 0 <= party[i].hp <= party[i].maxHp
    }

    /** Minutes since midnight on the game clock. */
    ghost function MinuteOfDay(): int
      reads this
    {
      clockHours * 60 + clockMinutes
    }

    /** `gameHoursTotal`: the clock's hour plus one hour per 30 steps taken (`Math.floor`, which `/` matches for a positive divisor). */
    function GameHoursTotal(): int
      reads this
    {
      clockHours + totalSteps / 30
    }

    /** Ronnie may turn up in `scene`: one of the two scenes he visits, 24 game hours or more after he was last met. */
    predicate RonnieDue(scene: string)
      reads this
    {
      (scene == "StartTown_West" || scene == "Route02_FoundersLane") && GameHoursTotal() - ronnieLastSeen >= 24
    }

    /**
     * The initial `state`, with the party and inventory `seedInitialState` gives. The seed is
     * the one before `start` enters the first scene, which may draw for Ronnie.
     */
    constructor ()
      ensures Valid()
      ensures rngSeed == 777 && stepCounter == 0 && totalSteps == 0 && clockHours == 8 && clockMinutes == 0
      ensures party == [PartyMember("spratlet", 40, 40, 0)] && !battleOpen && enemy == None
      ensures sceneName == "StartTown_West" && savedSlots == []
      ensures ChipSpice(inventory) == 3
      ensures ronnieLastSeen == -100000 && !ronnieHere && RonnieDue("StartTown_West")
    {
      rngSeed, stepCounter, totalSteps, clockHours, clockMinutes := 777, 0, 0, 8, 0;
      party := [PartyMember("spratlet", 40, 40, 0)];
      inventory := map[
        "chip_spice" := 3, "pattie_bun" := 1, "fog_lantern" := 1, "dock_rope" := 1, "fair_token" := 2,
        "marina_pass" := 0, "founders_key" := 0, "silt_vial" := 1, "traffic_cone" := 2, "hull_fc_scarf" := 1,
        "hull_kr_badge" := 1, "quay_map" := 1, "tram_ticket" := 1, "bridge_pin" := 1, "seaglass" := 2,
        "market_tea" := 2, "dock_battery" := 1, "canal_chalk" := 1, "cinema_stub" := 0, "meeting_token" := 0];
      battleOpen, enemy := false, None;
      sceneName := "StartTown_West";
      playerX, playerY := 160.0, 160.0;
      tileX, tileY := 5, 5;
      savedSlots := [];
      ronnieLastSeen, ronnieHere := -100000, false;
    }

    /** `lcg`: advances the seed and returns it as a fraction of 2^32. */
    method Lcg() returns (x: real)
      requires Valid()
      modifies this`rngSeed
      ensures Valid() && rngSeed == NextSeed(old(rngSeed))
      ensures x == rngSeed as real / Modulus as real && 0.0 <= x < 1.0
    {
      rngSeed := NextSeed(rngSeed);
      x := rngSeed as real / Modulus as real;
    }

    /** `intRand`: one generator step scaled to `[min, max]`. */
    method IntRand(min: int, max: int) returns (r: int)
      requires Valid()
      modifies this`rngSeed
      ensures Valid() && rngSeed == NextSeed(old(rngSeed))
      ensures r == Scaled(rngSeed, min, max)
      ensures min <= max ==> min <= r <= max
    {
      var x := Lcg();
      FloorOfScaled(rngSeed, max - min + 1);
      r := (x * (max - min + 1) as real).Floor + min;
      if min <= max {
        ScaledInRange(rngSeed, min, max);
      }
    }

    /** `startBattle`, without the enemy's HP, which needs the creature's stats. */
    method StartBattle(e: Enemy)
      modifies this`battleOpen, this`enemy
      ensures battleOpen && enemy == Some(e)
    {
      battleOpen := true;
      enemy := Some(e);
    }

    /** `tryEncounter`: in a scene with encounters and a table, rolls as `EncounterRoll` says. */
    method TryEncounter(encounterEnabled: bool, tables: map<string, seq<Content.EncounterEntry>>)
      requires Valid()
      modifies this`rngSeed, this`battleOpen, this`enemy
      ensures Valid()
      ensures !EncountersPossible(encounterEnabled, tables, sceneName) ==>
        rngSeed == old(rngSeed) && battleOpen == old(battleOpen) && enemy == old(enemy)
      ensures EncountersPossible(encounterEnabled, tables, sceneName) ==>
        var roll := EncounterRoll(old(rngSeed), tables[sceneName]);
        && rngSeed == roll.seed
        && (roll.enemy.Some? ==> battleOpen && enemy == roll.enemy)
        && (roll.enemy.None? ==> battleOpen == old(battleOpen) && enemy == old(enemy))
    {
      if !encounterEnabled || sceneName !in tables {
        return;
      }
      var roll := IntRand(1, 18);
      if roll != 1 {
        return;
      }
      var table := tables[sceneName];
      var total := SumWeights(table);
      var pick0 := IntRand(1, total);
      var found := PickEntry(table, pick0);
      if found.Some? {
        var t := table[found.value];
        var level := IntRand(t.minLevel, t.maxLevel);
        StartBattle(Enemy(t.creature, level, false));
      }
    }

    /** `enemyTurn`: the enemy strikes the lead member; at 0 HP the member is restored and the battle ends. */
    method EnemyTurn()
      requires Valid() && |party| > 0 && enemy.Some?
      modifies this`party, this`battleOpen, this`enemy
      ensures var lead := old(party[0]);
        && party == old(party)[0 := lead.(hp := StrikeHp(lead.hp, lead.maxHp, old(enemy).value.level))]
        && (KnocksOut(lead.hp, old(enemy).value.level) ==> !battleOpen && enemy == None)
        && (!KnocksOut(lead.hp, old(enemy).value.level) ==> battleOpen == old(battleOpen) && enemy == old(enemy))
      ensures Damage(old(enemy).value.level) >= 0 ==> Valid()
    {
      var p := party[0];
      var dmg := 5 + enemy.value.level / 2;
      var hp := if p.hp - dmg > 0 then p.hp - dmg else 0;
      if hp <= 0 {
        hp := p.maxHp;
        battleOpen, enemy := false, None;
      }
      party := party[0 := p.(hp := hp)];
    }

    /** `battleItem`: uses one Chip Spice if any is left, heals, and lets the enemy strike. */
    method BattleItem() returns (used: bool)
      requires Valid() && |party| > 0 && enemy.Some?
      modifies this`party, this`battleOpen, this`enemy, this`inventory
      ensures used == (ChipSpice(old(inventory)) > 0)
      ensures !used ==> party == old(party) && inventory == old(inventory)
                        && battleOpen == old(battleOpen) && enemy == old(enemy)
      ensures used ==> var lead := old(party[0]);
        && inventory == old(inventory)["chip_spice" := ChipSpice(old(inventory)) - 1]
        && party == old(party)[0 := lead.(hp := StrikeHp(Healed(lead.hp, lead.maxHp), lead.maxHp, old(enemy).value.level))]
        && (KnocksOut(Healed(lead.hp, lead.maxHp), old(enemy).value.level) ==> !battleOpen && enemy == None)
        && (!KnocksOut(Healed(lead.hp, lead.maxHp), old(enemy).value.level) ==> battleOpen == old(battleOpen) && enemy == old(enemy))
      ensures Damage(old(enemy).value.level) >= 0 ==> Valid()
    {
      used := ChipSpice(inventory) > 0;
      if used {
        inventory := inventory["chip_spice" := inventory["chip_spice"] - 1];
        var p := party[0];
        party := party[0 := p.(hp := Healed(p.hp, p.maxHp))];
        EnemyTurn();
      }
    }

    /** `saveGame`: writes the payload to the target slot, or refuses a manual slot outside 1..3. */
    method SaveGame(slot: int, autosave: bool) returns (ok: bool)
      modifies this`savedSlots
      ensures ok == SaveTarget(slot, autosave).Some?
      ensures savedSlots == old(savedSlots) + (if ok then [SaveTarget(slot, autosave).value] else [])
    {
      var target := if autosave then 0 else slot;
      if !autosave && (target < 1 || target > 3) {
        return false;
      }
      savedSlots := savedSlots + [target];
      ok := true;
    }

    /** Carrying 60 minutes into the hour keeps the minute of the day. */
    static lemma HourCarry(h: int, m: int)
      requires 0 <= h < 24 && 60 <= m < 62
      ensures (((h + 1) % 24) * 60 + (m - 60)) % MinutesPerDay == (h * 60 + m) % MinutesPerDay
    {
      if h == 23 {
        assert h * 60 + m == MinutesPerDay + (m - 60);
      } else {
        assert ((h + 1) % 24) * 60 + (m - 60) == h * 60 + m;
      }
    }

    /** The clock part of a tile change: one step, two game minutes. */
    method AdvanceClock()
      requires Valid()
      modifies this`stepCounter, this`totalSteps, this`clockMinutes, this`clockHours
      ensures Valid()
      ensures stepCounter == old(stepCounter) + 1 && totalSteps == old(totalSteps) + 1
      ensures MinuteOfDay() == (old(MinuteOfDay()) + 2) % MinutesPerDay
    {
      stepCounter := stepCounter + 1;
      totalSteps := totalSteps + 1;
      clockMinutes := clockMinutes + 2;
      while clockMinutes >= 60
        invariant 0 <= clockMinutes < 62 && 0 <= clockHours < 24
        invariant stepCounter == old(stepCounter) + 1 && totalSteps == old(totalSteps) + 1
        invariant MinuteOfDay() % MinutesPerDay == (old(MinuteOfDay()) + 2) % MinutesPerDay
      {
        HourCarry(clockHours, clockMinutes);
        clockMinutes := clockMinutes - 60;
        clockHours := (clockHours + 1) % 24;
      }
      assert 0 <= MinuteOfDay() < MinutesPerDay;
    }

    /** What a tile change does besides moving: the clock, the autosave every 40 steps, an encounter roll. */
    method OnTileChange(encounterEnabled: bool, tables: map<string, seq<Content.EncounterEntry>>)
      requires Valid()
      modifies this
      ensures Valid()
      ensures stepCounter == old(stepCounter) + 1 && totalSteps == old(totalSteps) + 1
      ensures MinuteOfDay() == (old(MinuteOfDay()) + 2) % MinutesPerDay
      ensures savedSlots == old(savedSlots) + (if totalSteps % 40 == 0 then [0] else [])
      ensures party == old(party) && inventory == old(inventory) && sceneName == old(sceneName)
      ensures playerX == old(playerX) && playerY == old(playerY) && tileX == old(tileX) && tileY == old(tileY)
      ensures ronnieLastSeen == old(ronnieLastSeen) && ronnieHere == old(ronnieHere)
      ensures !EncountersPossible(encounterEnabled, tables, sceneName) ==>
        rngSeed == old(rngSeed) && battleOpen == old(battleOpen) && enemy == old(enemy)
      ensures EncountersPossible(encounterEnabled, tables, sceneName) ==>
        var roll := EncounterRoll(old(rngSeed), tables[sceneName]);
        && rngSeed == roll.seed
        && (roll.enemy.Some? ==> battleOpen && enemy == roll.enemy)
        && (roll.enemy.None? ==> battleOpen == old(battleOpen) && enemy == old(enemy))
    {
      AdvanceClock();
      if totalSteps % 40 == 0 {
        var _ := SaveGame(0, true);
      }
      TryEncounter(encounterEnabled, tables);
    }

    /**
     * The part of `maybeAddRonnie` that touches the state: when Ronnie is due in the new
     * scene, one generator step decides whether the freshly built map holds him.
     */
    method MaybeAddRonnie()
      requires Valid()
      modifies this`rngSeed, this`ronnieHere
      ensures Valid()
      ensures !old(RonnieDue(sceneName)) ==> rngSeed == old(rngSeed) && !ronnieHere
      ensures old(RonnieDue(sceneName)) ==> rngSeed == NextSeed(old(rngSeed)) && ronnieHere == RonnieDrawn(rngSeed)
    {
      ronnieHere := false;
      if !(sceneName == "StartTown_West" || sceneName == "Route02_FoundersLane") {
        return;
      }
      var hoursSince := GameHoursTotal() - ronnieLastSeen;
      if hoursSince < 24 {
        return;
      }
      var x := Lcg();
      if x >= 0.33 {
        return;
      }
      ronnieHere := true;
    }

    /** `changeScene`: moves the player to the destination, or to the fallback spawn, and builds the scene's map. */
    method ChangeScene(scene: string, x: real, y: real)
      requires Valid()
      modifies this`sceneName, this`playerX, this`playerY, this`tileX, this`tileY, this`rngSeed, this`ronnieHere
      ensures Valid()
      ensures sceneName in ValidScenes
      ensures Spawn(sceneName, playerX, playerY) == SceneSpawn(scene, x, y)
      ensures tileX == TileOf(playerX) && tileY == TileOf(playerY)
      ensures !RonnieDue(sceneName) ==> rngSeed == old(rngSeed) && !ronnieHere
      ensures RonnieDue(sceneName) ==> rngSeed == NextSeed(old(rngSeed)) && ronnieHere == RonnieDrawn(rngSeed)
    {
      var s, px, py := scene, x, y;
      if s !in ValidScenes {
        s := "StartTown_West";
        px := (5 * TileSize) as real;
        py := (5 * TileSize) as real;
      }
      sceneName := s;
      MaybeAddRonnie();
      playerX, playerY := px, py;
      tileX, tileY := TileOf(px), TileOf(py);
    }

    /** Answering Ronnie's question: he is met now, leaves the map, and is not due anywhere for 24 game hours. */
    method MeetRonnie()
      modifies this`ronnieLastSeen, this`ronnieHere
      ensures ronnieLastSeen == GameHoursTotal() && !ronnieHere
      ensures forall scene :: !RonnieDue(scene)
    {
      ronnieLastSeen := GameHoursTotal();
      ronnieHere := false;
    }
  }
}
