/**
 * memory_db.rs: memories, their tiers and their bindings to tasks. A tier is written by looking for
 * its row first and then updating or inserting; nothing but that order keeps one row per tier. The
 * tables are proved to be a map from (memory, tier) to content and a set of bindings.
 */
module MemoryDb {
  import opened Basics
  import opened Stages
  import opened Tables
  import opened TaskDb

  // ── Tiers as a map ─────────────────────────────────────────────────────────────────────────

  function KeyOf(row: TierRow): (nat, string) {
    (row.memory, row.tier)
  }

  function TierMap(tiers: seq<TierRow>): map<(nat, string), string> {
    if tiers == [] then map[] else TierMap(Front(tiers))[KeyOf(Last(tiers)) := Last(tiers).content]
  }

  /** One row per memory and tier, ids below the next one. */
  ghost predicate TiersOk(tiers: seq<TierRow>, bound: nat) {
    && (forall i, j :: 0 <= i < j < |tiers| ==> tiers[i].id != tiers[j].id && KeyOf(tiers[i]) != KeyOf(tiers[j]))
    && (forall i :: 0 <= i < |tiers| ==> tiers[i].id < bound && tiers[i].memory < bound)
  }

  /** UPDATE memory_tiers SET content = content WHERE id = id */
  function SetContent(tiers: seq<TierRow>, id: nat, content: string): (out: seq<TierRow>)
    ensures |out| == |tiers|
    ensures forall i :: 0 <= i < |tiers| ==>
              out[i] == if tiers[i].id == id then tiers[i].(content := content) else tiers[i]
  {
    seq(|tiers|, i requires 0 <= i < |tiers| => if tiers[i].id == id then tiers[i].(content := content) else tiers[i])
  }

  predicate Hit(row: TierRow, memory: nat, tier: Option<string>) {
    row.memory == memory && (tier.Some? ==> row.tier == tier.value)
  }

  /** DELETE FROM memory_tiers WHERE memory_id = memory, and tier = tier if one is given. */
  function WithoutTiers(tiers: seq<TierRow>, memory: nat, tier: Option<string>): seq<TierRow> {
    if tiers == [] then []
    else if Hit(Last(tiers), memory, tier) then WithoutTiers(Front(tiers), memory, tier)
    else WithoutTiers(Front(tiers), memory, tier) + [Last(tiers)]
  }

  /** The map without the entries of a memory, or without one tier of it. */
  function WithoutKeys(m: map<(nat, string), string>, memory: nat, tier: Option<string>): map<(nat, string), string> {
    map k | k in m && !(k.0 == memory && (tier.Some? ==> k.1 == tier.value)) :: m[k]
  }

  lemma {:induction false} KeyInMap(tiers: seq<TierRow>, k: (nat, string))
    ensures k in TierMap(tiers) <==> exists i :: 0 <= i < |tiers| && KeyOf(tiers[i]) == k
  {
    if tiers != [] {
      KeyInMap(Front(tiers), k);
      assert forall i :: 0 <= i < |Front(tiers)| ==> Front(tiers)[i] == tiers[i];
    }
  }

  lemma {:induction false} ContentInMap(tiers: seq<TierRow>, bound: nat, i: nat)
    requires TiersOk(tiers, bound) && i < |tiers|
    ensures KeyOf(tiers[i]) in TierMap(tiers) && TierMap(tiers)[KeyOf(tiers[i])] == tiers[i].content
  {
    if i < |tiers| - 1 { ContentInMap(Front(tiers), bound, i); }
  }

  lemma {:induction false} SetIsMapUpdate(tiers: seq<TierRow>, bound: nat, k: nat, content: string)
    requires TiersOk(tiers, bound) && k < |tiers|
    ensures TierMap(SetContent(tiers, tiers[k].id, content)) == TierMap(tiers)[KeyOf(tiers[k]) := content]
  {
    var id, key, last := tiers[k].id, KeyOf(tiers[k]), Last(tiers);
    var out := SetContent(tiers, id, content);
    if k == |tiers| - 1 {
      assert Front(out) == Front(tiers);
    } else {
      SetIsMapUpdate(Front(tiers), bound, k, content);
      SetFront(tiers, bound, k, content);
      hide TiersOk, SetContent, KeyOf;
    }
  }

  lemma SetFront(tiers: seq<TierRow>, bound: nat, k: nat, content: string)
    requires TiersOk(tiers, bound) && k < |tiers| - 1
    ensures var out := SetContent(tiers, tiers[k].id, content);
            && Front(out) == SetContent(Front(tiers), tiers[k].id, content) && Last(out) == Last(tiers)
            && KeyOf(Last(tiers)) != KeyOf(tiers[k])
  {
  }

  lemma SetKeepsOk(tiers: seq<TierRow>, bound: nat, id: nat, content: string)
    requires TiersOk(tiers, bound)
    ensures TiersOk(SetContent(tiers, id, content), bound)
  {
  }

  lemma InsertIsMapUpdate(tiers: seq<TierRow>, bound: nat, row: TierRow)
    requires TiersOk(tiers, bound) && row.id == bound && row.memory < bound && KeyOf(row) !in TierMap(tiers)
    ensures TierMap(tiers + [row]) == TierMap(tiers)[KeyOf(row) := row.content]
    ensures TiersOk(tiers + [row], bound + 1)
  {
    assert Front(tiers + [row]) == tiers;
    forall i | 0 <= i < |tiers| ensures KeyOf(tiers[i]) != KeyOf(row) { KeyInMap(tiers, KeyOf(row)); }
  }

  lemma PutThenRemove(m: map<(nat, string), string>, row: TierRow, memory: nat, tier: Option<string>)
    ensures WithoutKeys(m[KeyOf(row) := row.content], memory, tier) ==
            if Hit(row, memory, tier) then WithoutKeys(m, memory, tier)
            else WithoutKeys(m, memory, tier)[KeyOf(row) := row.content]
  {
  }

  lemma {:induction false} DeleteIsMapRemoval(tiers: seq<TierRow>, memory: nat, tier: Option<string>)
    ensures TierMap(WithoutTiers(tiers, memory, tier)) == WithoutKeys(TierMap(tiers), memory, tier)
  {
    if tiers != [] {
      var front, last := Front(tiers), Last(tiers);
      DeleteIsMapRemoval(front, memory, tier);
      PutThenRemove(TierMap(front), last, memory, tier);
      hide WithoutKeys, Hit, KeyOf;
      assert Front(WithoutTiers(front, memory, tier) + [last]) == WithoutTiers(front, memory, tier);
    }
  }

  lemma {:induction false} DeleteMembers(tiers: seq<TierRow>, memory: nat, tier: Option<string>, i: nat)
    requires i < |WithoutTiers(tiers, memory, tier)|
    ensures exists k :: 0 <= k < |tiers| && tiers[k] == WithoutTiers(tiers, memory, tier)[i]
  {
    var kept := WithoutTiers(Front(tiers), memory, tier);
    if i < |kept| {
      DeleteMembers(Front(tiers), memory, tier, i);
      var k :| 0 <= k < |Front(tiers)| && Front(tiers)[k] == kept[i];
      assert tiers[k] == kept[i];
    } else {
      assert tiers[|tiers| - 1] == Last(tiers);
    }
  }

  lemma {:induction false} DeleteKeepsOk(tiers: seq<TierRow>, bound: nat, memory: nat, tier: Option<string>)
    requires TiersOk(tiers, bound)
    ensures TiersOk(WithoutTiers(tiers, memory, tier), bound)
    ensures |WithoutTiers(tiers, memory, tier)| <= |tiers|
    ensures |WithoutTiers(tiers, memory, tier)| < |tiers| <==>
            exists i :: 0 <= i < |tiers| && Hit(tiers[i], memory, tier)
  {
    if tiers != [] {
      var front := Front(tiers);
      var kept := WithoutTiers(front, memory, tier);
      DeleteKeepsOk(front, bound, memory, tier);
      forall i | 0 <= i < |kept| ensures kept[i].id != Last(tiers).id && KeyOf(kept[i]) != KeyOf(Last(tiers)) {
        DeleteMembers(front, memory, tier, i);
      }
      assert forall i :: 0 <= i < |front| ==> front[i] == tiers[i];
    }
  }

  // ── Bindings as a set ──────────────────────────────────────────────────────────────────────

  function BindingSet(bindings: seq<Binding>): set<Binding> {
    set b | b in bindings
  }

  /** The unique index on (task_id, memory_id). */
  ghost predicate BindingsOk(bindings: seq<Binding>, bound: nat) {
    && (forall i, j :: 0 <= i < j < |bindings| ==> bindings[i] != bindings[j])
    && (forall i :: 0 <= i < |bindings| ==> bindings[i].memory < bound)
  }

  function MemoryOf(b: Binding): nat { b.memory }

  lemma {:induction false} MinusBindings(bindings: seq<Binding>, bound: nat, key: Binding -> nat, gone: seq<nat>)
    requires BindingsOk(bindings, bound)
    ensures BindingsOk(Minus(bindings, key, gone), bound)
    ensures BindingSet(Minus(bindings, key, gone)) == set b | b in bindings && key(b) !in gone
  {
    forall b ensures b in BindingSet(Minus(bindings, key, gone)) <==> b in bindings && key(b) !in gone {
      MinusMembers(bindings, key, gone, b);
    }
    if bindings != [] {
      var front, last := Front(bindings), Last(bindings);
      var kept := Minus(front, key, gone);
      MinusBindings(front, bound, key, gone);
      forall i | 0 <= i < |kept| ensures kept[i] != last { MinusMembers(front, key, gone, kept[i]); }
    }
  }

  // ── The whole store ────────────────────────────────────────────────────────────────────────

  ghost predicate IdsOk(memories: seq<Memory>, bound: nat) {
    && (forall i, j :: 0 <= i < j < |memories| ==> memories[i].id != memories[j].id)
    && (forall i :: 0 <= i < |memories| ==> memories[i].id < bound)
  }

  ghost predicate TablesOk(memories: seq<Memory>, tiers: seq<TierRow>, bindings: seq<Binding>, bound: nat) {
    IdsOk(memories, bound) && TiersOk(tiers, bound) && BindingsOk(bindings, bound)
  }

  ghost predicate MemoriesOk(db: Database)
    reads db`memories, db`tiers, db`bindings, db`nextMemoryId
  {
    TablesOk(db.memories, db.tiers, db.bindings, db.nextMemoryId)
  }

  /** Deleting the bindings of some tasks keeps the tables in order. */
  lemma BindingsGone(memories: seq<Memory>, tiers: seq<TierRow>, bindings: seq<Binding>, bound: nat, gone: seq<nat>)
    requires TablesOk(memories, tiers, bindings, bound)
    ensures TablesOk(memories, tiers, Minus(bindings, BindingKey, gone), bound)
  {
    MinusBindings(bindings, bound, BindingKey, gone);
  }

  method CreateMemory(db: Database, scope: string, category: string, key: MemoryKey, agent: string, run: nat)
    returns (m: Memory)
    requires MemoriesOk(db)
    modifies db`memories, db`nextMemoryId
    ensures MemoriesOk(db) && db.nextMemoryId == old(db.nextMemoryId) + 1
    ensures m == Memory(old(db.nextMemoryId), scope, category, key, agent, run) && db.memories == old(db.memories) + [m]
  {
    m := Memory(db.nextMemoryId, scope, category, key, agent, run);
    db.nextMemoryId := db.nextMemoryId + 1;
    db.memories := db.memories + [m];
  }

  /** The row of a memory's tier, by a query over both columns. */
  method FindTier(db: Database, memory: nat, tier: string) returns (i: nat)
    requires MemoriesOk(db)
    ensures i <= |db.tiers|
    ensures i < |db.tiers| ==> KeyOf(db.tiers[i]) == (memory, tier)
    ensures i < |db.tiers| <==> (memory, tier) in TierMap(db.tiers)
  {
    i := 0;
    while i < |db.tiers| && !(db.tiers[i].memory == memory && db.tiers[i].tier == tier)
      invariant i <= |db.tiers|
      invariant forall k :: 0 <= k < i ==> KeyOf(db.tiers[k]) != (memory, tier)
    {
      i := i + 1;
    }
    KeyInMap(db.tiers, (memory, tier));
  }

  /** An id that a caller names, of a memory or of none, is never drawn for a new memory. */
  method Avoid(db: Database, memory: nat)
    requires MemoriesOk(db)
    modifies db`nextMemoryId
    ensures MemoriesOk(db) && memory < db.nextMemoryId && db.nextMemoryId >= old(db.nextMemoryId)
  {
    if memory >= db.nextMemoryId {
      db.nextMemoryId := memory + 1;
    }
  }

  method UpsertTier(db: Database, memory: nat, tier: string, content: string) returns (row: TierRow)
    requires MemoriesOk(db)
    modifies db`tiers, db`nextMemoryId
    ensures MemoriesOk(db) && db.nextMemoryId >= old(db.nextMemoryId)
    ensures row == TierRow(row.id, memory, tier, content) && row in db.tiers
    ensures TierMap(db.tiers) == TierMap(old(db.tiers))[(memory, tier) := content]
    ensures |db.tiers| == |old(db.tiers)| + if (memory, tier) in TierMap(old(db.tiers)) then 0 else 1
  {
    Avoid(db, memory);
    var i := FindTier(db, memory, tier);
    hide MemoriesOk, TierMap;
    if i < |db.tiers| {
      row := OverwriteTier(db, i, content);
    } else {
      row := InsertTier(db, memory, tier, content);
    }
  }

  method OverwriteTier(db: Database, i: nat, content: string) returns (row: TierRow)
    requires MemoriesOk(db) && i < |db.tiers|
    modifies db`tiers
    ensures MemoriesOk(db) && row == old(db.tiers[i]).(content := content) && row in db.tiers
    ensures TierMap(db.tiers) == TierMap(old(db.tiers))[KeyOf(row) := content] && |db.tiers| == |old(db.tiers)|
  {
    row := db.tiers[i].(content := content);
    SetIsMapUpdate(db.tiers, db.nextMemoryId, i, content);
    SetKeepsOk(db.tiers, db.nextMemoryId, row.id, content);
    hide TiersOk, TierMap, IdsOk, BindingsOk;
    db.tiers := SetContent(db.tiers, row.id, content);
    assert db.tiers[i] == row;
  }

  method InsertTier(db: Database, memory: nat, tier: string, content: string) returns (row: TierRow)
    requires MemoriesOk(db) && memory < db.nextMemoryId && (memory, tier) !in TierMap(db.tiers)
    modifies db`tiers, db`nextMemoryId
    ensures MemoriesOk(db) && db.nextMemoryId > old(db.nextMemoryId)
    ensures row == TierRow(old(db.nextMemoryId), memory, tier, content) && db.tiers == old(db.tiers) + [row]
    ensures TierMap(db.tiers) == TierMap(old(db.tiers))[(memory, tier) := content]
  {
    hide TablesOk, TierMap;
    row := TierRow(db.nextMemoryId, memory, tier, content);
    InsertKeepsTables(db.memories, db.tiers, db.bindings, db.nextMemoryId, row);
    db.nextMemoryId := db.nextMemoryId + 1;
    db.tiers := db.tiers + [row];
  }

  lemma InsertKeepsTables(memories: seq<Memory>, tiers: seq<TierRow>, bindings: seq<Binding>, bound: nat, row: TierRow)
    requires TablesOk(memories, tiers, bindings, bound)
    requires row.id == bound && row.memory < bound && KeyOf(row) !in TierMap(tiers)
    ensures TablesOk(memories, tiers + [row], bindings, bound + 1)
    ensures TierMap(tiers + [row]) == TierMap(tiers)[KeyOf(row) := row.content]
  {
    assert IdsOk(memories, bound + 1) && BindingsOk(bindings, bound + 1);
    InsertIsMapUpdate(tiers, bound, row);
    hide TiersOk, TierMap, IdsOk, BindingsOk;
  }

  method GetTier(db: Database, memory: nat, tier: string) returns (content: Option<string>)
    requires MemoriesOk(db)
    ensures content == if (memory, tier) in TierMap(db.tiers) then Some(TierMap(db.tiers)[(memory, tier)]) else None
  {
    var i := FindTier(db, memory, tier);
    if i < |db.tiers| {
      ContentInMap(db.tiers, db.nextMemoryId, i);
      content := Some(db.tiers[i].content);
    } else {
      content := None;
    }
  }

  method DeleteTier(db: Database, memory: nat, tier: string) returns (gone: bool)
    requires MemoriesOk(db)
    modifies db`tiers
    ensures MemoriesOk(db) && gone == ((memory, tier) in TierMap(old(db.tiers)))
    ensures TierMap(db.tiers) == TierMap(old(db.tiers)) - {(memory, tier)}
  {
    var before := |db.tiers|;
    DeleteKeepsOk(db.tiers, db.nextMemoryId, memory, Some(tier));
    DeleteIsMapRemoval(db.tiers, memory, Some(tier));
    KeyInMap(db.tiers, (memory, tier));
    hide TierMap, WithoutTiers;
    assert WithoutKeys(TierMap(db.tiers), memory, Some(tier)) == TierMap(db.tiers) - {(memory, tier)};
    db.tiers := WithoutTiers(db.tiers, memory, Some(tier));
    gone := |db.tiers| < before;
    assert forall i :: 0 <= i < before ==>
        (Hit(old(db.tiers)[i], memory, Some(tier)) <==> KeyOf(old(db.tiers)[i]) == (memory, tier));
  }

  /** INSERT OR IGNORE */
  method BindTaskMemory(db: Database, task: nat, memory: nat)
    requires MemoriesOk(db)
    modifies db`bindings, db`nextMemoryId
    ensures MemoriesOk(db) && BindingSet(db.bindings) == BindingSet(old(db.bindings)) + {Binding(task, memory)}
  {
    Avoid(db, memory);
    if Binding(task, memory) !in db.bindings {
      db.bindings := db.bindings + [Binding(task, memory)];
    }
  }

  /** Tiers and bindings go first, then the memory itself; nothing of any other memory is touched. */
  method DeleteMemory(db: Database, memory: nat) returns (gone: bool)
    requires MemoriesOk(db)
    modifies db`memories, db`tiers, db`bindings
    ensures MemoriesOk(db)
    ensures TierMap(db.tiers) == map k | k in TierMap(old(db.tiers)) && k.0 != memory :: TierMap(old(db.tiers))[k]
    ensures BindingSet(db.bindings) == set b | b in old(db.bindings) && b.memory != memory
    ensures forall m :: m in db.memories <==> m in old(db.memories) && m.id != memory
    ensures gone <==> exists m :: m in old(db.memories) && m.id == memory
  {
    var before := |db.memories|;
    DeleteKeepsOk(db.tiers, db.nextMemoryId, memory, None);
    DeleteIsMapRemoval(db.tiers, memory, None);
    MinusBindings(db.bindings, db.nextMemoryId, MemoryOf, [memory]);
    MinusMemories(db.memories, db.nextMemoryId, memory);
    OneMemoryLess(db.memories, memory);
    hide TierMap, WithoutTiers, WithoutKeys, TiersOk, BindingsOk, Minus, Hit, IdsOk, BindingSet;
    db.tiers := WithoutTiers(db.tiers, memory, None);
    db.bindings := Minus(db.bindings, MemoryOf, [memory]);
    db.memories := Minus(db.memories, IdOfMemory, [memory]);
    gone := |db.memories| < before;
  }

  function IdOfMemory(m: Memory): nat { m.id }

  lemma {:induction false} MinusMemories(memories: seq<Memory>, bound: nat, id: nat)
    requires IdsOk(memories, bound)
    ensures IdsOk(Minus(memories, IdOfMemory, [id]), bound)
  {
    if memories != [] {
      var front, last := Front(memories), Last(memories);
      var kept := Minus(front, IdOfMemory, [id]);
      MinusMemories(front, bound, id);
      forall i | 0 <= i < |kept| ensures kept[i].id != last.id { MinusMembers(front, IdOfMemory, [id], kept[i]); }
    }
  }

  lemma OneMemoryLess(memories: seq<Memory>, id: nat)
    ensures var kept := Minus(memories, IdOfMemory, [id]);
            && (forall m :: m in kept <==> m in memories && m.id != id)
            && (|kept| < |memories| <==> exists m :: m in memories && m.id == id)
  {
    MinusSize(memories, IdOfMemory, [id]);
    forall m { MinusMembers(memories, IdOfMemory, [id], m); }
    hide Minus;
    if m :| m in memories && m.id == id {
      var i :| 0 <= i < |memories| && memories[i] == m;
    }
  }

  // ── Any history ────────────────────────────────────────────────────────────────────────────

  datatype TierOp =
    | Put(memory: nat, tier: string, content: string) | Remove(memory: nat, tier: string) | Forget(memory: nat)

  /** The reference: what the operations do to a map. */
  function Meaning(m: map<(nat, string), string>, ops: seq<TierOp>): map<(nat, string), string> {
    if ops == [] then m
    else
      var n := Meaning(m, Front(ops));
      match Last(ops)
      case Put(memory, tier, content) => n[(memory, tier) := content]
      case Remove(memory, tier) => n - {(memory, tier)}
      case Forget(memory) => map k | k in n && k.0 != memory :: n[k]
  }

  /** Any sequence of upserts and deletions leaves the rows that the map would hold, one per tier. */
  method Perform(db: Database, ops: seq<TierOp>)
    requires MemoriesOk(db)
    modifies db`memories, db`tiers, db`bindings, db`nextMemoryId
    ensures MemoriesOk(db) && TierMap(db.tiers) == Meaning(TierMap(old(db.tiers)), ops)
  {
    hide MemoriesOk, TierMap;
    for i := 0 to |ops|
      invariant MemoriesOk(db)
      invariant TierMap(db.tiers) == Meaning(TierMap(old(db.tiers)), ops[..i])
    {
      assert Front(ops[..i + 1]) == ops[..i];
      match ops[i] {
        case Put(memory, tier, content) => var _ := UpsertTier(db, memory, tier, content);
        case Remove(memory, tier) => var _ := DeleteTier(db, memory, tier);
        case Forget(memory) => var _ := DeleteMemory(db, memory);
      }
    }
    assert ops[..|ops|] == ops;
  }

  // ── extract_stage_memory ───────────────────────────────────────────────────────────────────

  function CategoryOf(stage: Stage): (c: string)
    ensures (c == "resource" <==> stage == Learning) && (c == "fact" <==> stage == Building || stage == PreLoad)
    ensures (c == "case" <==> stage == Evaluation) && (c == "event" <==> stage == SkillManage)
  {
    match stage
    case Learning => "resource"
    case Building => "fact"
    case PreLoad => "fact"
    case Evaluation => "case"
    case SkillManage => "event"
  }

  /** The text says "completed" for failed stages too. */
  function Abstract(stage: Stage, agent: string, artifact: string): (text: string)
    ensures var start := StageToStr(stage) + " completed by " + agent;
            start <= text && text[|start|..] == " for artifact '" + artifact + "'"
  {
    StageToStr(stage) + " completed by " + agent + " for artifact '" + artifact + "'"
  }

  /** The first 2000 characters, or all of them. */
  function Shortened(text: string): (short: string)
    ensures short <= text && |short| == if |text| <= 2000 then |text| else 2000
  {
    if |text| <= 2000 then text else text[..2000]
  }

  /** What the three tables hold. */
  datatype Store = Store(memories: seq<Memory>, tiers: map<(nat, string), string>, bindings: set<Binding>)

  ghost function StoreOf(db: Database): Store
    reads db`memories, db`tiers, db`bindings
  {
    Store(db.memories, TierMap(db.tiers), BindingSet(db.bindings))
  }

  /** One memory was added, with exactly the tiers l0, l1 and l2, bound to the task if there is one. */
  ghost predicate Extracted(before: Store, after: Store, m: Memory, l0: string, l1: string, l2: string,
                            task: Option<nat>)
  {
    && after.memories == before.memories + [m]
    && after.tiers == before.tiers[(m.id, "l0") := l0][(m.id, "l1") := l1][(m.id, "l2") := l2]
    && (forall tier :: (m.id, tier) in after.tiers <==> tier in {"l0", "l1", "l2"})
    && after.bindings == before.bindings + if task.Some? then {Binding(task.value, m.id)} else {}
  }

  method ExtractStageMemory(db: Database, run: nat, stage: Stage, agent: string, artifact: string,
                            output: string, pretty: string, task: Option<nat>)
    returns (m: Memory)
    requires MemoriesOk(db)
    modifies db`memories, db`tiers, db`bindings, db`nextMemoryId
    ensures MemoriesOk(db)
    ensures m == Memory(old(db.nextMemoryId), "pipeline", CategoryOf(stage), PipelineKey(run, stage, artifact),
                        agent, run)
    ensures Extracted(old(StoreOf(db)), StoreOf(db), m, Abstract(stage, agent, artifact), Shortened(pretty), output,
                      task)
  {
    NoTiersYet(db.tiers, db.nextMemoryId);
    ThreeTiers(TierMap(db.tiers), db.nextMemoryId, Abstract(stage, agent, artifact), Shortened(pretty), output);
    m := CreateMemory(db, "pipeline", CategoryOf(stage), PipelineKey(run, stage, artifact), agent, run);
    hide MemoriesOk, TierMap, CategoryOf, Abstract, Shortened, BindingSet;
    WriteTiers(db, m.id, Abstract(stage, agent, artifact), Shortened(pretty), output);
    if task.Some? {
      BindTaskMemory(db, task.value, m.id);
    }
  }

  method WriteTiers(db: Database, memory: nat, l0: string, l1: string, l2: string)
    requires MemoriesOk(db)
    modifies db`tiers, db`nextMemoryId
    ensures MemoriesOk(db)
    ensures TierMap(db.tiers) ==
            TierMap(old(db.tiers))[(memory, "l0") := l0][(memory, "l1") := l1][(memory, "l2") := l2]
  {
    hide MemoriesOk, TierMap;
    var _ := UpsertTier(db, memory, "l0", l0);
    var _ := UpsertTier(db, memory, "l1", l1);
    var _ := UpsertTier(db, memory, "l2", l2);
  }

  lemma ThreeTiers(m: map<(nat, string), string>, id: nat, l0: string, l1: string, l2: string)
    requires forall tier :: (id, tier) !in m
    ensures var n := m[(id, "l0") := l0][(id, "l1") := l1][(id, "l2") := l2];
            forall tier :: (id, tier) in n <==> tier in {"l0", "l1", "l2"}
  {
  }

  lemma NoTiersYet(tiers: seq<TierRow>, bound: nat)
    requires TiersOk(tiers, bound)
    ensures forall tier :: (bound, tier) !in TierMap(tiers)
  {
    forall tier ensures (bound, tier) !in TierMap(tiers) { KeyInMap(tiers, (bound, tier)); }
  }
}
