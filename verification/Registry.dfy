/** The connection id: `[shard: 8][generation: 24][slab key: 32]`, once as bits and once as the number they spell. */
module ConnectionIds {
  const GENERATIONS: nat := 0x100_0000
  const KEYS: nat := 0x1_0000_0000
  const SHARD_UNIT: nat := 0x100_0000_0000_0000

  function PackBits(shard: bv64, generation: bv64, key: bv64): bv64
  {
    (shard << 56) | ((generation & 0xFF_FFFF) << 32) | key
  }

  /** The fields come back out of the packed bits. */
  lemma UnpackBits(shard: bv64, generation: bv64, key: bv64)
    requires shard < 0x100 && key < 0x1_0000_0000
    ensures PackBits(shard, generation, key) >> 56 == shard
    ensures (PackBits(shard, generation, key) >> 32) & 0xFF_FFFF == generation & 0xFF_FFFF
    ensures PackBits(shard, generation, key) & 0xFFFF_FFFF == key
  {
  }

  /** Every 64-bit id is the packing of its own fields. */
  lemma RepackBits(id: bv64)
    ensures PackBits(id >> 56, (id >> 32) & 0xFF_FFFF, id & 0xFFFF_FFFF) == id
  {
  }

  /** The packed bits spell the weighted sum of the fields, which is `Pack` below. */
  lemma BitsAreSum(shard: bv64, generation: bv64, key: bv64)
    requires shard < 0x100 && generation < 0x100_0000 && key < 0x1_0000_0000
    ensures PackBits(shard, generation, key) == shard * 0x100_0000_0000_0000 + generation * 0x1_0000_0000 + key
  {
  }

  function Pack(shard: nat, generation: nat, key: nat): nat
  {
    shard * SHARD_UNIT + (generation % GENERATIONS) * KEYS + key
  }

  function ShardOf(id: nat): nat
  {
    id / SHARD_UNIT
  }

  function GenerationOf(id: nat): nat
  {
    (id / KEYS) % GENERATIONS
  }

  function KeyOf(id: nat): nat
  {
    id % KEYS
  }

  lemma Unpack(shard: nat, generation: nat, key: nat)
    requires key < KEYS
    ensures var id := Pack(shard, generation, key);
      ShardOf(id) == shard && GenerationOf(id) == generation % GENERATIONS && KeyOf(id) == key
  {
    var g := generation % GENERATIONS;
    var id := Pack(shard, generation, key);
    assert id == (shard * GENERATIONS + g) * KEYS + key;
    assert id / KEYS == shard * GENERATIONS + g;
    assert g * KEYS + key < SHARD_UNIT;
  }
}

/** The sharded slab registry: recycled slots and the generation that tells their tenants apart. */
module Registry {
  import opened Prelude
  import opened Wire
  import opened ConnectionIds

  const SHARDS: nat := 16

  datatype Entry<H> = Entry(generation: nat, handle: H, rooms: set<Name>)

  /** A slab and the generation last used in each of its slots; generations outlive the slots' tenants. */
  datatype Shard<H> = Shard(slab: map<nat, Entry<H>>, gens: seq<nat>)

  datatype Table<H> = Table(shards: seq<Shard<H>>, next: nat)

  function Empty<H>(): Table<H>
  {
    Table(seq(SHARDS, _ => Shard(map[], [])), 0)
  }

  /** The slab may hand out any vacant slot, or grow by one. */
  predicate Vacant<H>(t: Table<H>, key: nat)
  {
    |t.shards| == SHARDS && key < KEYS &&
    var shard := t.shards[t.next % SHARDS];
    key !in shard.slab && key <= |shard.gens|
  }

  function Insert<H>(t: Table<H>, handle: H, key: nat): (Table<H>, nat)
    requires Vacant(t, key)
  {
    var s := t.next % SHARDS;
    var shard := t.shards[s];
    var generation := if key < |shard.gens| then (shard.gens[key] + 1) % GENERATIONS else 0;
    var gens := if key < |shard.gens| then shard.gens[key := generation] else shard.gens + [generation];
    (Table(t.shards[s := Shard(shard.slab[key := Entry(generation, handle, {})], gens)], t.next + 1),
     Pack(s, generation, key))
  }

  /** The entry an id names, if its slot is occupied at the id's generation. */
  function Find<H>(t: Table<H>, id: nat): Option<Entry<H>>
  {
    if ShardOf(id) >= |t.shards| then None
    else
      var slab := t.shards[ShardOf(id)].slab;
      if KeyOf(id) !in slab || slab[KeyOf(id)].generation != GenerationOf(id) then None
      else Some(slab[KeyOf(id)])
  }

  function Get<H>(t: Table<H>, id: nat): Option<H>
  {
    match Find(t, id)
    case None => None
    case Some(e) => Some(e.handle)
  }

  function RemoveFull<H>(t: Table<H>, id: nat): (Table<H>, Option<(H, set<Name>)>)
  {
    match Find(t, id)
    case None => (t, None)
    case Some(e) =>
      var s := ShardOf(id);
      (t.(shards := t.shards[s := t.shards[s].(slab := t.shards[s].slab - {KeyOf(id)})]), Some((e.handle, e.rooms)))
  }

  /** Replace the room set of a live connection, as a join or leave does under the shard lock. */
  function WithRooms<H>(t: Table<H>, id: nat, rooms: set<Name>): Table<H>
  {
    match Find(t, id)
    case None => t
    case Some(e) =>
      var s := ShardOf(id);
      t.(shards := t.shards[s := t.shards[s].(slab := t.shards[s].slab[KeyOf(id) := e.(rooms := rooms)])])
  }

  // ── every insert/edit/remove history ──

  /** One insert: the slot it got, how many inserts that slot had seen before, and what it stored. */
  datatype Issue<H> = Issue(shard: nat, key: nat, serial: nat, handle: H) {
    function Id(): nat
    {
      Pack(shard, serial, key)
    }
  }

  /** A registry with its past: all inserts, the latest of each slot, those not yet removed, and each one's rooms. */
  datatype History<H> = History(
    table: Table<H>,
    log: seq<Issue<H>>,
    last: map<(nat, nat), nat>,
    live: set<nat>,
    rooms: map<nat, set<Name>>)

  datatype Op<H> = InsertOp(handle: H, key: nat) | RemoveOp(id: nat) | RoomsOp(id: nat, rooms: set<Name>)

  function Begin<H>(): History<H>
  {
    History(Empty(), [], map[], {}, map[])
  }

  predicate OpOk<H>(h: History<H>, op: Op<H>)
  {
    op.InsertOp? ==> Vacant(h.table, op.key)
  }

  function Apply<H>(h: History<H>, op: Op<H>): History<H>
    requires OpOk(h, op)
  {
    match op
    case InsertOp(handle, key) =>
      var slot := (h.table.next % SHARDS, key);
      var serial := if slot in h.last && h.last[slot] < |h.log| then h.log[h.last[slot]].serial + 1 else 0;
      History(Insert(h.table, handle, key).0, h.log + [Issue(slot.0, key, serial, handle)],
              h.last[slot := |h.log|], h.live + {|h.log|}, h.rooms[|h.log| := {}])
    case RemoveOp(id) =>
      var slot := (ShardOf(id), KeyOf(id));
      var (table, removed) := RemoveFull(h.table, id);
      if removed.None? || slot !in h.last then h.(table := table)
      else h.(table := table, live := h.live - {h.last[slot]})
    case RoomsOp(id, rooms) =>
      var slot := (ShardOf(id), KeyOf(id));
      if Find(h.table, id).None? || slot !in h.last then h
      else h.(table := WithRooms(h.table, id, rooms), rooms := h.rooms[h.last[slot] := rooms])
  }

  ghost predicate Run<H>(h: History<H>, ops: seq<Op<H>>, h': History<H>)
    decreases |ops|
  {
    if ops == [] then h == h' else OpOk(h, ops[0]) && Run(Apply(h, ops[0]), ops[1..], h')
  }

  /** The latest insert of every slot is logged, and earlier ones carry smaller serials. */
  ghost predicate LogOk<H>(h: History<H>)
  {
    && (forall slot | slot in h.last ::
      h.last[slot] < |h.log| && h.log[h.last[slot]].shard == slot.0 && h.log[h.last[slot]].key == slot.1)
    && (forall i | 0 <= i < |h.log| ::
          var x := h.log[i];
          (x.shard, x.key) in h.last && x.serial <= h.log[h.last[(x.shard, x.key)]].serial
          && (x.serial == h.log[h.last[(x.shard, x.key)]].serial ==> i == h.last[(x.shard, x.key)]))
    && (forall i | i in h.live :: i < |h.log| && h.last[(h.log[i].shard, h.log[i].key)] == i)
  }

  /** What slot `k` of shard `s` holds is what the log says. */
  ghost predicate SlotOk<H>(h: History<H>, s: nat, k: nat)
    requires s < |h.table.shards| && LogOk(h)
  {
    var shard := h.table.shards[s];
    && (k < |shard.gens| <==> (s, k) in h.last)
    && (k < |shard.gens| ==> k < KEYS && shard.gens[k] == h.log[h.last[(s, k)]].serial % GENERATIONS)
    && (k in shard.slab <==> (s, k) in h.last && h.last[(s, k)] in h.live)
    && (k in shard.slab ==>
          && shard.slab[k].handle == h.log[h.last[(s, k)]].handle
          && shard.slab[k].generation == h.log[h.last[(s, k)]].serial % GENERATIONS
          && h.last[(s, k)] in h.rooms && shard.slab[k].rooms == h.rooms[h.last[(s, k)]])
  }

  ghost predicate Inv<H>(h: History<H>)
  {
    && |h.table.shards| == SHARDS
    && LogOk(h)
    && (forall slot | slot in h.last :: slot.0 < SHARDS)
    && (forall s: nat, k: nat | s < SHARDS :: SlotOk(h, s, k))
  }

  lemma InsertKeepsLog<H>(h: History<H>, handle: H, key: nat)
    requires Inv(h) && Vacant(h.table, key)
    ensures LogOk(Apply(h, InsertOp(handle, key)))
  {
    var h' := Apply(h, InsertOp(handle, key));
    var slot := (h.table.next % SHARDS, key);
    assert SlotOk(h, slot.0, key);
    forall i | 0 <= i < |h'.log|
      ensures var x := h'.log[i];
        (x.shard, x.key) in h'.last && x.serial <= h'.log[h'.last[(x.shard, x.key)]].serial
        && (x.serial == h'.log[h'.last[(x.shard, x.key)]].serial ==> i == h'.last[(x.shard, x.key)])
    {
      if i < |h.log| {
        assert h'.log[i] == h.log[i];
      }
    }
  }

  lemma NextGeneration(serial: nat)
    ensures (serial % GENERATIONS + 1) % GENERATIONS == (serial + 1) % GENERATIONS
  {
  }

  lemma InsertKeepsSlot<H>(h: History<H>, handle: H, key: nat, s: nat, k: nat)
    requires Inv(h) && Vacant(h.table, key) && s < SHARDS
    ensures var h' := Apply(h, InsertOp(handle, key)); LogOk(h') && SlotOk(h', s, k)
  {
    if s == h.table.next % SHARDS && k == key {
      InsertFillsSlot(h, handle, key);
    } else {
      InsertKeepsOtherSlot(h, handle, key, s, k);
    }
  }

  lemma InsertFillsSlot<H>(h: History<H>, handle: H, key: nat)
    requires Inv(h) && Vacant(h.table, key)
    ensures var h' := Apply(h, InsertOp(handle, key)); LogOk(h') && SlotOk(h', h.table.next % SHARDS, key)
  {
    InsertKeepsLog(h, handle, key);
    var slot := (h.table.next % SHARDS, key);
    assert SlotOk(h, slot.0, key);
    if slot in h.last {
      NextGeneration(h.log[h.last[slot]].serial);
    }
  }

  lemma InsertKeepsOtherSlot<H>(h: History<H>, handle: H, key: nat, s: nat, k: nat)
    requires Inv(h) && Vacant(h.table, key) && s < SHARDS && (s, k) != (h.table.next % SHARDS, key)
    ensures var h' := Apply(h, InsertOp(handle, key)); LogOk(h') && SlotOk(h', s, k)
  {
    InsertKeepsLog(h, handle, key);
    assert SlotOk(h, s, k) && SlotOk(h, h.table.next % SHARDS, key);
    if (s, k) in h.last {
      assert h.last[(s, k)] < |h.log|;
    }
  }

  lemma RemoveKeepsSlot<H>(h: History<H>, id: nat, s: nat, k: nat)
    requires Inv(h) && s < SHARDS
    ensures var h' := Apply(h, RemoveOp(id)); LogOk(h') && SlotOk(h', s, k)
  {
    var slot := (ShardOf(id), KeyOf(id));
    assert SlotOk(h, s, k);
    if Find(h.table, id).Some? {
      assert SlotOk(h, slot.0, slot.1);
    }
  }

  lemma RoomsKeepSlot<H>(h: History<H>, id: nat, rooms: set<Name>, s: nat, k: nat)
    requires Inv(h) && s < SHARDS
    ensures var h' := Apply(h, RoomsOp(id, rooms)); LogOk(h') && SlotOk(h', s, k)
  {
    var slot := (ShardOf(id), KeyOf(id));
    assert SlotOk(h, s, k);
    if Find(h.table, id).Some? {
      assert SlotOk(h, slot.0, slot.1);
    }
    if (s, k) in h.last && slot in h.last && (s, k) != slot {
      assert h.last[(s, k)] != h.last[slot];
    }
  }

  lemma StepKeepsInv<H>(h: History<H>, op: Op<H>)
    requires Inv(h) && OpOk(h, op)
    ensures Inv(Apply(h, op))
  {
    var h' := Apply(h, op);
    if op.InsertOp? {
      InsertKeepsLog(h, op.handle, op.key);
    }
    assert LogOk(h') && |h'.table.shards| == SHARDS;
    forall s: nat, k: nat | s < SHARDS ensures SlotOk(h', s, k) {
      match op
      case InsertOp(handle, key) => InsertKeepsSlot(h, handle, key, s, k);
      case RemoveOp(id) => RemoveKeepsSlot(h, id, s, k);
      case RoomsOp(id, rooms) => RoomsKeepSlot(h, id, rooms, s, k);
    }
  }

  lemma {:induction false} RunKeepsInv<H>(h: History<H>, ops: seq<Op<H>>, h': History<H>)
    requires Inv(h) && Run(h, ops, h')
    ensures Inv(h')
    decreases |ops|
  {
    if ops != [] {
      StepKeepsInv(h, ops[0]);
      RunKeepsInv(Apply(h, ops[0]), ops[1..], h');
    }
  }

  ghost predicate InTurn<H>(h: History<H>)
  {
    h.table.next == |h.log| && forall i | 0 <= i < |h.log| :: h.log[i].shard == i % SHARDS
  }

  lemma {:induction false} RunKeepsTurn<H>(h: History<H>, ops: seq<Op<H>>, h': History<H>)
    requires InTurn(h) && Run(h, ops, h')
    ensures InTurn(h')
    decreases |ops|
  {
    if ops != [] {
      RunKeepsTurn(Apply(h, ops[0]), ops[1..], h');
    }
  }

  /** In every history inserts go round the sixteen shards in turn. */
  lemma RoundRobin<H>(ops: seq<Op<H>>, h: History<H>)
    requires Run(Begin(), ops, h)
    ensures forall i | 0 <= i < |h.log| :: h.log[i].shard == i % 16
  {
    RunKeepsTurn(Begin(), ops, h);
  }

  /** How often the slot of insert `i` has been reused since. */
  ghost function Recycles<H>(h: History<H>, i: nat): nat
    requires LogOk(h) && i < |h.log|
  {
    h.log[h.last[(h.log[i].shard, h.log[i].key)]].serial - h.log[i].serial
  }

  /** An id resolves exactly when its slot is occupied after a multiple of 2^24 reuses, to the slot's latest tenant. */
  lemma ResolveIff<H>(h: History<H>, i: nat)
    requires Inv(h) && i < |h.log|
    ensures var j := h.last[(h.log[i].shard, h.log[i].key)];
      Get(h.table, h.log[i].Id()) ==
        if j in h.live && Recycles(h, i) % GENERATIONS == 0 then Some(h.log[j].handle) else None
  {
    var x := h.log[i];
    var slot := (x.shard, x.key);
    assert SlotOk(h, x.shard, x.key);
    Unpack(x.shard, x.serial, x.key);
    CongruentIff(x.serial, h.log[h.last[slot]].serial);
  }

  lemma CongruentIff(a: nat, b: nat)
    requires a <= b
    ensures a % GENERATIONS == b % GENERATIONS <==> (b - a) % GENERATIONS == 0
  {
  }

  /**
   * Stale ids never alias: over every history of inserts and removes, an id resolves to the connection whose insert
   * returned it while that connection is live, and to nothing afterwards, until its slot has been reused 2^24 times.
   */
  lemma StaleIdsNeverAlias<H>(ops: seq<Op<H>>, h: History<H>, i: nat)
    requires Run(Begin(), ops, h) && i < |h.log|
    ensures LogOk(h)
    ensures Recycles(h, i) < GENERATIONS ==>
      Get(h.table, h.log[i].Id()) == if i in h.live then Some(h.log[i].handle) else None
  {
    assert Inv(Begin<H>());
    RunKeepsInv(Begin(), ops, h);
    ResolveIff(h, i);
  }

  /**
   * What a removal hands back: the connection's own handle and the room set it was last left with, once; and from then
   * on its id resolves to nothing. A stale id removes nobody.
   */
  lemma RemoveHandsBack<H>(ops: seq<Op<H>>, h: History<H>, i: nat)
    requires Run(Begin(), ops, h) && i < |h.log|
    ensures LogOk(h)
    ensures var (table, removed) := RemoveFull(h.table, h.log[i].Id());
      Recycles(h, i) < GENERATIONS ==>
        if i in h.live then i in h.rooms && removed == Some((h.log[i].handle, h.rooms[i]))
        else removed == None && table == h.table
    ensures Get(RemoveFull(h.table, h.log[i].Id()).0, h.log[i].Id()) == None
  {
    StaleIdsNeverAlias(ops, h, i);
    assert Inv(Begin<H>());
    RunKeepsInv(Begin(), ops, h);
    var x := h.log[i];
    assert SlotOk(h, x.shard, x.key);
    Unpack(x.shard, x.serial, x.key);
  }

  lemma IssuedId<H>(h: History<H>, handle: H, key: nat)
    requires Inv(h) && Vacant(h.table, key)
    ensures Insert(h.table, handle, key).1 == Apply(h, InsertOp(handle, key)).log[|h.log|].Id()
  {
    var slot := (h.table.next % SHARDS, key);
    assert SlotOk(h, slot.0, key);
    if slot in h.last {
      NextGeneration(h.log[h.last[slot]].serial);
    }
  }

  /** The id an insert returns is the logged one, and it resolves at once. */
  lemma InsertReturnsLoggedId<H>(h: History<H>, handle: H, key: nat)
    requires Inv(h) && Vacant(h.table, key)
    ensures var h' := Apply(h, InsertOp(handle, key));
      && Insert(h.table, handle, key).1 == h'.log[|h.log|].Id()
      && Get(h'.table, Insert(h.table, handle, key).1) == Some(handle)
  {
    var h' := Apply(h, InsertOp(handle, key));
    IssuedId(h, handle, key);
    StepKeepsInv(h, InsertOp(handle, key));
    ResolveIff(h', |h.log|);
  }
}
