/** Entries laid over one another in the order in which a renderer adds them. */
module Layers {
  import opened Entries
  import opened Entities

  function Lay(m: map<Key, KV>, kvs: seq<KV>): map<Key, KV>
    decreases kvs
  {
    if kvs == [] then m else Lay(m, kvs[..|kvs| - 1])[kvs[|kvs| - 1].key := kvs[|kvs| - 1]]
  }

  ghost predicate HasKey(kvs: seq<KV>, k: Key) { exists i | 0 <= i < |kvs| :: kvs[i].key == k }

  /** A block of entries on its own. */
  function Own(kvs: seq<KV>): map<Key, KV> { Lay(map[], kvs) }

  lemma {:induction false} LayIsOverride(m: map<Key, KV>, kvs: seq<KV>)
    ensures Lay(m, kvs) == m + Own(kvs)
    decreases kvs
  {
    if kvs != [] { LayIsOverride(m, kvs[..|kvs| - 1]); }
  }

  lemma {:induction false} OwnKeys(kvs: seq<KV>, k: Key)
    ensures k in Own(kvs) <==> HasKey(kvs, k)
    ensures k in Own(kvs) ==> Own(kvs)[k] in kvs && Own(kvs)[k].key == k
    decreases kvs
  {
    if kvs != [] {
      var init := kvs[..|kvs| - 1];
      OwnKeys(init, k);
      if HasKey(init, k) { var i :| 0 <= i < |init| && init[i].key == k; assert kvs[i].key == k; }
      if HasKey(kvs, k) && kvs[|kvs| - 1].key != k {
        var i :| 0 <= i < |kvs| && kvs[i].key == k;
        assert init[i].key == k;
      }
      if kvs[|kvs| - 1].key == k { assert kvs[|kvs| - 1] in kvs; }
    }
  }

  lemma OwnHas(kvs: seq<KV>, kv: KV)
    requires kv in kvs
    ensures kv.key in Own(kvs)
  {
    var i :| 0 <= i < |kvs| && kvs[i] == kv;
    OwnKeys(kvs, kv.key);
  }

  /** Blocks laid over a map one after the other. */
  function LayBlocks(m: map<Key, KV>, blocks: seq<seq<KV>>): map<Key, KV>
    decreases blocks
  {
    if blocks == [] then m else Lay(LayBlocks(m, blocks[..|blocks| - 1]), blocks[|blocks| - 1])
  }

  /** Two blocks agree on the keys that both have. */
  ghost predicate Compatible(a: seq<KV>, b: seq<KV>)
  {
    forall k | k in Own(a) && k in Own(b) :: Own(a)[k] == Own(b)[k]
  }

  ghost predicate AllCompatible(blocks: seq<seq<KV>>)
  {
    forall a, b | a in blocks && b in blocks :: Compatible(a, b)
  }

  /** The blocks that have a key agree on its entry. */
  ghost predicate AgreeAt(blocks: seq<seq<KV>>, k: Key)
  {
    forall a, b | a in blocks && b in blocks && k in Own(a) && k in Own(b) :: Own(a)[k] == Own(b)[k]
  }

  /** What stands under a key comes from some block that has it, or stood there before. */
  lemma {:induction false} LayBlocksFrom(m: map<Key, KV>, blocks: seq<seq<KV>>, k: Key)
    ensures k in LayBlocks(m, blocks) <==> k in m || exists b :: b in blocks && k in Own(b)
    ensures k in LayBlocks(m, blocks) ==>
              || (exists b :: b in blocks && k in Own(b) && LayBlocks(m, blocks)[k] == Own(b)[k])
              || (k in m && LayBlocks(m, blocks)[k] == m[k] && forall b | b in blocks :: k !in Own(b))
    decreases blocks
  {
    if blocks != [] {
      var init, last := blocks[..|blocks| - 1], blocks[|blocks| - 1];
      LayBlocksFrom(m, init, k);
      LayIsOverride(LayBlocks(m, init), last);
      assert blocks == init + [last];
      assert forall b :: b in blocks <==> b in init || b == last;
      if k in Own(last) { assert last in blocks; }
    }
  }

  /** Where the blocks agree on a key, the entry of whichever has it stands there. */
  lemma LayBlocksAt(m: map<Key, KV>, blocks: seq<seq<KV>>, k: Key, x: seq<KV>)
    requires AgreeAt(blocks, k) && x in blocks && k in Own(x)
    ensures k in LayBlocks(m, blocks) && LayBlocks(m, blocks)[k] == Own(x)[k]
  {
    LayBlocksFrom(m, blocks, k);
  }

  /** The order of compatible blocks does not matter, nor does repetition. */
  lemma OrderDoesNotMatter(m: map<Key, KV>, x: seq<seq<KV>>, y: seq<seq<KV>>)
    requires AllCompatible(x) && forall b :: b in x <==> b in y
    ensures LayBlocks(m, x) == LayBlocks(m, y)
  {
    forall k ensures (k in LayBlocks(m, x) <==> k in LayBlocks(m, y)) &&
                     (k in LayBlocks(m, x) ==> LayBlocks(m, x)[k] == LayBlocks(m, y)[k])
    {
      SameAt(m, x, y, k);
    }
  }

  lemma SameAt(m: map<Key, KV>, x: seq<seq<KV>>, y: seq<seq<KV>>, k: Key)
    requires AllCompatible(x) && forall b :: b in x <==> b in y
    ensures k in LayBlocks(m, x) <==> k in LayBlocks(m, y)
    ensures k in LayBlocks(m, x) ==> LayBlocks(m, x)[k] == LayBlocks(m, y)[k]
  {
    LayBlocksFrom(m, x, k);
    LayBlocksFrom(m, y, k);
    forall a, b | a in x && b in x && k in Own(a) && k in Own(b) ensures Own(a)[k] == Own(b)[k] {
      assert Compatible(a, b);
    }
  }

  lemma {:induction false} LayBlocksConcat(m: map<Key, KV>, x: seq<seq<KV>>, y: seq<seq<KV>>)
    ensures LayBlocks(m, x + y) == LayBlocks(LayBlocks(m, x), y)
    decreases y
  {
    if y == [] {
      assert x + y == x;
    } else {
      assert (x + y)[..|x + y| - 1] == x + y[..|y| - 1];
      LayBlocksConcat(m, x, y[..|y| - 1]);
    }
  }

  /** The entries of a step that does not fail. */
  function StepEntries(s: Step): seq<KV>
  {
    match s
    case Add(kv) => [kv]
    case AddThrough(kvs) => kvs
    case Fail(_) => []
  }

  lemma {:induction false} AddAllLays(l: Level, kvs: seq<KV>)
    ensures AddAll(l, kvs).entries == Lay(l.entries, kvs)
    decreases kvs
  {
    if kvs != [] { AddAllLays(l, kvs[..|kvs| - 1]); }
  }

  lemma ExecLays(l: Level, s: Step)
    requires !s.Fail?
    ensures Exec(l, s).entries == Lay(l.entries, StepEntries(s))
  {
    match s
    case Add(kv) => assert [kv][..0] == [];
    case AddThrough(kvs) => AddAllLays(Level(l.entries, map[]), kvs);
  }

  function Blocks(steps: seq<Step>): seq<seq<KV>>
  {
    if steps == [] then [] else [StepEntries(steps[0])] + Blocks(steps[1..])
  }

  /** Executing steps lays their entries over the level. */
  lemma {:induction false} ExecAllLays(l: Level, steps: seq<Step>)
    requires forall s | s in steps :: !s.Fail?
    ensures ExecAll(l, steps).entries == LayBlocks(l.entries, Blocks(steps))
    decreases steps
  {
    if steps != [] {
      assert steps[0] in steps;
      ExecLays(l, steps[0]);
      ExecAllLays(Exec(l, steps[0]), steps[1..]);
      var b := StepEntries(steps[0]);
      LayBlocksConcat(l.entries, [b], Blocks(steps[1..]));
      assert [b][..0] == [];
      assert LayBlocks(l.entries, [b]) == Lay(l.entries, b);
    }
  }
}
