/** The `index-eth-tx` command: indexing history backward or forward without leaving a gap
    (server/indexer_cmd.go). */
module IndexCommand {
  import opened GoInt
  import opened BlockIndex
  import opened IndexRun
  import KV = KVIndexer

  predicate Between(a: int, h: int64, b: int) { a <= h <= b }

  function Range(a: int, b: int): set<int64> {
    set h: int64 | a <= h <= b && Between(a, h, b)
  }

  /** The index holds what indexing the processed blocks leaves. */
  ghost predicate IndexOf(db: Store, c: Chain, p: set<int64>) {
    IndexKeysExact(db, c, p) && HashKeysExact(db, c, p)
  }

  lemma IndexOfStep(db: Store, c: Chain, p: set<int64>, h: int64)
    requires ValidChain(c) && h in c && IndexOf(db, c, p)
    ensures IndexOf(IndexedStore(db, c[h]), c, p + {h})
  {
    hide IndexKeysExact, HashKeysExact;
    IndexKeysStep(db, c, p, h);
    HashKeysStep(db, c, p, h);
  }

  /** indexBlock: loads a block and hands it to the indexer; fails if it cannot be loaded, or if its height
      is one of those whose batch cannot be written. */
  method IndexOne(idxer: KV.KVIndexer, chain: Chain, unwritable: set<int64>, height: int64, ghost p: set<int64>) returns (ok: bool)
    requires idxer.Valid() && ValidChain(chain) && IndexOf(idxer.db, chain, p)
    modifies idxer`db, idxer`lastRequestIndexedBlock
    ensures idxer.Valid()
    ensures ok <==> height in chain && height !in unwritable
    ensures IndexOf(idxer.db, chain, if ok then p + {height} else p)
  {
    hide IndexOf, ValidChain;
    if height !in chain { return false; }
    IndexOfStep(idxer.db, chain, p, height);
    ok := idxer.IndexBlock(chain[height], height !in unwritable);
  }

  /** Backward: from below the first indexed block, or below the latest block if nothing is
      indexed, down to 1. Whenever it stops, the blocks from `reached` up to there have been added. */
  method Backward(idxer: KV.KVIndexer, chain: Chain, unwritable: set<int64>, storeHeight: int64, ghost p: set<int64>)
    returns (ok: bool, ghost first: int64, ghost reached: int64)
    requires idxer.Valid() && ValidChain(chain) && IndexOf(idxer.db, chain, p)
    requires storeHeight >= 0
    modifies idxer
    ensures idxer.Valid()
    ensures old(idxer.ready) || ok <==> idxer.ready
    ensures IsFirstIndexed(chain, p, first) || (IsFirstIndexed(chain, p, -1) && first == storeHeight)
    ensures first >= 0 && (1 <= reached <= first || (reached == 1 && first == 0))
    ensures IndexOf(idxer.db, chain, p + Range(reached, first - 1))
    ensures ok ==> reached == 1
    ensures !ok ==> reached > 1 && (reached - 1 !in chain || reached - 1 in unwritable)
  {
    hide IndexOf, ValidChain, IsFirstIndexed;
    var start := FirstOrLatest(idxer, chain, storeHeight, p);
    first := start;
    ok := false;
    var i: int64 := start - 1;
    RangeEmpty(p, i + 1, first - 1);
    while i > 0
      invariant i <= first - 1 && (i >= 0 || first == 0)
      invariant idxer.Valid() && idxer.ready == old(idxer.ready)
      invariant IndexOf(idxer.db, chain, p + Range(i + 1, first - 1))
      decreases i
    {
      var done := IndexOne(idxer, chain, unwritable, i, p + Range(i + 1, first - 1));
      if !done { reached := i + 1; return; }
      RangeDown(p, i, first - 1);
      i := i - 1;
    }
    RangeEmpty(p, 1, first - 1);
    idxer.Ready();
    reached := 1;
    ok := true;
  }

  method FirstOrLatest(idxer: KV.KVIndexer, chain: Chain, storeHeight: int64, ghost p: set<int64>) returns (first: int64)
    requires ValidChain(chain) && IndexOf(idxer.db, chain, p) && storeHeight >= 0
    ensures IsFirstIndexed(chain, p, first) || (IsFirstIndexed(chain, p, -1) && first == storeHeight)
    ensures first >= 0
  {
    var h := KV.LoadFirstBlock(idxer.db);
    first := h.value;
    if first == -1 {
      first := storeHeight;
    }
  }

  method LastOrGenesis(idxer: KV.KVIndexer, chain: Chain, ghost p: set<int64>) returns (latest: int64)
    requires ValidChain(chain) && IndexOf(idxer.db, chain, p)
    ensures IsLastIndexed(chain, p, latest) || (IsLastIndexed(chain, p, -1) && latest == 0)
    ensures latest >= 0
  {
    var h := KV.LoadLastBlock(idxer.db);
    latest := h.value;
    if latest == -1 {
      latest := 0;
    }
  }

  /** Forward: from above the last indexed block, or from 1 if nothing is indexed, up to the latest
      block. */
  method Forward(idxer: KV.KVIndexer, chain: Chain, unwritable: set<int64>, storeHeight: int64, ghost p: set<int64>)
    returns (ok: bool, ghost latest: int64, ghost reached: int64)
    requires idxer.Valid() && ValidChain(chain) && IndexOf(idxer.db, chain, p)
    requires 0 <= storeHeight < TWO_63 - 1
    modifies idxer
    ensures idxer.Valid()
    ensures old(idxer.ready) || ok <==> idxer.ready
    ensures IsLastIndexed(chain, p, latest) || (IsLastIndexed(chain, p, -1) && latest == 0)
    ensures latest <= reached && (reached <= storeHeight || reached == latest)
    ensures IndexOf(idxer.db, chain, p + Range(latest + 1, reached))
    ensures ok ==> storeHeight <= reached
    ensures !ok ==> reached < storeHeight && (reached + 1 !in chain || reached + 1 in unwritable)
  {
    hide IndexOf, ValidChain, IsLastIndexed;
    var start := LastOrGenesis(idxer, chain, p);
    latest := start;
    ok := false;
    reached := latest;
    RangeEmpty(p, latest + 1, latest);
    if start < storeHeight {
      var i: int64 := start + 1;
      while i <= storeHeight
        invariant latest + 1 <= i <= storeHeight + 1
        invariant idxer.Valid() && idxer.ready == old(idxer.ready)
        invariant IndexOf(idxer.db, chain, p + Range(latest + 1, i - 1))
        decreases storeHeight - i
      {
        var done := IndexOne(idxer, chain, unwritable, i, p + Range(latest + 1, i - 1));
        if !done { reached := i - 1; return; }
        RangeUp(p, latest + 1, i);
        i := i + 1;
      }
      reached := storeHeight;
    }
    idxer.Ready();
    ok := true;
  }

  lemma RangeEmpty(p: set<int64>, a: int, b: int)
    ensures a > b ==> p + Range(a, b) == p
  {
  }

  lemma RangeDown(p: set<int64>, i: int64, b: int)
    requires i <= b
    ensures p + Range(i + 1, b) + {i} == p + Range(i, b)
  {
  }

  lemma RangeUp(p: set<int64>, a: int, i: int64)
    requires a <= i
    ensures p + Range(a, i - 1) + {i} == p + Range(a, i)
  {
  }

  // ---- No gaps ------------------------------------------------------------------------------------

  /** The first and last indexed heights of a processed interval lie inside it. */
  lemma IndexedInside(c: Chain, a: int64, b: int64, h: int64)
    requires HasIndexed(c, Range(a, b), h)
    ensures a <= h <= b
  {
  }

  /** Wherever the backward run stops, the processed blocks are an interval; at the end it is
      [1, b]. */
  lemma BackwardLeavesNoGap(c: Chain, a: int64, b: int64, first: int64, reached: int64)
    requires 1 <= a && IsFirstIndexed(c, Range(a, b), first) && first != -1
    requires 1 <= reached <= first
    ensures Range(a, b) + Range(reached, first - 1) == Range(if reached < a then reached else a, b)
    ensures reached == 1 ==> Range(a, b) + Range(reached, first - 1) == Range(1, b)
  {
    IndexedInside(c, a, b, first);
  }

  /** Likewise forward; at the end it is [a, max(b, height)]. */
  lemma ForwardLeavesNoGap(c: Chain, a: int64, b: int64, latest: int64, reached: int64, height: int64)
    requires 1 <= a && IsLastIndexed(c, Range(a, b), latest) && latest != -1
    requires latest <= reached && (reached <= height || reached == latest)
    ensures Range(a, b) + Range(latest + 1, reached) == Range(a, if b < reached then reached else b)
    ensures height <= reached ==> Range(a, b) + Range(latest + 1, reached) == Range(a, if b < height then height else b)
  {
    IndexedInside(c, a, b, latest);
  }

  lemma FirstIndexedUnique(c: Chain, p: set<int64>, a: int64, b: int64)
    requires IsFirstIndexed(c, p, a) && IsFirstIndexed(c, p, b)
    ensures a == b
  {
    hide HasIndexed;
  }

  /** Whatever was processed, if none of it holds an indexed transaction the backward run starts below
      the latest block: a completed run adds exactly the heights below it, and never the latest. */
  lemma BackwardSkipsLatest(c: Chain, p: set<int64>, storeHeight: int64, first: int64, reached: int64)
    requires IsFirstIndexed(c, p, -1)
    requires IsFirstIndexed(c, p, first) || (IsFirstIndexed(c, p, -1) && first == storeHeight)
    requires first >= 0 && reached == 1
    ensures Range(reached, first - 1) == Range(1, storeHeight - 1) && storeHeight !in Range(reached, first - 1)
  {
    hide IsFirstIndexed;
    if IsFirstIndexed(c, p, first) { FirstIndexedUnique(c, p, first, -1); }
  }
}
