/** What a run of the indexer service leaves in the index. */
module ServiceIndex {
  import opened GoInt
  import opened BlockIndex
  import opened IndexRun
  import S = IndexerService

  /** The heights that were handed over and indexed without error, in order. */
  function Indexed(c: Chain, log: seq<S.Event>): seq<int64> {
    if log == [] then []
    else
      var e := log[|log| - 1];
      Indexed(c, log[..|log| - 1]) + if e.Handed? && e.ok && e.h in c then [e.h] else []
  }

  /** The index that the blocks at `before` left, after what the log tells. */
  function Index(c: Chain, before: seq<int64>, log: seq<S.Event>): Store
    requires forall h :: h in before + Indexed(c, log) ==> h in c
  {
    Run(c, before + Indexed(c, log))
  }

  lemma {:induction false} IndexedHeights(c: Chain, log: seq<S.Event>, h: int64)
    ensures h in Indexed(c, log) <==> h in c && S.Count(log, S.Handed(h, true)) >= 1
  {
    if log != [] { IndexedHeights(c, log[..|log| - 1], h); }
  }

  /** Blocks at hand, and no hash at two positions among those that were processed. */
  ghost predicate Sane(c: Chain, before: seq<int64>, log: seq<S.Event>) {
    && ValidChain(c) && (forall h :: h in before ==> h in c) && DistinctHashes(c, Heights(before + Indexed(c, log)))
  }

  /** Whatever was indexed before the service started, and whatever the interleaving and the failures, both
      lookups find every persisted transaction of every height from the start up to the last indexed one,
      unless the height was skipped or the indexer refused it; and of every height indexed before. */
  lemma ServiceAnswers(run: seq<S.State>, actions: seq<S.Action>, k: nat, c: Chain, before: seq<int64>, h: int64, i: nat)
    requires S.IsRun(run, actions) && k < |run| && !run[k].loop.Starting? && Sane(c, before, run[k].log)
    requires h in c && Persisted(c[h], i)
    requires h in before || (run[k].start < h <= run[k].lastIndexedBlock
      && S.TimesSkipped(run[k].log, h) == 0 && S.Count(run[k].log, S.Handed(h, false)) == 0)
    ensures forall x :: x in before + Indexed(c, run[k].log) ==> x in c
    ensures GetByTxHash(Index(c, before, run[k].log), HashAt(c[h], i)) == Found(RecordAt(c[h], i))
    ensures GetByBlockAndIndex(Index(c, before, run[k].log), h, Int32(Ordinal(c[h], i))) == Found(RecordAt(c[h], i))
  {
    hide Run, S.Count, Indexed, GetByTxHash, GetByBlockAndIndex, DistinctHashes, Persisted;
    S.EveryHeightSettled(run, actions, k, h);
    forall x: int64 { IndexedHeights(c, run[k].log, x); }
    assert h in before || h in Indexed(c, run[k].log);
    LookupsAgree(c, before + Indexed(c, run[k].log), h, i);
  }

  /** And they find nothing at any other height: an answer by position is the record of a height indexed
      before, or of one handed over exactly once between the start and the last one. */
  lemma ServiceAnswersOnly(run: seq<S.State>, actions: seq<S.Action>, k: nat, c: Chain, before: seq<int64>, h: int64, o: int32)
    requires S.IsRun(run, actions) && k < |run| && !run[k].loop.Starting? && Sane(c, before, run[k].log)
    requires forall x :: x in before + Indexed(c, run[k].log) ==> x in c
    requires GetByBlockAndIndex(Index(c, before, run[k].log), h, o) != NotFound
    ensures h in before || (run[k].start < h <= run[k].lastIndexedBlock && S.Count(run[k].log, S.Handed(h, true)) == 1)
  {
    hide Run, S.Count, Indexed, GetByTxHash, GetByBlockAndIndex, DistinctHashes, Persisted;
    var _ := LookupSound(c, before + Indexed(c, run[k].log), h, o);
    IndexedHeights(c, run[k].log, h);
    S.EveryHeightSettled(run, actions, k, h);
  }
}
