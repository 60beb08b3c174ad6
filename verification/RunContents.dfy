/** What an interleaving leaves in the store: RunProtocol, where units are numbers, and
    MissedChange, where passes are sets of files, put together. */
module RunContents {
  import opened Options
  import opened IncrementalUpdates
  import opened MissedChanges
  import ObjectStores
  import Protocol = RunProtocols

  /** The units of a pass in the order of the pool's files; those that were run, and did
      not return 1, were parsed. None is skipped: each has a compile command. */
  function ParsedBy(e: Protocol.Executor, units: seq<File>): set<File> {
    set u | u in e.returned && e.returned[u] != 1 && u < |units| :: units[u]
  }

  /** A full run, with whatever other threads do meanwhile, has returned in AllReady. */
  ghost predicate ReturnsReady(l: Protocol.Limits, s: Protocol.Proto, steps: seq<Protocol.Step>) {
    && Protocol.Inv(l, s) && Protocol.Enabled(l, s, Protocol.StartFull(false))
    && Protocol.IsRun(l, Protocol.Next(l, s, Protocol.StartFull(false)), steps)
    && (forall step | step in steps :: Protocol.OfThisRun(step))
    && var t := After(l, s, steps);
       && t.pc == Protocol.Idle && t.last.Some? && t.last.value.state == ObjectStores.AllReady
       && t.last.value.logical.Some? && t.physical.executor.Some?
  }

  ghost function After(l: Protocol.Limits, s: Protocol.Proto, steps: seq<Protocol.Step>): Protocol.Proto
    requires Protocol.Enabled(l, s, Protocol.StartFull(false))
    requires Protocol.IsRun(l, Protocol.Next(l, s, Protocol.StartFull(false)), steps)
  {
    Protocol.After(l, Protocol.Next(l, s, Protocol.StartFull(false)), steps)
  }

  /** The contents such a run leaves: the physical pass gave what its workers parsed, and
      the logical pass, which is always complete then, all units picked. */
  ghost function Contents(r: Run, incremental: bool, e: Protocol.Executor, units: seq<File>): Store {
    AfterCutPass(r, incremental, ParsedBy(e, units))
  }

  ghost predicate UnitsOf(r: Run, incremental: bool, e: Protocol.Executor, units: seq<File>) {
    |units| == e.files && (set u | u in units) == Picked(r, incremental)
  }

  lemma ParsedIsPicked(r: Run, incremental: bool, e: Protocol.Executor, units: seq<File>)
    requires UnitsOf(r, incremental, e, units)
    ensures ParsedBy(e, units) <= Picked(r, incremental)
    ensures Protocol.Complete(e) ==> ParsedBy(e, units) == Picked(r, incremental)
  {
    forall u | u in ParsedBy(e, units) ensures u in Picked(r, incremental) {
      assert u in units;
    }
    if Protocol.Complete(e) {
      forall u | u in units ensures u in ParsedBy(e, units) {
        var k: nat :| k < |units| && units[k] == u;
        assert k in e.returned && e.returned[k] != 1;
      }
    }
  }

  lemma ParsedByIs(e: Protocol.Executor, units: seq<File>, f: File)
    ensures f in ParsedBy(e, units) <==>
            exists k: nat :: k < |units| && units[k] == f && k in e.returned && e.returned[k] != 1
  {
  }

  lemma AllParsed(r: Run, incremental: bool)
    ensures AfterCutPass(r, incremental, Picked(r, incremental)) == if incremental then r.Result() else r.FullResult()
  {
  }

  /** A run that returns in AllReady, where the scan tells of all edits: its logical pass
      was complete. If no cancelling thread cleared the pool while files of the physical
      pass were queued, and none of them returned 1, then it leaves what an uncancelled run
      does, and the store is fresh. In any case it is fresh exactly if the files that the
      physical pass did not get to include nothing that was not recorded before. */
  lemma ReadyIsFreshExactlyWhen(l: Protocol.Limits, s: Protocol.Proto, steps: seq<Protocol.Step>,
                                r: Run, incremental: bool, units: seq<File>, disk0: Disk)
    requires ReturnsReady(l, s, steps)
    requires UnitsOf(r, incremental, After(l, s, steps).physical.executor.value, units)
    requires Grounded(r.store, disk0) && r.found <= r.disk.Keys && Detected(r)
    requires incremental ==> Good(r.store, disk0, r.project.Units()) && r.Sound() && Settled(r, disk0)
    ensures var t := After(l, s, steps);
            var contents := Contents(r, incremental, t.physical.executor.value, units);
            && Protocol.Complete(t.last.value.logical.value)
            && (forall f :: f in ParsedBy(t.physical.executor.value, units) <==>
                  exists k: nat :: k < |units| && units[k] == f && k in t.physical.executor.value.returned
                                   && t.physical.executor.value.returned[k] != 1)
            && (Fresh(contents, r.disk, r.project.Units()) <==>
                  CutDoesNoHarm(r, incremental, ParsedBy(t.physical.executor.value, units)))
            && (!Protocol.SomeStepSpoils(l, Protocol.Next(l, s, Protocol.StartFull(false)), steps) ==>
                  && contents == (if incremental then r.Result() else r.FullResult())
                  && Fresh(contents, r.disk, r.project.Units()))
  {
    var t := After(l, s, steps);
    var e := t.physical.executor.value;
    LogicalIsComplete(l, s, steps);
    Protocol.PhysicalCompleteExactlyWhen(l, s, Protocol.StartFull(false), steps);
    ParsedIsPicked(r, incremental, e, units);
    CutPassExactlyWhen(r, incremental, ParsedBy(e, units), disk0);
    AllParsed(r, incremental);
    forall f ensures f in ParsedBy(e, units) <==>
                     exists k: nat :: k < |units| && units[k] == f && k in e.returned && e.returned[k] != 1 {
      ParsedByIs(e, units, f);
    }
  }

  lemma LogicalIsComplete(l: Protocol.Limits, s: Protocol.Proto, steps: seq<Protocol.Step>)
    requires ReturnsReady(l, s, steps)
    ensures Protocol.Complete(After(l, s, steps).last.value.logical.value)
  {
    Protocol.StepKeepsInv(l, s, Protocol.StartFull(false));
    Protocol.RunKeepsInv(l, Protocol.Next(l, s, Protocol.StartFull(false)), steps);
    Protocol.CompleteUnlessSpoiled(After(l, s, steps).last.value.logical.value);
  }
}
