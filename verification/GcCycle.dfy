/** One whole garbage collection: mark, compact, retire (crates/reflink-forest-daemon). */
module GcCycle {
  import opened Bytes
  import opened Core
  import opened Host
  import opened Catalog
  import opened Generations
  import opened Mark
  import opened Compaction

  datatype CycleError =
    | MarkFailed(mark: MarkError)
    | GenerationExhausted(generation: u32)
    | CompactionFailed(compaction: CompactionError)
    | RetirementFailed(retirement: GenerationError)

  datatype Retirement = Retired | DeferredByPin | DeferredByActiveReaders

  datatype Outcome = Outcome(marked: nat, moved: nat, retirement: Retirement)

  // The catalog before and after a published cycle, with the live set and its new copies.
  ghost predicate Collected(
    c: State, c': State, h: Hashes, roots: set<Ref>, store: Records, source: u32, live: seq<Pair>, shadow: seq<Pair>)
  {
    && source < 0xFFFF_FFFF && MarkSet(c, h, roots, source, live)
    && Switched(c, c', source + 1, live, shadow)
    && Shadows(h, store, source + 1, live, shadow)
  }

  // Publication leaves the pins and snapshots alone, so the roots enumerate the new catalog too.
  lemma RootsSurviveSwitch(c: State, c': State, target: u32, live: seq<Pair>, shadow: seq<Pair>, roots: seq<GcRoot>)
    requires Switched(c, c', target, live, shadow) && EnumeratesRoots(c, roots)
    ensures EnumeratesRoots(c', roots)
  {
  }

  lemma PinsSurviveSwitch(c: State, c': State, target: u32, live: seq<Pair>, shadow: seq<Pair>, generation: u32)
    requires Switched(c, c', target, live, shadow)
    ensures Pinned(c', generation) <==> Pinned(c, generation)
    ensures c'.current == Some(target)
  {
  }

  // Nothing stands in the way of a cycle: the store is healthy and whatever is marked can be copied.
  ghost predicate Able(
    c: State, h: Hashes, roots: seq<GcRoot>, manifests: Manifests, reader: Reader, copyReader: Reader,
    answers: nat -> Answer, calls: nat, store: Records, retained: seq<Ref>, limits: MarkLimits)
  {
    && c.current.Some? && c.current.value < 0xFFFF_FFFF
    && (exists most :: Healthy(c, h, roots, manifests, reader, retained, limits, most))
    && forall live :: MarkSet(c, h, RootRefs(c, manifests, retained), c.current.value, live) ==>
         GoodReader(h, live, copyReader) && GoodWriter(answers, calls, |live|, store, c.current.value + 1)
  }

  // `rootsNow` and `rootsLater` are the two enumerations the cycle asks the catalog for; the
  // reader answers the copy pass independently of the mark pass.
  method RunGcOnce(
    catalog: CatalogStore, manager: GenerationManager,
    rootsNow: Option<seq<GcRoot>>, rootsLater: Option<seq<GcRoot>>, manifests: Manifests,
    reader: Reader, copyReader: Reader, h: Hashes, writer: Destination, retained: seq<Ref>, limits: MarkLimits,
    faults: Faults, retirement: RetirementFaults)
      returns (result: Result<Outcome, CycleError>, ghost live: seq<Pair>, ghost shadow: seq<Pair>)
    requires rootsNow.Some? ==> EnumeratesRoots(catalog.state, rootsNow.value)
    requires rootsLater.Some? ==> EnumeratesRoots(catalog.state, rootsLater.value)
    modifies catalog, manager, writer
    // Every outcome leaves the old catalog or one whose every live object moved.
    ensures catalog.state != old(catalog.state) ==>
              && old(catalog.state).current.Some?
              && Collected(old(catalog.state), catalog.state, h, RootRefs(old(catalog.state), manifests, retained),
                           writer.durable, old(catalog.state).current.value, live, shadow)
    ensures Keeps(old(writer.store), writer.store)
    // Files change only after publication, and then exactly as retirement behind it says.
    ensures catalog.state == old(catalog.state) ==> manager.View() == old(manager.View()) && result.Err?
    ensures result.Ok? || result.error.RetirementFailed? ==>
              && old(catalog.state).current.Some? && catalog.state.current.Some?
              && var (files, retired) := RetireBehind(catalog.state, rootsLater.Some?,
                   old(manager.View()).(pointer := Active(catalog.state.current.value)),
                   old(catalog.state).current.value, catalog.state.current.value, retirement);
                 && manager.View() == files
                 && (result.Err? ==> retired == Err(result.error.retirement))
                 && (result.Ok? ==>
                       && result.value.marked == |live| && result.value.moved == |live|
                       && (result.value.retirement == Retired <==> retired.Ok?)
                       && (result.value.retirement == DeferredByPin <==> Pinned(old(catalog.state), old(catalog.state).current.value)))
    ensures result.Err? && !result.error.RetirementFailed? ==>
              manager.View() == old(manager.View()).(pointer := manager.pointer)
    // Why a cycle that never began to copy stopped.
    ensures old(catalog.state).current == Some(0xFFFF_FFFF) ==> result == Err(GenerationExhausted(0xFFFF_FFFF))
    ensures result.Err? && result.error.GenerationExhausted? ==> old(catalog.state).current == Some(0xFFFF_FFFF)
    ensures old(catalog.state).current != Some(0xFFFF_FFFF) ==>
              var run := MarkRun(old(catalog.state), rootsNow, manifests, reader, h, retained, limits);
              (result.Err? && result.error.MarkFailed? <==> run.Err?) && (run.Err? ==> result == Err(MarkFailed(run.error)))
    // An able cycle publishes.
    ensures && rootsNow.Some? && faults == Faults(true, Written)
            && Able(old(catalog.state), h, rootsNow.value, manifests, reader, copyReader, writer.answers, old(writer.calls),
                    old(writer.store), retained, limits) ==>
              && catalog.state.current == Some(old(catalog.state).current.value + 1)
              && (result.Ok? || result.error.RetirementFailed?)
  {
    hide Healthy, GoodReader, GoodWriter, MarkSet, Switched, Shadows, Keeps, PlanOk, RootRefs, EnumeratesRoots, Pinned, Retire,
      MarkRun, Lists, Ascending;
    live, shadow := [], [];
    ghost var before := catalog.state;
    KeepsSame(writer.store);
    if catalog.state.current.None? {
      NothingToMark(catalog.state, rootsNow, manifests, reader, h, retained, limits);
      return Err(MarkFailed(NoCurrentGeneration)), [], [];
    }
    var source := catalog.state.current.value;
    if source == 0xFFFF_FFFF {
      return Err(GenerationExhausted(source)), [], [];
    }
    var target: u32 := source + 1;
    var marked := CompletedMarkSet(catalog.state, rootsNow, manifests, reader, h, retained, limits);
    if marked.Err? {
      return Err(MarkFailed(marked.error)), [], [];
    }
    live := marked.value;
    MarkOutputMeetsPlan(before, h, RootRefs(before, manifests, retained), source, live);
    var compacted;
    compacted, shadow := CompactCompletedMarkSet(catalog, manager, source, target, marked.value, copyReader, h, writer, faults);
    if compacted.Ok? || compacted == Err(PointerFailed) {
      PinsSurviveSwitch(before, catalog.state, target, live, shadow, source);
    }
    if compacted.Err? {
      return Err(CompactionFailed(compacted.error)), live, shadow;
    }
    if rootsLater.Some? {
      RootsSurviveSwitch(before, catalog.state, target, live, shadow, rootsLater.value);
      RetirementOutcome(catalog.state, manager.View(), source, target, retirement);
    }
    var retired := RetireCompacted(catalog.state, rootsLater, manager, source, target, retirement);
    if retired.Ok? {
      return Ok(Outcome(|marked.value|, compacted.value, Retired)), live, shadow;
    }
    if retired.error == PinnedGeneration {
      return Ok(Outcome(|marked.value|, compacted.value, DeferredByPin)), live, shadow;
    }
    if retired.error == ActiveReaders {
      return Ok(Outcome(|marked.value|, compacted.value, DeferredByActiveReaders)), live, shadow;
    }
    return Err(RetirementFailed(retired.error)), live, shadow;
  }

  // ---------- What a cycle preserves ----------

  // Every object reachable from a root is found after the cycle under the same alias, in the new
  // generation, and is the same object as any readable copy it had before.
  lemma ReachableSurvives(
    c: State, c': State, h: Hashes, roots: set<Ref>, store: Records, source: u32, live: seq<Pair>, shadow: seq<Pair>,
    r: Ref)
    requires Collected(c, c', h, roots, store, source, live, shadow)
    requires UniqueContents(c, h) && Agreeing(c, h, roots)
    requires Reachable(c, h, roots, r) && Aliased(c, r)
    ensures Aliased(c', r) && Alias(c', r) == Alias(c, r) && Alias(c, r) in c'.locations
    ensures c'.locations[Alias(c, r)].generation == source + 1
    ensures exists kind, raw :: Resolves(h, store, c'.locations[Alias(c, r)], Alias(c, r), kind, raw)
    ensures forall earlier, at, kind, raw, kind', raw' ::
              && Resolves(h, earlier, at, Alias(c, r), kind, raw)
              && Resolves(h, store, c'.locations[Alias(c, r)], Alias(c, r), kind', raw')
              ==> kind == kind' && raw == raw'
  {
    hide UniqueContents, Agreeing, Reachable, Ascending, Complete, Resolves;
    MarkCoversReachable(c, h, roots, source, live, r);
    var i :| 0 <= i < |live| && live[i].0 == Alias(c, r);
    assert InGeneration(c, live[i].0, live[i].1, source);
    assert Readable(h, store, shadow[i].1, live[i].0);
    forall earlier, at, kind, raw, kind', raw' |
      && Resolves(h, earlier, at, Alias(c, r), kind, raw)
      && Resolves(h, store, c'.locations[Alias(c, r)], Alias(c, r), kind', raw')
      ensures kind == kind' && raw == raw'
    {
      SameIdSameObject(c, h, Alias(c, r), earlier, at, kind, raw, store, c'.locations[Alias(c, r)], kind', raw');
    }
  }

  // ... and every ID that is not live keeps its entry, so what is left behind is exactly the unmarked.
  lemma LeftBehindIsUnmarked(
    c: State, c': State, h: Hashes, roots: set<Ref>, store: Records, source: u32, live: seq<Pair>, shadow: seq<Pair>,
    id: ContentId)
    requires Collected(c, c', h, roots, store, source, live, shadow)
    requires id in c.locations && c.locations[id].generation == source
    ensures id in c'.locations
    ensures c'.locations[id].generation == source <==> id !in Ids(live)
    ensures id !in Ids(live) ==> c'.locations[id] == c.locations[id]
  {
    hide MarkSet, Readable;
  }

  // Reachability does not look at locations.
  lemma SameGraph(c: State, c': State, h: Hashes, roots: set<Ref>, r: Ref)
    requires c'.aliases == c.aliases
    ensures Reachable(c', h, roots, r) <==> Reachable(c, h, roots, r)
  {
    hide Children;
    forall a, b
      ensures Edge(c', h, a, b) <==> Edge(c, h, a, b)
    {
      forall kind, raw
        ensures Names(c', h, a, kind, raw) <==> Names(c, h, a, kind, raw)
      {
      }
    }
    forall p
      ensures IsPath(c', h, roots, p) <==> IsPath(c, h, roots, p)
    {
    }
  }

  lemma ClosedAgain(c: State, c': State, h: Hashes, roots: set<Ref>, ids: set<ContentId>, id: ContentId, v: Visit)
    requires c'.aliases == c.aliases && Closed(c, h, roots, ids, id, v)
    ensures Closed(c', h, roots, ids, id, v)
  {
    hide Reachable, Children;
    SameGraph(c, c', h, roots, v.r);
  }

  // The new copies are a completed mark set of the new catalog: an unchanged root set can be
  // collected again, with nothing missing and nothing outside the new generation.
  lemma CycleLeavesMarkSet(
    c: State, c': State, h: Hashes, roots: set<Ref>, store: Records, source: u32, live: seq<Pair>, shadow: seq<Pair>)
    requires Collected(c, c', h, roots, store, source, live, shadow)
    ensures MarkSet(c', h, roots, source + 1, shadow)
  {
    hide Less, Closed, Readable, Reachable;
    assert Ids(shadow) == Ids(live) by {
      assert forall i :: 0 <= i < |live| ==> shadow[i].0 == live[i].0;
    }
    assert Complete(c', h, roots, Ids(shadow)) by {
      forall id | id in Ids(live)
        ensures exists v :: Closed(c', h, roots, Ids(live), id, v)
      {
        var v :| Closed(c, h, roots, Ids(live), id, v);
        ClosedAgain(c, c', h, roots, Ids(live), id, v);
      }
    }
  }
}
