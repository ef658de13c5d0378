/** Generation pointer, reader leases and retirement on disk (crates/reflink-forest-maintenance). */
module Generations {
  import opened Bytes
  import opened Core
  import opened Host
  import opened Catalog

  // The `active-generation` file: absent, readable or damaged.
  datatype Pointer = Absent | Active(generation: u32) | Damaged

  // Everything the manager keeps on disk. A lease file is named by a process ID and a nonce.
  datatype Files = Files(
    pointer: Pointer,
    leases: map<nat, u32>,
    retiring: set<u32>,
    live: set<u32>,
    trash: set<u32>)

  datatype GenerationError =
    | Io
    | InvalidGenerationPointer
    | InvalidRetirementPlan
    | NotPublished
    | PinnedGeneration
    | ActiveReaders
    | RetiringGeneration
    | CannotRetireActiveGeneration
    | DestinationExists

  predicate Leased(leases: map<nat, u32>, generation: u32) {
    exists id :: id in leases && leases[id] == generation
  }

  // How the retiring marker and the move to trash turn out.
  datatype RetireFaults = RetireFaults(marker: WriteOutcome, move: WriteOutcome)

  // Retirement: refuse the active generation, close lease admission, then move the unleased
  // directory to trash.
  function Retire(f: Files, generation: u32, faults: RetireFaults): (Files, Result<(), GenerationError>) {
    if f.pointer == Damaged then (f, Err(InvalidGenerationPointer))
    else if f.pointer == Active(generation) then (f, Err(CannotRetireActiveGeneration))
    else if generation !in f.retiring && faults.marker != Written then
      (f.(retiring := AfterWrite(faults.marker, f.retiring, f.retiring + {generation})), Err(Io))
    else
      var closed := f.(retiring := f.retiring + {generation});
      if Leased(f.leases, generation) then (closed, Err(ActiveReaders))
      else if generation in f.trash then (closed, Err(DestinationExists))
      else if generation !in f.live || faults.move == FailedOld then (closed, Err(Io))
      else
        (closed.(live := f.live - {generation}, trash := f.trash + {generation}),
         if faults.move == Written then Ok(()) else Err(Io))
  }

  // Exactly when a retirement moves the directory, what each refusal means, and what is left behind.
  lemma RetireExactlyWhen(f: Files, generation: u32, faults: RetireFaults)
    ensures var (f', result) := Retire(f, generation, faults);
            var open := f.pointer != Damaged && f.pointer != Active(generation);
            var marked := generation in f.retiring || faults.marker == Written;
            var free := !Leased(f.leases, generation);
            && (result.Ok? <==> open && marked && free && generation !in f.trash && generation in f.live && faults.move == Written)
            && (result == Err(InvalidGenerationPointer) <==> f.pointer == Damaged)
            && (result == Err(CannotRetireActiveGeneration) <==> f.pointer == Active(generation))
            && (result == Err(ActiveReaders) <==> open && marked && !free)
            && (result == Err(DestinationExists) <==> open && marked && free && generation in f.trash)
            && f'.pointer == f.pointer && f'.leases == f.leases
            && (f'.retiring == if open && (marked || faults.marker == FailedNew) then f.retiring + {generation} else f.retiring)
            && var moved := open && marked && free && generation !in f.trash && generation in f.live && faults.move != FailedOld;
               && f'.live == (if moved then f.live - {generation} else f.live)
               && f'.trash == (if moved then f.trash + {generation} else f.trash)
  {
    hide Leased;
    if generation in f.retiring {
      assert f.retiring + {generation} == f.retiring;
    }
  }

  class GenerationManager {
    var pointer: Pointer
    var leases: map<nat, u32>
    var retiring: set<u32>
    var live: set<u32>
    var trash: set<u32>

    function View(): Files
      reads this
    {
      Files(pointer, leases, retiring, live, trash)
    }

    // Opening removes every lease file a dead daemon left behind.
    constructor (found: Files)
      ensures View() == found.(leases := map[])
    {
      pointer, retiring, live, trash := found.pointer, found.retiring, found.live, found.trash;
      leases := found.leases;
      new;
      ReconcileAbandonedLeases();
    }

    method ReconcileAbandonedLeases()
      modifies this`leases
      ensures leases == map[]
    {
      while leases != map[]
        decreases |leases|
      {
        var id :| id in leases;
        leases := leases - {id};
      }
    }

    method PublishActive(generation: u32, outcome: WriteOutcome) returns (ok: bool)
      modifies this`pointer
      ensures ok == (outcome == Written)
      ensures pointer == AfterWrite(outcome, old(pointer), Active(generation))
    {
      ok := outcome == Written;
      pointer := AfterWrite(outcome, pointer, Active(generation));
    }

    // The file survives even if synchronizing it fails, in which case no handle is returned.
    method Lease(generation: u32, name: nat, outcome: WriteOutcome) returns (result: Result<nat, GenerationError>)
      requires name !in leases
      modifies this`leases
      ensures generation in retiring ==> result == Err(RetiringGeneration) && leases == old(leases)
      ensures generation !in retiring ==>
                && leases == AfterWrite(outcome, old(leases), old(leases)[name := generation])
                && result == if outcome == Written then Ok(name) else Err(Io)
    {
      if generation in retiring {
        return Err(RetiringGeneration);
      }
      leases := AfterWrite(outcome, leases, leases[name := generation]);
      return if outcome == Written then Ok(name) else Err(Io);
    }

    method DropLease(name: nat, removed: bool)
      modifies this`leases
      ensures leases == if removed then old(leases) - {name} else old(leases)
    {
      if removed {
        leases := leases - {name};
      }
    }

    // Scans the lease directory of one generation.
    method MayReclaim(generation: u32) returns (free: bool)
      ensures free == !Leased(leases, generation)
    {
      var rest := leases.Keys;
      while rest != {}
        invariant rest <= leases.Keys
        invariant forall id :: id in leases && id !in rest ==> leases[id] != generation
        decreases |rest|
      {
        var id :| id in rest;
        if leases[id] == generation {
          return false;
        }
        rest := rest - {id};
      }
      return true;
    }

    method CancelRetirement(generation: u32, outcome: WriteOutcome) returns (ok: bool)
      modifies this`retiring
      ensures ok == (outcome == Written)
      ensures retiring == AfterWrite(outcome, old(retiring), old(retiring) - {generation})
    {
      ok := outcome == Written;
      retiring := AfterWrite(outcome, retiring, retiring - {generation});
    }

    method RetireGeneration(generation: u32, faults: RetireFaults) returns (result: Result<(), GenerationError>)
      modifies this
      ensures (View(), result) == Retire(old(View()), generation, faults)
    {
      if pointer == Damaged {
        return Err(InvalidGenerationPointer);
      }
      if pointer == Active(generation) {
        return Err(CannotRetireActiveGeneration);
      }
      if generation !in retiring {
        retiring := AfterWrite(faults.marker, retiring, retiring + {generation});
        if faults.marker != Written {
          return Err(Io);
        }
      }
      assert retiring == old(retiring) + {generation};
      var free := MayReclaim(generation);
      if !free {
        return Err(ActiveReaders);
      }
      if generation in trash {
        return Err(DestinationExists);
      }
      if generation !in live || faults.move == FailedOld {
        return Err(Io);
      }
      live, trash := live - {generation}, trash + {generation};
      return if faults.move == Written then Ok(()) else Err(Io);
    }
  }

  // The pointer after it was brought back in line with the catalog.
  function Repaired(c: State, before: Pointer, outcome: WriteOutcome): Pointer {
    if c.current.None? then before else AfterWrite(outcome, before, Active(c.current.value))
  }

  // The pointer is derived: a stale, missing or damaged one is overwritten, never believed.
  method ReconcileActiveGeneration(c: State, manager: GenerationManager, outcome: WriteOutcome)
      returns (result: Result<Option<u32>, GenerationError>)
    modifies manager`pointer
    ensures manager.pointer == Repaired(c, old(manager.pointer), outcome)
    ensures result == if c.current.None? || outcome == Written then Ok(c.current) else Err(Io)
    ensures result.Ok? && c.current.Some? ==> manager.pointer == Active(c.current.value)
    ensures c.current.None? || outcome == FailedOld ==> manager.pointer == old(manager.pointer)
  {
    if c.current.Some? {
      var written := manager.PublishActive(c.current.value, outcome);
      if !written {
        return Err(Io);
      }
    }
    return Ok(c.current);
  }

  ghost predicate PinRoot(root: GcRoot, generation: u32) {
    !root.RepositorySnapshot? && root.generation == generation
  }

  lemma PinsAreRoots(c: State, roots: seq<GcRoot>, generation: u32)
    requires EnumeratesRoots(c, roots)
    ensures Pinned(c, generation) <==> exists i :: 0 <= i < |roots| && PinRoot(roots[i], generation)
  {
    forall i | 0 <= i < |roots| && PinRoot(roots[i], generation)
      ensures Pinned(c, generation)
    {
      match roots[i] {
        case WorkspacePin(w, g) => assert WorkspacePin(w, g) in roots;
        case ExplicitPin(p, g) => assert ExplicitPin(p, g) in roots;
      }
    }
    forall w | w in c.workspacePins && c.workspacePins[w] == generation
      ensures exists i :: 0 <= i < |roots| && PinRoot(roots[i], generation)
    {
      assert WorkspacePin(w, generation) in roots;
      var i :| 0 <= i < |roots| && roots[i] == WorkspacePin(w, generation);
      assert PinRoot(roots[i], generation);
    }
    forall p | p in c.gcPins && c.gcPins[p] == generation
      ensures exists i :: 0 <= i < |roots| && PinRoot(roots[i], generation)
    {
      assert ExplicitPin(p, generation) in roots;
      var i :| 0 <= i < |roots| && roots[i] == ExplicitPin(p, generation);
      assert PinRoot(roots[i], generation);
    }
  }

  // Whether any root pins the generation.
  method HasPin(c: State, roots: seq<GcRoot>, generation: u32) returns (pinned: bool)
    requires EnumeratesRoots(c, roots)
    ensures pinned == Pinned(c, generation)
  {
    hide EnumeratesRoots, Pinned;
    PinsAreRoots(c, roots, generation);
    for i := 0 to |roots|
      invariant forall k :: 0 <= k < i ==> !PinRoot(roots[k], generation)
    {
      match roots[i] {
        case RepositorySnapshot(_, _) =>
        case WorkspacePin(_, g) =>
          if g == generation {
            assert PinRoot(roots[i], generation);
            return true;
          }
        case ExplicitPin(_, g) =>
          if g == generation {
            assert PinRoot(roots[i], generation);
            return true;
          }
      }
    }
    return false;
  }

  datatype RetirementFaults = RetirementFaults(pointer: WriteOutcome, retire: RetireFaults)

  // Retiring a compacted generation: the decision rests on the catalog, never on the pointer,
  // which is first brought back in line with it. `known` says whether the roots could be read.
  ghost function RetireBehind(
    c: State, known: bool, f: Files, source: u32, target: u32, faults: RetirementFaults)
    : (Files, Result<(), GenerationError>)
  {
    if target <= source then (f, Err(InvalidRetirementPlan))
    else if c.current != Some(target) then (f, Err(NotPublished))
    else if !known then (f, Err(Io))
    else if Pinned(c, source) then (f, Err(PinnedGeneration))
    else
      var repaired := f.(pointer := AfterWrite(faults.pointer, f.pointer, Active(target)));
      if faults.pointer != Written then (repaired, Err(Io)) else Retire(repaired, source, faults.retire)
  }

  method RetireCompacted(
    c: State, roots: Option<seq<GcRoot>>, manager: GenerationManager, source: u32, target: u32, faults: RetirementFaults)
      returns (result: Result<(), GenerationError>)
    requires roots.Some? ==> EnumeratesRoots(c, roots.value)
    modifies manager
    ensures (manager.View(), result) == RetireBehind(c, roots.Some?, old(manager.View()), source, target, faults)
  {
    hide Retire, EnumeratesRoots, Pinned;
    if target <= source {
      return Err(InvalidRetirementPlan);
    }
    if c.current != Some(target) {
      return Err(NotPublished);
    }
    if roots.None? {
      return Err(Io);
    }
    var pinned := HasPin(c, roots.value, source);
    if pinned {
      return Err(PinnedGeneration);
    }
    var reconciled := ReconcileActiveGeneration(c, manager, faults.pointer);
    if reconciled.Err? {
      return Err(reconciled.error);
    }
    result := manager.RetireGeneration(source, faults.retire);
  }

  // Success moves exactly the source; a failure moves nothing else, and whatever moved was
  // published over, unpinned and unleased, with its marker already in place.
  lemma RetirementIsSafe(c: State, known: bool, f: Files, source: u32, target: u32, faults: RetirementFaults)
    ensures var (f', result) := RetireBehind(c, known, f, source, target, faults);
            && f'.leases == f.leases && f.retiring <= f'.retiring <= f.retiring + {source}
            && (result.Ok? ==> source in f'.trash && source !in f'.live)
            && (f' == f.(pointer := f'.pointer, retiring := f'.retiring)
                || (&& f'.trash == f.trash + {source} && f'.live == f.live - {source} && source in f.live
                    && source < target && c.current == Some(target) && !Pinned(c, source)
                    && !Leased(f.leases, source) && source in f'.retiring && f'.pointer == Active(target)))
  {
    hide Pinned;
  }

  // Which of the two deferrals it meets, exactly, and what stops it otherwise.
  lemma RetirementOutcome(c: State, f: Files, source: u32, target: u32, faults: RetirementFaults)
    requires source < target && c.current == Some(target)
    ensures var result := RetireBehind(c, true, f, source, target, faults).1;
            var closes := faults.pointer == Written && (source in f.retiring || faults.retire.marker == Written);
            var moves := source in f.live && source !in f.trash && faults.retire.move == Written;
            && (result == Err(PinnedGeneration) <==> Pinned(c, source))
            && (result == Err(ActiveReaders) <==> !Pinned(c, source) && closes && Leased(f.leases, source))
            && (result.Ok? <==> !Pinned(c, source) && closes && !Leased(f.leases, source) && moves)
  {
    hide Pinned, Leased;
  }
}
