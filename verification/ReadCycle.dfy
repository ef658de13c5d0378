/** Readers between imports, collections and retirements (crates/reflink-forest-workspace, -maintenance). */
module ReadCycle {
  import opened Bytes
  import opened Core
  import opened Host
  import opened Catalog
  import opened Mark
  import opened Compaction
  import opened GcCycle
  import opened Generations
  import GcProtocol
  import ImportCycle

  // A daemon with its directories and leases, and every record its chunks hold.
  datatype World = World(system: GcProtocol.System, records: Records)

  // What changes the catalog's contents, and what only leases, retires, fails or restarts.
  datatype Step =
    | Content(change: ImportCycle.Step, pointer: WriteOutcome)
    | Protocol(step: GcProtocol.Step)

  function Seen(w: World): ImportCycle.World { ImportCycle.World(w.system.catalog, w.system.files.live) }

  // A collection is a publication of the generation protocol, any other change of contents a change of the catalog.
  function AsProtocol(w: World, step: Step, w': World): GcProtocol.Step
    requires w.system.catalog.current.Some?
  {
    match step
    case Protocol(s) => s
    case Content(change, pointer) =>
      if change.Collect? && w.system.catalog.current.value < 0xFFFF_FFFF
      then GcProtocol.Publish(w'.system.catalog, w.system.catalog.current.value + 1, pointer)
      else GcProtocol.ChangeCatalog(w'.system.catalog)
  }

  // Records are durable and readable, in a directory that exists, before the catalog names them.
  ghost predicate Written(h: Hashes, w: World, change: ImportCycle.Step, w': World)
    requires w.system.catalog.current.Some?
  {
    var c, c' := w.system.catalog, w'.system.catalog;
    && (change.Import? && change.objects != [] ==> c.current.value in w.system.files.live)
    && (forall id :: id in c'.locations && id !in c.locations ==> Readable(h, w'.records, c'.locations[id], id))
    && (change.Collect? ==> change.store == w'.records)
  }

  predicate OnlyPins(c: State, c': State) {
    c' == c.(workspacePins := c'.workspacePins, gcPins := c'.gcPins)
  }

  ghost predicate Next(h: Hashes, manifests: Manifests, w: World, step: Step, w': World) {
    && w.system.catalog.current.Some?
    && GcProtocol.Enabled(w.system, AsProtocol(w, step, w'))
    && w'.system == GcProtocol.Take(w.system, AsProtocol(w, step, w'))
    // Chunks are only appended to.
    && Keeps(w.records, w'.records)
    && match step
       case Protocol(s) => !s.Publish? && (s.ChangeCatalog? ==> OnlyPins(w.system.catalog, s.catalog))
       case Content(change, _) =>
         !change.Retire? && ImportCycle.Next(h, manifests, Seen(w), change, Seen(w')) && Written(h, w, change, w')
  }

  // ---------- What every step keeps ----------

  // Locations and retirements are not ahead of the current generation, and whatever lies in the
  // current generation can be read there.
  ghost predicate Stocked(h: Hashes, w: World) {
    var c := w.system.catalog;
    && c.current.Some?
    && (forall id :: id in c.locations ==> c.locations[id].generation <= c.current.value)
    && (forall g :: g in w.system.files.retiring ==> g < c.current.value)
    && (forall id :: ImportCycle.Current(c, id) ==>
          c.current.value in w.system.files.live && Readable(h, w.records, c.locations[id], id))
  }

  ghost predicate Inv(h: Hashes, manifests: Manifests, w: World) {
    GcProtocol.Inv(w.system) && Stocked(h, w) && ImportCycle.Served(w.system.catalog, h, manifests)
  }

  lemma KeptReadable(h: Hashes, before: Records, after: Records, location: ObjectLocation, id: ContentId)
    requires Keeps(before, after) && Readable(h, before, location, id)
    ensures Readable(h, after, location, id)
    ensures location in before && location in after && after[location] == before[location]
  {
    var kind, raw :| Resolves(h, before, location, id, kind, raw);
    assert Resolves(h, after, location, id, kind, raw);
  }

  // What a step of the protocol does to directories and markers.
  lemma ProtocolKeeps(s: GcProtocol.System, step: GcProtocol.Step, s': GcProtocol.System)
    requires GcProtocol.Inv(s) && s.catalog.current.Some? && GcProtocol.Enabled(s, step) && s' == GcProtocol.Take(s, step)
    ensures forall g :: g in s.files.live && g !in s'.files.live ==> g < s.catalog.current.value && g in s'.moved
    ensures forall g :: g in s'.files.retiring && g !in s.files.retiring ==> g < s.catalog.current.value
    ensures s.moved <= s'.moved
  {
    hide Pinned, Retire;
    if step.FinishRetire? {
      GcProtocol.RetireKeeps(s.files, s.busy.value.0, step.faults);
    }
  }

  lemma ProtocolStocks(h: Hashes, manifests: Manifests, w: World, step: Step, w': World)
    requires Next(h, manifests, w, step, w') && step.Protocol? && GcProtocol.Inv(w.system) && Stocked(h, w)
    ensures Stocked(h, w')
  {
    hide Readable, Keeps;
    ProtocolKeeps(w.system, step.step, w'.system);
    SameContents(h, manifests, w, step, w');
    forall id | ImportCycle.Current(w.system.catalog, id)
      ensures Readable(h, w'.records, w.system.catalog.locations[id], id)
    {
      KeptReadable(h, w.records, w'.records, w.system.catalog.locations[id], id);
    }
  }

  lemma SameContents(h: Hashes, manifests: Manifests, w: World, step: Step, w': World)
    requires Next(h, manifests, w, step, w') && step.Protocol?
    ensures OnlyPins(w.system.catalog, w'.system.catalog)
  {
    hide Retire, Pinned, Keeps;
  }

  // A change of contents leaves the directories and the markers alone.
  lemma ContentKeepsFiles(h: Hashes, manifests: Manifests, w: World, step: Step, w': World)
    requires Next(h, manifests, w, step, w') && step.Content?
    ensures w'.system.files.live == w.system.files.live && w'.system.files.retiring == w.system.files.retiring
  {
    hide ImportCycle.Next, Written, Keeps;
  }

  lemma ImportStocks(h: Hashes, manifests: Manifests, w: World, step: Step, w': World)
    requires Next(h, manifests, w, step, w') && step.Content? && step.change.Import? && Stocked(h, w)
    ensures Stocked(h, w')
  {
    hide Readable, Keeps, ImportCycle.Imported, GcProtocol.Enabled, GcProtocol.Take;
    ContentKeepsFiles(h, manifests, w, step, w');
    var c, c', change := w.system.catalog, w'.system.catalog, step.change;
    var n := ImportCycle.FailedImportIsPrefix(c, h, change.repo, change.objects, change.places);
    ImportCycle.ImportGrows(c, h, change.repo, change.objects[..n], change.places, c.current.value);
    forall id | ImportCycle.Current(c', id)
      ensures c.current.value in w.system.files.live && Readable(h, w'.records, c'.locations[id], id)
    {
      if id in c.locations {
        KeptReadable(h, w.records, w'.records, c.locations[id], id);
      } else {
        assert change.objects[..n] != [];
      }
    }
  }

  lemma CollectionStocks(h: Hashes, manifests: Manifests, w: World, step: Step, w': World)
    requires Next(h, manifests, w, step, w') && step.Content? && step.change.Collect? && Stocked(h, w)
    ensures Stocked(h, w')
  {
    hide Readable, Keeps, MarkSet, GcProtocol.Enabled, GcProtocol.Take;
    ContentKeepsFiles(h, manifests, w, step, w');
  }

  lemma StepStocks(h: Hashes, manifests: Manifests, w: World, step: Step, w': World)
    requires Next(h, manifests, w, step, w') && GcProtocol.Inv(w.system) && Stocked(h, w)
    ensures Stocked(h, w')
  {
    hide Next, Stocked, GcProtocol.Inv;
    match step {
      case Protocol(_) => ProtocolStocks(h, manifests, w, step, w');
      case Content(change, _) =>
        match change {
          case Import(_, _, _) => ImportStocks(h, manifests, w, step, w');
          case Collect(_, _, _, _) => CollectionStocks(h, manifests, w, step, w');
          case _ => SnapshotStocks(h, manifests, w, step, w');
        }
    }
  }

  lemma SnapshotStocks(h: Hashes, manifests: Manifests, w: World, step: Step, w': World)
    requires Next(h, manifests, w, step, w') && step.Content? && !step.change.Import? && !step.change.Collect? && Stocked(h, w)
    ensures Stocked(h, w')
  {
    hide Readable, Keeps, ImportCycle.Closure, GcProtocol.Enabled, GcProtocol.Take;
    ContentKeepsFiles(h, manifests, w, step, w');
    forall id | ImportCycle.Current(w.system.catalog, id)
      ensures Readable(h, w'.records, w.system.catalog.locations[id], id)
    {
      KeptReadable(h, w.records, w'.records, w.system.catalog.locations[id], id);
    }
  }

  // Pins show no snapshot anything new.
  lemma PinsServe(c: State, c': State, h: Hashes, manifests: Manifests)
    requires OnlyPins(c, c') && ImportCycle.Served(c, h, manifests)
    ensures ImportCycle.Served(c', h, manifests)
  {
    hide Reachable, ImportCycle.Roots;
    ImportCycle.SameRoots(c, c', manifests);
    forall r | Reachable(c', h, ImportCycle.Roots(c', manifests), r)
      ensures Aliased(c', r) && ImportCycle.Current(c', Alias(c', r))
    {
      SameGraph(c, c', h, ImportCycle.Roots(c, manifests), r);
      assert Aliased(c, r) && ImportCycle.Current(c, Alias(c, r));
    }
  }

  // Publications come after their objects' imports, and collected roots agree on their objects.
  ghost predicate Proper(h: Hashes, manifests: Manifests, w: World, step: Step) {
    step.Content? ==> ImportCycle.Fresh(h, Seen(w), step.change) && ImportCycle.Agreed(h, manifests, Seen(w), step.change)
  }

  lemma StepKeepsInv(h: Hashes, manifests: Manifests, w: World, step: Step, w': World)
    requires Next(h, manifests, w, step, w') && Inv(h, manifests, w) && Proper(h, manifests, w, step)
    requires UniqueContents(w.system.catalog, h) && UniqueContents(w'.system.catalog, h)
    ensures Inv(h, manifests, w')
  {
    hide GcProtocol.Inv, GcProtocol.Enabled, GcProtocol.Take, Stocked, ImportCycle.Served, ImportCycle.Next, Written,
      UniqueContents, ImportCycle.Fresh, ImportCycle.Agreed, Keeps;
    GcProtocol.StepKeepsInv(w.system, AsProtocol(w, step, w'));
    StepStocks(h, manifests, w, step, w');
    if step.Content? {
      ImportCycle.StepServesExactlyWhen(h, manifests, Seen(w), step.change, Seen(w'));
    } else {
      SameContents(h, manifests, w, step, w');
      PinsServe(w.system.catalog, w'.system.catalog, h, manifests);
    }
  }

  // ---------- Whole runs ----------

  ghost predicate IsRun(h: Hashes, manifests: Manifests, worlds: seq<World>, steps: seq<Step>) {
    && |worlds| == |steps| + 1 && Inv(h, manifests, worlds[0])
    && (forall i :: 0 <= i < |worlds| ==> UniqueContents(worlds[i].system.catalog, h))
    && (forall i :: 0 <= i < |steps| ==>
          Next(h, manifests, worlds[i], steps[i], worlds[i + 1]) && Proper(h, manifests, worlds[i], steps[i]))
  }

  lemma {:induction false} RunKeepsInv(h: Hashes, manifests: Manifests, worlds: seq<World>, steps: seq<Step>, n: nat)
    requires IsRun(h, manifests, worlds, steps) && n < |worlds|
    ensures Inv(h, manifests, worlds[n])
  {
    hide Inv, Next, Proper, UniqueContents;
    if n > 0 {
      RunKeepsInv(h, manifests, worlds, steps, n - 1);
      assert Next(h, manifests, worlds[n - 1], steps[n - 1], worlds[n - 1 + 1]);
      StepKeepsInv(h, manifests, worlds[n - 1], steps[n - 1], worlds[n]);
    }
  }

  // Whatever a Ready snapshot reaches is found by a lookup, in a directory that exists, and a lease
  // on its generation is admitted.
  lemma LookupSucceeds(h: Hashes, manifests: Manifests, worlds: seq<World>, steps: seq<Step>, n: nat, r: Ref)
    requires IsRun(h, manifests, worlds, steps) && n < |worlds|
    requires Reachable(worlds[n].system.catalog, h, ImportCycle.Roots(worlds[n].system.catalog, manifests), r)
    ensures var w, c := worlds[n], worlds[n].system.catalog;
            && Aliased(c, r) && Alias(c, r) in c.locations
            && var location := c.locations[Alias(c, r)];
               && location.generation in w.system.files.live && location.generation !in w.system.files.retiring
               && Readable(h, w.records, location, Alias(c, r))
  {
    hide Next, Proper, UniqueContents, Reachable, ImportCycle.Roots, Readable, GcProtocol.Inv;
    RunKeepsInv(h, manifests, worlds, steps, n);
    var c := worlds[n].system.catalog;
    assert Aliased(c, r) && ImportCycle.Current(c, Alias(c, r));
  }

  lemma {:induction false} RecordsStay(h: Hashes, manifests: Manifests, worlds: seq<World>, steps: seq<Step>, i: nat, j: nat)
    requires IsRun(h, manifests, worlds, steps) && i <= j < |worlds|
    ensures Keeps(worlds[i].records, worlds[j].records)
    decreases j
  {
    hide Inv, Proper, UniqueContents, GcProtocol.Enabled, GcProtocol.Take;
    if i < j {
      RecordsStay(h, manifests, worlds, steps, i, j - 1);
      assert Next(h, manifests, worlds[j - 1], steps[j - 1], worlds[j - 1 + 1]);
    }
  }

  // A directory goes nowhere but to the trash.
  lemma {:induction false} LiveOrMoved(
    h: Hashes, manifests: Manifests, worlds: seq<World>, steps: seq<Step>, i: nat, j: nat, g: u32)
    requires IsRun(h, manifests, worlds, steps) && i <= j < |worlds| && g in worlds[i].system.files.live
    ensures g in worlds[j].system.files.live || g in worlds[j].system.moved
    decreases j
  {
    hide Proper, UniqueContents, Stocked, ImportCycle.Served, GcProtocol.Inv, GcProtocol.Enabled, GcProtocol.Take;
    if i < j {
      LiveOrMoved(h, manifests, worlds, steps, i, j - 1, g);
      RunKeepsInv(h, manifests, worlds, steps, j - 1);
      var w, w' := worlds[j - 1], worlds[j];
      assert Next(h, manifests, w, steps[j - 1], worlds[j - 1 + 1]);
      ProtocolKeeps(w.system, AsProtocol(w, steps[j - 1], w'), w'.system);
    }
  }

  // A lease is granted only on a generation that no retirement has closed, so not on a moved one.
  lemma GrantedIsLive(w: World, g: u32, name: nat, outcome: WriteOutcome)
    requires GcProtocol.Inv(w.system) && GcProtocol.Enabled(w.system, GcProtocol.TakeLease(g, name, outcome))
    requires name in GcProtocol.Take(w.system, GcProtocol.TakeLease(g, name, outcome)).handles
    ensures var s := GcProtocol.Take(w.system, GcProtocol.TakeLease(g, name, outcome));
            && g !in w.system.moved && g !in w.system.files.retiring
            && name in s.files.leases && s.files.leases[name] == g && s.files.live == w.system.files.live
  {
  }

  lemma {:induction false} HeldStaysLive(
    h: Hashes, manifests: Manifests, worlds: seq<World>, steps: seq<Step>, i: nat, j: nat, name: nat, g: u32)
    requires IsRun(h, manifests, worlds, steps) && i <= j < |worlds|
    requires forall n :: i <= n <= j ==> name in worlds[n].system.handles
    requires name in worlds[i].system.files.leases && worlds[i].system.files.leases[name] == g
    requires g in worlds[i].system.files.live
    ensures name in worlds[j].system.files.leases && worlds[j].system.files.leases[name] == g
    ensures g in worlds[j].system.files.live
    decreases j
  {
    hide Proper, UniqueContents, Stocked, ImportCycle.Served, GcProtocol.Inv, GcProtocol.Enabled, GcProtocol.Take;
    if i < j {
      HeldStaysLive(h, manifests, worlds, steps, i, j - 1, name, g);
      RunKeepsInv(h, manifests, worlds, steps, j - 1);
      RunKeepsInv(h, manifests, worlds, steps, j);
      var w, w' := worlds[j - 1], worlds[j];
      assert Next(h, manifests, w, steps[j - 1], worlds[j - 1 + 1]);
      HandlesHaveLeases(w'.system);
      GcProtocol.LeaseKeepsDirectory(w.system, AsProtocol(w, steps[j - 1], w'), name);
    }
  }

  lemma HandlesHaveLeases(s: GcProtocol.System)
    requires GcProtocol.Inv(s)
    ensures s.handles <= s.files.leases.Keys
  {
  }

  // A reader that looks an object up, is then granted a lease on the generation it found, and reads
  // under it finds the very record that was there at the lookup, whatever was imported, published,
  // collected, retired or restarted before the lease and meanwhile.
  lemma LeasedReadSucceeds(
    h: Hashes, manifests: Manifests, worlds: seq<World>, steps: seq<Step>, i: nat, k: nat, j: nat, r: Ref,
    location: ObjectLocation, name: nat, outcome: WriteOutcome)
    requires IsRun(h, manifests, worlds, steps) && i <= k < j < |worlds|
    requires var c := worlds[i].system.catalog;
             && Reachable(c, h, ImportCycle.Roots(c, manifests), r)
             && Aliased(c, r) && Alias(c, r) in c.locations && c.locations[Alias(c, r)] == location
    requires steps[k] == Protocol(GcProtocol.TakeLease(location.generation, name, outcome))
    requires forall n :: k < n <= j ==> name in worlds[n].system.handles
    ensures location.generation in worlds[j].system.files.live
    ensures location in worlds[i].records && location in worlds[j].records
    ensures worlds[j].records[location] == worlds[i].records[location]
    ensures Readable(h, worlds[j].records, location, Alias(worlds[i].system.catalog, r))
  {
    hide Proper, UniqueContents, Reachable, ImportCycle.Roots, Readable, Stocked, ImportCycle.Served, GcProtocol.Inv,
      GcProtocol.Enabled, GcProtocol.Take, Keeps;
    LookupSucceeds(h, manifests, worlds, steps, i, r);
    LiveOrMoved(h, manifests, worlds, steps, i, k, location.generation);
    RunKeepsInv(h, manifests, worlds, steps, k);
    assert Next(h, manifests, worlds[k], steps[k], worlds[k + 1]);
    GrantedIsLive(worlds[k], location.generation, name, outcome);
    HeldStaysLive(h, manifests, worlds, steps, k + 1, j, name, location.generation);
    RecordsStay(h, manifests, worlds, steps, i, j);
    KeptReadable(h, worlds[i].records, worlds[j].records, location, Alias(worlds[i].system.catalog, r));
  }

  // A lease is refused only after a collection has published another generation since the lookup;
  // looked up again, the object is where a lease is admitted.
  lemma RefusalMeansCollected(
    h: Hashes, manifests: Manifests, worlds: seq<World>, steps: seq<Step>, i: nat, k: nat, r: Ref, location: ObjectLocation)
    requires IsRun(h, manifests, worlds, steps) && i <= k < |worlds|
    requires var c := worlds[i].system.catalog;
             && Reachable(c, h, ImportCycle.Roots(c, manifests), r)
             && Aliased(c, r) && Alias(c, r) in c.locations && c.locations[Alias(c, r)] == location
    requires location.generation in worlds[k].system.files.retiring
    ensures worlds[i].system.catalog.current == Some(location.generation)
    ensures worlds[k].system.catalog.current.Some? && location.generation < worlds[k].system.catalog.current.value
    ensures var c := worlds[k].system.catalog;
            Reachable(c, h, ImportCycle.Roots(c, manifests), r) ==>
              Aliased(c, r) && Alias(c, r) in c.locations && c.locations[Alias(c, r)].generation == c.current.value
  {
    hide Next, Proper, UniqueContents, Reachable, ImportCycle.Roots, Readable, GcProtocol.Inv;
    RunKeepsInv(h, manifests, worlds, steps, i);
    RunKeepsInv(h, manifests, worlds, steps, k);
    assert ImportCycle.Current(worlds[i].system.catalog, Alias(worlds[i].system.catalog, r));
  }
}
