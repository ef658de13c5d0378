/** A reader's lease across a collection and a retirement. */
module ReadWitness {
  import opened Bytes
  import opened Core
  import opened Host
  import opened RecordFormat
  import opened Catalog
  import opened Mark
  import opened MarkWitness
  import opened Compaction
  import opened GcCycle
  import opened Generations
  import opened ImportWitness
  import opened ReadCycle
  import GcProtocol
  import ImportCycle

  const LEASE: nat := 0

  function Stored(): ObjectRecord { ObjectRecord(Blob, Raw, 0, 0, ONE_ID, ONE_OID, []) }

  function Copies(k: Case): Records { map[k.Place(1) := Stored(), k.Place(2) := Stored()] }

  // The catalog of one published blob before the collection and after it.
  function Before(k: Case): State { k.Holding(map[(k.repo, k.first) := Ready], 1) }

  function After(k: Case): State { Before(k).(locations := map[ONE_ID := k.Place(2)], current := Some(2)) }

  function Lease(): Step { Protocol(GcProtocol.TakeLease(1, LEASE, Written)) }

  function Collection(k: Case): Step {
    Content(ImportCycle.Collect([], Copies(k), [(ONE_ID, k.Place(1))], [(ONE_ID, k.Place(2))]), Written)
  }

  // Lease, create the target, collect, try to retire, drop the lease, retire.
  function Steps(k: Case): seq<Step> {
    var begin := Protocol(GcProtocol.BeginRetire(1, 2, Written));
    var finish := Protocol(GcProtocol.FinishRetire(RetireFaults(Written, Written)));
    [Lease(), Protocol(GcProtocol.CreateDirectory(2)), Collection(k), begin, finish,
     Protocol(GcProtocol.DropLease(LEASE, true)), begin, finish]
  }

  function Held(k: Case, c: State, pointer: u32, retiring: set<u32>, live: set<u32>, busy: Option<(u32, u32)>): World {
    World(GcProtocol.System(c, Files(Active(pointer), map[LEASE := 1], retiring, live, {}), true, {LEASE}, busy, {}), Copies(k))
  }

  function Free(k: Case, retiring: set<u32>, live: set<u32>, trash: set<u32>, busy: Option<(u32, u32)>): World {
    World(GcProtocol.System(After(k), Files(Active(2), map[], retiring, live, trash), true, {}, busy, trash), Copies(k))
  }

  function Start(k: Case): World {
    World(GcProtocol.System(Before(k), Files(Active(1), map[], {}, {1}, {}), true, {}, None, {}), Copies(k))
  }

  function Worlds(k: Case): seq<World> {
    [Start(k),
     Held(k, Before(k), 1, {}, {1}, None),
     Held(k, Before(k), 1, {}, {1, 2}, None),
     Held(k, After(k), 2, {}, {1, 2}, None),
     Held(k, After(k), 2, {}, {1, 2}, Some((1, 2))),
     Held(k, After(k), 2, {1}, {1, 2}, None),
     Free(k, {1}, {1, 2}, {}, None),
     Free(k, {1}, {1, 2}, {}, Some((1, 2))),
     Free(k, {1}, {2}, {1}, None)]
  }

  lemma StoredReads(k: Case, generation: u32)
    requires generation == 1 || generation == 2
    ensures Readable(OneBlobHashes(), Copies(k), k.Place(generation), ONE_ID)
  {
    assert Resolves(OneBlobHashes(), Copies(k), k.Place(generation), ONE_ID, Blob, []);
  }

  lemma OneRoot(k: Case, c: State)
    requires c.snapshots == map[(k.repo, k.first) := Ready]
    ensures ImportCycle.Roots(c, k.Sources()) == {Ref(k.repo, ONE_OID)}
    ensures RootRefs(c, k.Sources(), []) == {Ref(k.repo, ONE_OID)}
  {
    SourceOf(k, k.first);
    var m := k.ManifestOf(k.first);
    assert m.refs[0].target == ONE_OID && |m.refs| == 1;
  }

  // The blob refers to nothing, so it is all that is reachable.
  lemma {:induction false} OnlyTheBlob(k: Case, c: State, p: seq<Ref>)
    requires c.aliases == map[(k.repo, ONE_OID) := ONE_ID] && ONE_ID in c.locations
    requires IsPath(c, OneBlobHashes(), {Ref(k.repo, ONE_OID)}, p)
    ensures |p| == 1
  {
    hide Children;
    var h, r := OneBlobHashes(), Ref(k.repo, ONE_OID);
    if |p| > 1 {
      assert Edge(c, h, p[0], p[1]);
      var kind, raw :| Names(c, h, r, kind, raw) && p[1].oid in Children(r.oid, kind, raw);
      assert ONE_ID[0] != OTHER_ID[0];
      BlobChildren(ONE_OID, []);
      assert false;
    }
  }

  lemma BlobIsServed(k: Case, c: State)
    requires c.aliases == map[(k.repo, ONE_OID) := ONE_ID] && ONE_ID in c.locations
    requires c.snapshots == map[(k.repo, k.first) := Ready]
    requires c.current.Some? && c.locations[ONE_ID].generation == c.current.value
    ensures ImportCycle.Served(c, OneBlobHashes(), k.Sources())
  {
    hide Edge, ImportCycle.Roots;
    OneRoot(k, c);
    forall r | Reachable(c, OneBlobHashes(), {Ref(k.repo, ONE_OID)}, r)
      ensures r == Ref(k.repo, ONE_OID)
    {
      var p :| IsPath(c, OneBlobHashes(), {Ref(k.repo, ONE_OID)}, p) && p[|p| - 1] == r;
      OnlyTheBlob(k, c, p);
    }
  }

  lemma StartIsInv(k: Case)
    ensures Inv(OneBlobHashes(), k.Sources(), Start(k))
  {
    hide ImportCycle.Served, Readable;
    BlobIsServed(k, Before(k));
    StoredReads(k, 1);
  }

  lemma FirstSteps(k: Case)
    ensures Next(OneBlobHashes(), k.Sources(), Worlds(k)[0], Steps(k)[0], Worlds(k)[1])
    ensures Next(OneBlobHashes(), k.Sources(), Worlds(k)[1], Steps(k)[1], Worlds(k)[2])
  {
    hide Copies;
  }

  // The retirement closes the generation to new leases and finds the one that is held.
  lemma DeferredSteps(k: Case)
    ensures Next(OneBlobHashes(), k.Sources(), Worlds(k)[3], Steps(k)[3], Worlds(k)[4])
    ensures Next(OneBlobHashes(), k.Sources(), Worlds(k)[4], Steps(k)[4], Worlds(k)[5])
  {
    hide Copies;
    var leases: map<nat, u32> := map[LEASE := 1];
    assert leases[LEASE] == 1;
    assert Leased(leases, 1);
  }

  lemma DroppedStep(k: Case)
    ensures Next(OneBlobHashes(), k.Sources(), Worlds(k)[5], Steps(k)[5], Worlds(k)[6])
  {
    hide Copies;
    var leases: map<nat, u32> := map[LEASE := 1];
    assert leases - {LEASE} == map[];
  }

  lemma MovedSteps(k: Case)
    ensures Next(OneBlobHashes(), k.Sources(), Worlds(k)[6], Steps(k)[6], Worlds(k)[7])
    ensures Next(OneBlobHashes(), k.Sources(), Worlds(k)[7], Steps(k)[7], Worlds(k)[8])
  {
    hide Copies;
    assert {1, 2} - {1} == {2};
  }

  lemma BlobIsMarked(k: Case)
    ensures MarkSet(Before(k), OneBlobHashes(), {Ref(k.repo, ONE_OID)}, 1, [(ONE_ID, k.Place(1))])
  {
    hide Reachable;
    var c, h, r := Before(k), OneBlobHashes(), Ref(k.repo, ONE_OID);
    var pairs: seq<Pair> := [(ONE_ID, k.Place(1))];
    RootReachable(c, h, {r}, r);
    assert pairs[0].0 == ONE_ID;
    assert Ids(pairs) == {ONE_ID};
    BlobChildren(ONE_OID, []);
    assert Closed(c, h, {r}, {ONE_ID}, ONE_ID, Visit(r, Blob, []));
  }

  lemma BlobAgrees(k: Case)
    ensures Agreeing(Before(k), OneBlobHashes(), {Ref(k.repo, ONE_OID)})
  {
    hide Reachable;
  }

  lemma BlobIsCollected(k: Case)
    ensures Collected(Before(k), After(k), OneBlobHashes(), {Ref(k.repo, ONE_OID)}, Copies(k), 1,
                      [(ONE_ID, k.Place(1))], [(ONE_ID, k.Place(2))])
  {
    hide MarkSet, Readable, Copies;
    BlobIsMarked(k);
    StoredReads(k, 2);
    var live: seq<Pair> := [(ONE_ID, k.Place(1))];
    assert live[0].0 == ONE_ID;
    assert Ids(live) == {ONE_ID};
  }

  lemma CollectionStep(k: Case)
    ensures Next(OneBlobHashes(), k.Sources(), Worlds(k)[2], Steps(k)[2], Worlds(k)[3])
    ensures Proper(OneBlobHashes(), k.Sources(), Worlds(k)[2], Steps(k)[2])
  {
    hide Collected, Copies, Agreeing, SnapshotRefs;
    OneRoot(k, Before(k));
    BlobIsCollected(k);
    BlobAgrees(k);
    assert {1, 2} + {2} == {1, 2};
  }

  // A reader leases the generation, which is then collected and asked to retire: the directory stays
  // until the lease is dropped and is gone after the next attempt.
  lemma LeaseOutlastsCollection(k: Case)
    ensures IsRun(OneBlobHashes(), k.Sources(), Worlds(k), Steps(k))
    ensures forall n :: 1 <= n <= 5 ==> LEASE in Worlds(k)[n].system.handles && 1 in Worlds(k)[n].system.files.live
    ensures Worlds(k)[5].system.catalog.current == Some(2) && 1 in Worlds(k)[5].system.files.retiring
    ensures 1 !in Worlds(k)[8].system.files.live && 1 in Worlds(k)[8].system.moved
  {
    hide Inv, Next, UniqueContents, Copies;
    StartIsInv(k);
    FirstSteps(k);
    DeferredSteps(k);
    DroppedStep(k);
    MovedSteps(k);
    CollectionStep(k);
    forall n | 0 <= n < 9
      ensures UniqueContents(Worlds(k)[n].system.catalog, OneBlobHashes())
    {
      StoredIsUnique(k, Worlds(k)[n].system.catalog);
    }
  }

  lemma StoredIsUnique(k: Case, c: State)
    requires c.locations.Keys == {ONE_ID}
    ensures UniqueContents(c, OneBlobHashes())
  {
    assert ONE_ID[0] != OTHER_ID[0];
  }
}
