/** Runs that leave a Ready snapshot without its object. */
module ImportWitness {
  import opened Bytes
  import opened Core
  import opened RecordFormat
  import opened Catalog
  import opened Mark
  import opened MarkWitness
  import opened Compaction
  import opened ImportCycle
  import SnapshotManifest

  // One repository with one blob, imported as snapshot `first` and later as snapshot `second`.
  datatype Case = Case(repo: Id16, first: Id16, second: Id16) {
    function Blob(): Object { Object(ONE_OID, ObjectKind.Blob, []) }

    function ManifestOf(snapshot: Id16): SnapshotManifest.Manifest {
      SnapshotManifest.Manifest(
        repo, snapshot, Sha1, [SnapshotManifest.PersistedRef(SnapshotManifest.HEADS + [97], SnapshotManifest.Branch, ONE_OID)],
        SnapshotManifest.ImportSummary(0, 0, 0, 0), 0, [49], [])
    }

    function Sources(): Manifests {
      (repository: Id16, snapshot: Id16) => if repository == repo then Some(ManifestOf(snapshot)) else None
    }

    function Place(generation: u32): ObjectLocation {
      ObjectLocation(generation, 1, 64, 152, 0, 0, ObjectKind.Blob, Raw, 0, 0)
    }

    function ImportAt(generation: u32): Step {
      Import(repo, [Blob()], (_: nat) => Place(generation))
    }

    function PublishAs(snapshot: Id16): Step { Publish(repo, snapshot, [Blob()]) }

    // The catalog with the blob where the first import put it.
    function Holding(snapshots: map<(Id16, Id16), SnapshotVisibility>, current: u32): State {
      State(map[ONE_ID := Place(1)], map[(repo, ONE_OID) := ONE_ID], snapshots, map[], map[], Some(current))
    }

    // Import, publish, forget, collect, retire, and import and publish again.
    function Steps(): seq<Step> {
      [ImportAt(1), PublishAs(first), Forget(repo, first), Collect([], map[], [], []), Retire(1), ImportAt(2),
       PublishAs(second)]
    }

    function Worlds(): seq<World> {
      [World(State(map[], map[], map[], map[], map[], Some(1)), {1}),
       World(Holding(map[], 1), {1}),
       World(Holding(map[(repo, first) := Ready], 1), {1}),
       World(Holding(map[], 1), {1}),
       World(Holding(map[], 2), {1, 2}),
       World(Holding(map[], 2), {2}),
       World(Holding(map[], 2), {2}),
       World(Holding(map[(repo, second) := Ready], 2), {2})]
    }

    // Import, collect, retire, and only then publish.
    function LateSteps(): seq<Step> { [ImportAt(1), Collect([], map[], [], []), Retire(1), PublishAs(second)] }

    function LateWorlds(): seq<World> {
      [Worlds()[0], Worlds()[1], Worlds()[4], Worlds()[5], Worlds()[7]]
    }
  }

  lemma BlobClosure(k: Case, snapshot: Id16)
    ensures Closure(OneBlobHashes(), k.Sources(), k.repo, snapshot, [k.Blob()])
  {
    BlobChildren(ONE_OID, []);
    var m := k.ManifestOf(snapshot);
    assert Targets(m) == [ONE_OID];
    assert [k.Blob()][0].oid == ONE_OID;
  }

  lemma OneUniqueBlob(k: Case, snapshots: map<(Id16, Id16), SnapshotVisibility>, current: u32)
    ensures UniqueContents(k.Holding(snapshots, current), OneBlobHashes())
  {
    assert ONE_ID[0] != OTHER_ID[0];
  }

  lemma FirstImport(k: Case)
    ensures Next(OneBlobHashes(), k.Sources(), k.Worlds()[0], k.Steps()[0], k.Worlds()[1])
  {
    var h, c, o := OneBlobHashes(), k.Worlds()[0].catalog, k.Blob();
    IndexFacts(c, h, k.repo, o, k.Place(1));
    TwoStaged(c, PutObjectLocation(ONE_ID, k.Place(1)), PutOidAlias(k.repo, ONE_OID, ONE_ID));
    OneImported(c, h, k.repo, o, (_: nat) => k.Place(1));
  }

  lemma OneImported(c: State, h: Hashes, repo: Id16, o: Object, places: nat -> ObjectLocation)
    ensures var staged := Staged(c, IndexBatch(c, h, repo, o, places(0)));
            Imported(c, h, repo, [o], places) == if staged.Err? then (c, Err(staged.error)) else (staged.value, Ok(()))
  {
    hide Staged;
    assert [o][..0] == [];
  }

  // The second import finds a location and writes only the alias it already has.
  lemma SecondImport(k: Case)
    ensures Next(OneBlobHashes(), k.Sources(), k.Worlds()[5], k.Steps()[5], k.Worlds()[6])
  {
    var h, c, o := OneBlobHashes(), k.Worlds()[5].catalog, k.Blob();
    IndexFacts(c, h, k.repo, o, k.Place(2));
    OneStaged(c, PutOidAlias(k.repo, ONE_OID, ONE_ID));
    OneImported(c, h, k.repo, o, (_: nat) => k.Place(2));
  }

  lemma Publications(k: Case)
    ensures Next(OneBlobHashes(), k.Sources(), k.Worlds()[1], k.PublishAs(k.first), k.Worlds()[2])
    ensures Next(OneBlobHashes(), k.Sources(), k.Worlds()[5], k.PublishAs(k.second), k.Worlds()[7])
  {
    hide Closure;
    BlobClosure(k, k.first);
    BlobClosure(k, k.second);
  }

  lemma EmptyCollection(k: Case)
    ensures Next(OneBlobHashes(), k.Sources(), k.Worlds()[3], k.Steps()[3], k.Worlds()[4])
  {
    var c, h := k.Worlds()[3].catalog, OneBlobHashes();
    assert RootRefs(c, k.Sources(), []) == {};
    assert Ids([]) == {};
    assert MarkSet(c, h, {}, 1, []);
  }

  lemma OtherSteps(k: Case)
    ensures Next(OneBlobHashes(), k.Sources(), k.Worlds()[2], k.Steps()[2], k.Worlds()[3])
    ensures Next(OneBlobHashes(), k.Sources(), k.Worlds()[4], k.Steps()[4], k.Worlds()[5])
  {
    assert map[(k.repo, k.first) := Ready] - {(k.repo, k.first)} == map[];
    assert {1, 2} - {1} == {2};
  }

  lemma EmptyStart(k: Case)
    ensures Served(k.Worlds()[0].catalog, OneBlobHashes(), k.Sources())
  {
    assert Roots(k.Worlds()[0].catalog, k.Sources()) == {};
  }

  lemma CaseIsUnique(k: Case)
    ensures forall i :: 0 <= i < 8 ==> UniqueContents(k.Worlds()[i].catalog, OneBlobHashes())
  {
    NothingStored(k.Worlds()[0].catalog);
    hide UniqueContents;
    OneUniqueBlob(k, map[(k.repo, k.first) := Ready], 1);
    OneUniqueBlob(k, map[], 1);
    OneUniqueBlob(k, map[], 2);
    OneUniqueBlob(k, map[(k.repo, k.second) := Ready], 2);
  }

  lemma NothingStored(c: State)
    requires c.locations == map[]
    ensures UniqueContents(c, OneBlobHashes())
  {
  }

  // Without roots there is nothing to agree on.
  lemma EmptyAgrees(k: Case)
    ensures Agreed(OneBlobHashes(), k.Sources(), k.Worlds()[3], k.Steps()[3])
  {
    var c := k.Worlds()[3].catalog;
    assert RootRefs(c, k.Sources(), []) == {};
    assert forall r :: !Reachable(c, OneBlobHashes(), {}, r);
  }

  // The published object lies in a directory that is gone, and the next mark fails.
  ghost predicate Lost(k: Case, w: World) {
    var c, h, r := w.catalog, OneBlobHashes(), Ref(k.repo, ONE_OID);
    && Reachable(c, h, Roots(c, k.Sources()), r) && Aliased(c, r) && Alias(c, r) in c.locations
    && c.locations[Alias(c, r)].generation !in w.directories && !Located(c, h, k.Sources())
    && forall reader, limits: MarkLimits | limits.maxSnapshotRoots >= 1 && limits.maxObjectReferences >= 1 ::
         MarkRun(c, Some([RepositorySnapshot(k.repo, k.second)]), k.Sources(), reader, h, [], limits)
         == Err(LocationOutsideCurrentGeneration(ONE_ID))
  }

  lemma CaseIsLost(k: Case)
    ensures Lost(k, k.Worlds()[7])
  {
    hide Reachable, MarkRun;
    var c, r := k.Worlds()[7].catalog, Ref(k.repo, ONE_OID);
    CaseRoots(k);
    RootReachable(c, OneBlobHashes(), Roots(c, k.Sources()), r);
    forall reader, limits: MarkLimits | limits.maxSnapshotRoots >= 1 && limits.maxObjectReferences >= 1
      ensures MarkRun(c, Some([RepositorySnapshot(k.repo, k.second)]), k.Sources(), reader, OneBlobHashes(), [], limits)
              == Err(LocationOutsideCurrentGeneration(ONE_ID))
    {
      CaseMarkFails(k, reader, limits);
    }
  }

  // An object that was imported, forgotten and collected away is imported again: the second import
  // writes only an alias.
  lemma DeduplicatedImportLosesObject(k: Case)
    ensures IsRun(OneBlobHashes(), k.Sources(), k.Worlds(), k.Steps()) && Lost(k, k.Worlds()[7])
  {
    hide Next, UniqueContents, Agreeing, Served, Lost;
    EmptyStart(k);
    FirstImport(k);
    Publications(k);
    OtherSteps(k);
    EmptyCollection(k);
    SecondImport(k);
    CaseIsUnique(k);
    EmptyAgrees(k);
    CaseIsLost(k);
    assert k.Worlds()[6] == k.Worlds()[5];
  }

  // A collection between an import and its publication loses the object as well.
  lemma LatePublicationLosesObject(k: Case)
    ensures IsRun(OneBlobHashes(), k.Sources(), k.LateWorlds(), k.LateSteps()) && Lost(k, k.LateWorlds()[4])
  {
    hide Next, UniqueContents, Agreeing, Served, Lost;
    EmptyStart(k);
    FirstImport(k);
    Publications(k);
    OtherSteps(k);
    EmptyCollection(k);
    CaseIsUnique(k);
    EmptyAgrees(k);
    CaseIsLost(k);
    assert k.Worlds()[3] == k.Worlds()[1];
  }

  // Publication does not look for the object: the snapshot is Ready and the next mark misses its alias.
  lemma UnimportedPublicationStopsMark(k: Case, reader: Reader, limits: MarkLimits)
    requires limits.maxSnapshotRoots >= 1 && limits.maxObjectReferences >= 1
    ensures var ready := World(ReadyWith(k.Worlds()[0].catalog, k.repo, k.second), {1});
            && IsRun(OneBlobHashes(), k.Sources(), [k.Worlds()[0], ready], [k.PublishAs(k.second)])
            && MarkRun(ready.catalog, Some([RepositorySnapshot(k.repo, k.second)]), k.Sources(), reader, OneBlobHashes(), [],
                       limits) == Err(MissingAlias(Ref(k.repo, ONE_OID)))
  {
    hide MarkRun, UniqueContents, Served;
    var ready := World(ReadyWith(k.Worlds()[0].catalog, k.repo, k.second), {1});
    EmptyStart(k);
    NothingStored(k.Worlds()[0].catalog);
    BlobClosure(k, k.second);
    assert Next(OneBlobHashes(), k.Sources(), k.Worlds()[0], k.PublishAs(k.second), ready);
    NothingStored(ready.catalog);
    RootMarkFails(k, ready.catalog, reader, limits);
  }

  lemma CaseRoots(k: Case)
    ensures Ref(k.repo, ONE_OID) in Roots(k.Worlds()[7].catalog, k.Sources())
  {
    var r, m := Ref(k.repo, ONE_OID), k.ManifestOf(k.second);
    assert Targets(m) == [ONE_OID];
    RootsGrow(k.Worlds()[6].catalog, k.Worlds()[7].catalog, k.Sources(), k.repo, k.second, r);
  }

  lemma CaseMarkFails(k: Case, reader: Reader, limits: MarkLimits)
    requires limits.maxSnapshotRoots >= 1 && limits.maxObjectReferences >= 1
    ensures MarkRun(k.Worlds()[7].catalog, Some([RepositorySnapshot(k.repo, k.second)]), k.Sources(), reader,
                    OneBlobHashes(), [], limits) == Err(LocationOutsideCurrentGeneration(ONE_ID))
  {
    hide MarkRun;
    RootMarkFails(k, k.Worlds()[7].catalog, reader, limits);
  }

  lemma SourceOf(k: Case, snapshot: Id16)
    ensures k.Sources()(k.repo, snapshot) == Some(k.ManifestOf(snapshot))
  {
  }

  // A mark from the second snapshot fails as the read of its one root does.
  lemma RootMarkFails(k: Case, c: State, reader: Reader, limits: MarkLimits)
    requires limits.maxSnapshotRoots >= 1 && limits.maxObjectReferences >= 1 && c.current.Some?
    requires ReadObject(c, OneBlobHashes(), c.current.value, Ref(k.repo, ONE_OID), reader, 0).Err?
    ensures MarkRun(c, Some([RepositorySnapshot(k.repo, k.second)]), k.Sources(), reader, OneBlobHashes(), [], limits)
            == Err(ReadObject(c, OneBlobHashes(), c.current.value, Ref(k.repo, ONE_OID), reader, 0).error)
  {
    hide ReadObject;
    var root, m := RepositorySnapshot(k.repo, k.second), k.ManifestOf(k.second);
    var r := Ref(k.repo, ONE_OID);
    assert [root][..0] == [];
    assert SnapshotManifest.Valid(m);
    assert Targets(m) == [ONE_OID];
    OneRef(k.repo, ONE_OID);
    SourceOf(k, k.second);
    assert SnapshotCount([root]) == 1;
    assert Seeded(limits, k.Sources(), []) == Ok([]);
    assert Seeded(limits, k.Sources(), [root]) == Ok([] + [r]);
    assert Started(limits, k.Sources(), [root], []) == Ok(Front(1, [] + [r] + [], {}, map[]));
    assert [] + [r] + [] == [r];
  }
}
