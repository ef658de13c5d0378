/** Making a repository snapshot visible (crates/reflink-forest-import). */
module Publication {
  import opened Bytes
  import opened Core
  import opened Host
  import opened Catalog
  import opened SnapshotManifest
  import Mark

  type Path = seq<byte>

  type Files = map<Path, seq<byte>>

  type Key = (Id16, Id16)

  datatype Status = Published | AlreadyReady

  datatype PublicationError =
    | ManifestFailed(manifest: ManifestError)
    | ManifestIo
    | CatalogFailed
    | SnapshotAlreadyReady
    | SnapshotNotMarkedIncomplete
    | PersistedManifestMismatch

  function Identity(m: Manifest): Key { (m.repository, m.snapshotId) }

  function Visibility(c: State, k: Key): Option<SnapshotVisibility> {
    if k in c.snapshots then Some(c.snapshots[k]) else None
  }

  function Marked(c: State, k: Key, v: SnapshotVisibility): State { c.(snapshots := c.snapshots[k := v]) }

  // ---------- The three stages ----------

  function Begun(c: State, m: Manifest, commits: bool): (State, Result<(), PublicationError>) {
    if !Valid(m) then (c, Err(ManifestFailed(ValidationError(m))))
    else
      match Visibility(c, Identity(m))
      case Some(Ready) => (c, Err(SnapshotAlreadyReady))
      case Some(Incomplete) => (c, Ok(()))
      case None => if commits then (Marked(c, Identity(m), Incomplete), Ok(())) else (c, Err(CatalogFailed))
  }

  function WrittenManifest(files: Files, path: Path, m: Manifest, outcome: WriteOutcome): (Files, Result<(), PublicationError>) {
    var bytes := Encode(m);
    if bytes.Err? then (files, Err(ManifestFailed(bytes.error)))
    else (AfterWrite(outcome, files, files[path := bytes.value]), if outcome == Written then Ok(()) else Err(ManifestIo))
  }

  function ReadManifest(files: Files, path: Path): Result<Manifest, PublicationError> {
    if path !in files then Err(ManifestIo)
    else
      var m := Decode(files[path]);
      if m.Ok? then Ok(m.value) else Err(ManifestFailed(m.error))
  }

  function Promoted(c: State, m: Manifest, commits: bool): (State, Result<Status, PublicationError>) {
    match Visibility(c, Identity(m))
    case Some(Ready) => (c, Ok(AlreadyReady))
    case Some(Incomplete) => if commits then (Marked(c, Identity(m), Ready), Ok(Published)) else (c, Err(CatalogFailed))
    case None => (c, Err(SnapshotNotMarkedIncomplete))
  }

  function Finished(c: State, files: Files, path: Path, expected: Manifest, commits: bool): (State, Result<Status, PublicationError>) {
    var persisted := ReadManifest(files, path);
    if persisted.Err? then (c, Err(persisted.error))
    else if persisted.value != expected then (c, Err(PersistedManifestMismatch))
    else Promoted(c, persisted.value, commits)
  }

  function Reconciled(c: State, files: Files, path: Path, commits: bool): (State, Result<Status, PublicationError>) {
    var persisted := ReadManifest(files, path);
    if persisted.Err? then (c, Err(persisted.error)) else Promoted(c, persisted.value, commits)
  }

  // How each stage turns out; a crash between stages is a failure of the next one.
  datatype Faults = Faults(begins: bool, write: WriteOutcome, finishes: bool)

  function PublishedWhole(c: State, files: Files, path: Path, m: Manifest, faults: Faults)
    : (State, Files, Result<Status, PublicationError>)
  {
    var (begun, started) := Begun(c, m, faults.begins);
    if started.Err? then (begun, files, Err(started.error))
    else
      var (files', written) := WrittenManifest(files, path, m, faults.write);
      if written.Err? then (begun, files', Err(written.error))
      else
        var (c', finished) := Finished(begun, files', path, m, faults.finishes);
        (c', files', finished)
  }

  // ---------- The operations ----------

  class ManifestDirectory {
    var files: Files

    method WriteManifest(path: Path, m: Manifest, outcome: WriteOutcome) returns (result: Result<(), PublicationError>)
      modifies this
      ensures (files, result) == WrittenManifest(old(files), path, m, outcome)
    {
      hide Valid, AllBytes;
      var bytes := EncodeManifest(m);
      if bytes.Err? {
        return Err(ManifestFailed(bytes.error));
      }
      files := AfterWrite(outcome, files, files[path := bytes.value]);
      return if outcome == Written then Ok(()) else Err(ManifestIo);
    }
  }

  method BeginPublication(catalog: CatalogStore, m: Manifest, commits: bool) returns (result: Result<(), PublicationError>)
    modifies catalog
    ensures (catalog.state, result) == Begun(old(catalog.state), m, commits)
  {
    hide Valid;
    var problem := Validate(m);
    if problem.Some? {
      return Err(ManifestFailed(NotValid(problem.value)));
    }
    match Visibility(catalog.state, Identity(m)) {
      case Some(Ready) => return Err(SnapshotAlreadyReady);
      case Some(Incomplete) => return Ok(());
      case None =>
        var batch := [PutRepositorySnapshot(m.repository, m.snapshotId, Incomplete)];
        assert batch[..0] == [];
        WithoutAliases(catalog.state, batch);
        var committed := catalog.Commit(batch, commits);
        return if committed.Ok? then Ok(()) else Err(CatalogFailed);
    }
  }

  method FinishPersisted(catalog: CatalogStore, m: Manifest, commits: bool) returns (result: Result<Status, PublicationError>)
    modifies catalog
    ensures (catalog.state, result) == Promoted(old(catalog.state), m, commits)
  {
    match Visibility(catalog.state, Identity(m)) {
      case Some(Ready) => return Ok(AlreadyReady);
      case Some(Incomplete) =>
        var batch := [PutRepositorySnapshot(m.repository, m.snapshotId, Ready)];
        assert batch[..0] == [];
        WithoutAliases(catalog.state, batch);
        var committed := catalog.Commit(batch, commits);
        return if committed.Ok? then Ok(Published) else Err(CatalogFailed);
      case None => return Err(SnapshotNotMarkedIncomplete);
    }
  }

  method FinishPublication(catalog: CatalogStore, directory: ManifestDirectory, path: Path, expected: Manifest, commits: bool)
      returns (result: Result<Status, PublicationError>)
    modifies catalog
    ensures (catalog.state, result) == Finished(old(catalog.state), directory.files, path, expected, commits)
  {
    hide Decode;
    var persisted := ReadManifest(directory.files, path);
    if persisted.Err? {
      return Err(persisted.error);
    }
    if persisted.value != expected {
      return Err(PersistedManifestMismatch);
    }
    result := FinishPersisted(catalog, persisted.value, commits);
  }

  method ReconcilePublication(catalog: CatalogStore, directory: ManifestDirectory, path: Path, commits: bool)
      returns (result: Result<Status, PublicationError>)
    modifies catalog
    ensures (catalog.state, result) == Reconciled(old(catalog.state), directory.files, path, commits)
  {
    hide Decode;
    var persisted := ReadManifest(directory.files, path);
    if persisted.Err? {
      return Err(persisted.error);
    }
    result := FinishPersisted(catalog, persisted.value, commits);
  }

  method PublishSnapshotManifest(
    catalog: CatalogStore, directory: ManifestDirectory, path: Path, m: Manifest, faults: Faults)
      returns (result: Result<Status, PublicationError>)
    modifies catalog, directory
    ensures (catalog.state, directory.files, result) == PublishedWhole(old(catalog.state), old(directory.files), path, m, faults)
  {
    hide Begun, WrittenManifest, Finished;
    var begun := BeginPublication(catalog, m, faults.begins);
    if begun.Err? {
      return Err(begun.error);
    }
    var written := directory.WriteManifest(path, m, faults.write);
    if written.Err? {
      return Err(written.error);
    }
    result := FinishPublication(catalog, directory, path, m, faults.finishes);
  }

  // Every stage of a publication, whatever fails: a snapshot that was Ready is left alone with
  // its file, and success leaves exactly this manifest behind a Ready marker.
  lemma PublicationOutcome(c: State, files: Files, path: Path, m: Manifest, faults: Faults)
    ensures var (c', files', result) := PublishedWhole(c, files, path, m, faults);
            var k := Identity(m);
            && (Visibility(c, k) == Some(Ready) ==> c' == c && files' == files && result.Err?)
            && (result.Ok? ==>
                  && result.value == Published && c' == Marked(c, k, Ready)
                  && Encode(m).Ok? && files' == files[path := Encode(m).value])
            && (c' == c || c' == Marked(c, k, Incomplete) || (result.Ok? && c' == Marked(c, k, Ready)))
            && (files' == files || (Encode(m).Ok? && files' == files[path := Encode(m).value] && k in c'.snapshots))
  {
    hide Encode, Decode, Valid, ReadManifest, Marked, Visibility;
    var k := Identity(m);
    MarkFacts(c, k);
    if Encode(m).Ok? {
      WrittenReads(files, path, m);
    }
  }

  // What each stage answers, exactly, and what it leaves in the catalog.
  lemma BeginExactlyWhen(c: State, m: Manifest, commits: bool)
    ensures var (c', result) := Begun(c, m, commits);
            var seen := Visibility(c, Identity(m));
            && (result.Ok? <==> Valid(m) && (seen == Some(Incomplete) || (seen.None? && commits)))
            && (result == Err(SnapshotAlreadyReady) <==> Valid(m) && seen == Some(Ready))
            && (result == Err(CatalogFailed) <==> Valid(m) && seen.None? && !commits)
            && c' == if result.Ok? then Marked(c, Identity(m), Incomplete) else c
  {
    hide Valid;
    MarkFacts(c, Identity(m));
  }

  lemma PromotionExactlyWhen(c: State, m: Manifest, commits: bool)
    ensures var (c', result) := Promoted(c, m, commits);
            var seen := Visibility(c, Identity(m));
            && (result == Ok(Published) <==> seen == Some(Incomplete) && commits)
            && (result == Ok(AlreadyReady) <==> seen == Some(Ready))
            && (result == Err(SnapshotNotMarkedIncomplete) <==> seen.None?)
            && (result == Err(CatalogFailed) <==> seen == Some(Incomplete) && !commits)
            && c' == if result == Ok(Published) then Marked(c, Identity(m), Ready) else c
  {
  }

  // Finishing insists on the expected manifest and otherwise does what reconciling does.
  lemma FinishExactlyWhen(c: State, files: Files, path: Path, expected: Manifest, commits: bool)
    ensures var (c', result) := Finished(c, files, path, expected, commits);
            var persisted := ReadManifest(files, path);
            && (persisted == Ok(expected) ==>
                  (c', result) == Promoted(c, expected, commits) == Reconciled(c, files, path, commits))
            && (persisted.Ok? && persisted.value != expected ==> (c', result) == (c, Err(PersistedManifestMismatch)))
            && (persisted.Err? ==> (c', result) == (c, Err(persisted.error)) == Reconciled(c, files, path, commits))
  {
    hide ReadManifest;
  }

  lemma MarkFacts(c: State, k: Key)
    ensures Marked(Marked(c, k, Incomplete), k, Ready) == Marked(c, k, Ready)
    ensures Visibility(c, k) == Some(Incomplete) ==> Marked(c, k, Incomplete) == c
    ensures forall v :: Visibility(Marked(c, k, v), k) == Some(v) && k in Marked(c, k, v).snapshots
    ensures Visibility(c, k).Some? <==> k in c.snapshots
  {
  }

  lemma MarkFrame(c: State, k: Key, v: SnapshotVisibility, other: Key)
    requires other != k
    ensures Visibility(Marked(c, k, v), other) == Visibility(c, other)
  {
  }

  // A valid manifest that is too long for the format leaves its marker Incomplete, for any path
  // and host, and every other one that no fault touches is published.
  lemma TooLongStaysIncomplete(c: State, files: Files, path: Path, m: Manifest, faults: Faults)
    requires Valid(m) && Visibility(c, Identity(m)) != Some(Ready)
    ensures var (c', files', result) := PublishedWhole(c, files, path, m, faults);
            && (TooLong(m) && faults.begins ==>
                  c'.snapshots == c.snapshots[Identity(m) := Incomplete] && files' == files && result.Err?)
            && (faults == Faults(true, Written, true) ==> (result.Err? <==> TooLong(m)))
  {
    hide Encode, Decode, Valid, ReadManifest, TooLong;
    UnencodableExactly(m);
    if Encode(m).Ok? {
      WrittenReads(files, path, m);
    }
  }

  // The longest tool version that validation accepts is published to nobody.
  lemma LongestVersionStaysIncomplete(repository: Id16, snapshotId: Id16, files: Files, path: Path, faults: Faults)
    requires faults.begins
    ensures var m := LongestVersion(repository, snapshotId);
            var (c', files', result) := PublishedWhole(State(map[], map[], map[], map[], map[], None), files, path, m, faults);
            && Valid(m) && c'.snapshots == map[Identity(m) := Incomplete]
            && files' == files && result == Err(ManifestFailed(LengthOverflow))
  {
    LongestVersionUnencodable(repository, snapshotId);
  }

  // A promotion changes one marker from Incomplete to Ready, behind a valid durable manifest of
  // that identity; an absent marker is never promoted.
  lemma PromotionIsBacked(c: State, files: Files, path: Path, commits: bool)
    ensures var (c', result) := Reconciled(c, files, path, commits);
            && (c' != c ==>
                  && ReadManifest(files, path).Ok? && Valid(ReadManifest(files, path).value)
                  && var k := Identity(ReadManifest(files, path).value);
                     Visibility(c, k) == Some(Incomplete) && c' == Marked(c, k, Ready) && result == Ok(Published))
            && (ReadManifest(files, path).Ok? && Visibility(c, Identity(ReadManifest(files, path).value)).None? ==>
                  c' == c && result == Err(SnapshotNotMarkedIncomplete))
  {
    hide Valid, ReadManifest;
    if ReadManifest(files, path).Ok? {
      ReadIsValid(files, path);
    }
  }

  // ---------- Whole runs ----------

  // Each snapshot has its own manifest path.
  ghost predicate OwnPaths(pathOf: Key -> Path) {
    forall k, k' :: pathOf(k) == pathOf(k') ==> k == k'
  }

  datatype World = World(catalog: State, files: Files)

  datatype Step =
    | Publish(m: Manifest, faults: Faults)
    | Finish(m: Manifest, commits: bool)
    | Reconcile(key: Key, commits: bool)
    | Delete(key: Key)
    | ChangeCatalog(catalog: State)

  predicate Enabled(w: World, step: Step) {
    step.ChangeCatalog? ==> step.catalog.snapshots == w.catalog.snapshots
  }

  function Take(pathOf: Key -> Path, w: World, step: Step): World {
    match step
    case Publish(m, faults) =>
      var (c, files, _) := PublishedWhole(w.catalog, w.files, pathOf(Identity(m)), m, faults);
      World(c, files)
    case Finish(m, commits) => w.(catalog := Finished(w.catalog, w.files, pathOf(Identity(m)), m, commits).0)
    case Reconcile(key, commits) => w.(catalog := Reconciled(w.catalog, w.files, pathOf(key), commits).0)
    case Delete(key) => w.(catalog := w.catalog.(snapshots := w.catalog.snapshots - {key}))
    case ChangeCatalog(catalog) => w.(catalog := catalog)
  }

  ghost predicate HasManifest(pathOf: Key -> Path, w: World, k: Key) {
    ReadManifest(w.files, pathOf(k)).Ok? && Identity(ReadManifest(w.files, pathOf(k)).value) == k
  }

  // Every Ready snapshot has its own durable manifest, and a manifest sits only at its own path.
  ghost predicate Inv(pathOf: Key -> Path, w: World) {
    && (forall k :: Visibility(w.catalog, k) == Some(Ready) ==> HasManifest(pathOf, w, k))
    && (forall k :: ReadManifest(w.files, pathOf(k)).Ok? ==> HasManifest(pathOf, w, k))
  }

  lemma WrittenReads(files: Files, path: Path, m: Manifest)
    requires Encode(m).Ok?
    ensures ReadManifest(files[path := Encode(m).value], path) == Ok(m)
    ensures forall other :: other != path ==> ReadManifest(files[path := Encode(m).value], other) == ReadManifest(files, other)
  {
    hide Encode, Decode;
    DecodeUndoesEncode(m);
  }

  // A file is read exactly as the manifest whose encoding it is.
  lemma ReadIffWritten(files: Files, path: Path, m: Manifest)
    ensures ReadManifest(files, path) == Ok(m) <==> path in files && Encode(m) == Ok(files[path])
    ensures path !in files ==> ReadManifest(files, path) == Err(ManifestIo)
  {
    hide Encode, Decode;
    if path in files && Decode(files[path]).Ok? {
      EncodeUndoesDecode(files[path]);
    }
    if Encode(m).Ok? {
      DecodeUndoesEncode(m);
    }
  }

  lemma StepKeepsInv(pathOf: Key -> Path, w: World, step: Step)
    requires OwnPaths(pathOf) && Inv(pathOf, w) && Enabled(w, step)
    ensures Inv(pathOf, Take(pathOf, w, step))
  {
    hide Encode, Decode, PublishedWhole, ReadManifest, Promoted;
    match step {
      case Publish(m, faults) => PublishKeepsInv(pathOf, w, m, faults);
      case Finish(m, commits) => PromoteKeepsInv(pathOf, w, Identity(m), commits);
      case Reconcile(key, commits) => PromoteKeepsInv(pathOf, w, key, commits);
      case Delete(key) => FewerReadyKeepInv(pathOf, w, Take(pathOf, w, step));
      case ChangeCatalog(catalog) => FewerReadyKeepInv(pathOf, w, Take(pathOf, w, step));
    }
  }

  lemma FewerReadyKeepInv(pathOf: Key -> Path, w: World, w': World)
    requires Inv(pathOf, w) && w'.files == w.files
    requires forall k :: k in w'.catalog.snapshots ==> k in w.catalog.snapshots && w'.catalog.snapshots[k] == w.catalog.snapshots[k]
    ensures Inv(pathOf, w')
  {
    hide ReadManifest;
    forall k: Key
      ensures HasManifest(pathOf, w', k) == HasManifest(pathOf, w, k)
      ensures Visibility(w'.catalog, k) == Some(Ready) ==> Visibility(w.catalog, k) == Some(Ready)
    {
    }
  }

  // Promoting whatever manifest is found at a snapshot's path promotes that snapshot.
  lemma PromoteKeepsInv(pathOf: Key -> Path, w: World, k: Key, commits: bool)
    requires Inv(pathOf, w)
    ensures ReadManifest(w.files, pathOf(k)).Ok? ==>
              Inv(pathOf, w.(catalog := Promoted(w.catalog, ReadManifest(w.files, pathOf(k)).value, commits).0))
  {
    hide ReadManifest;
    if ReadManifest(w.files, pathOf(k)).Ok? {
      assert HasManifest(pathOf, w, k);
      var w' := w.(catalog := Promoted(w.catalog, ReadManifest(w.files, pathOf(k)).value, commits).0);
      assert forall other :: HasManifest(pathOf, w', other) == HasManifest(pathOf, w, other);
    }
  }

  lemma PublishKeepsInv(pathOf: Key -> Path, w: World, m: Manifest, faults: Faults)
    requires OwnPaths(pathOf) && Inv(pathOf, w)
    ensures Inv(pathOf, Take(pathOf, w, Publish(m, faults)))
  {
    hide Encode, Decode, PublishedWhole, ReadManifest;
    var k := Identity(m);
    var w' := Take(pathOf, w, Publish(m, faults));
    PublicationOutcome(w.catalog, w.files, pathOf(k), m, faults);
    if Encode(m).Ok? {
      WrittenReads(w.files, pathOf(k), m);
    }
    forall other: Key | other != k
      ensures Visibility(w'.catalog, other) == Visibility(w.catalog, other)
      ensures HasManifest(pathOf, w', other) <==> HasManifest(pathOf, w, other)
    {
      MarkFrame(w.catalog, k, Incomplete, other);
      MarkFrame(w.catalog, k, Ready, other);
    }
  }

  ghost predicate IsRun(pathOf: Key -> Path, worlds: seq<World>, steps: seq<Step>) {
    && OwnPaths(pathOf) && |worlds| == |steps| + 1 && Inv(pathOf, worlds[0])
    && forall i :: 0 <= i < |steps| ==> Enabled(worlds[i], steps[i]) && worlds[i + 1] == Take(pathOf, worlds[i], steps[i])
  }

  lemma {:induction false} ReadyHasManifest(pathOf: Key -> Path, worlds: seq<World>, steps: seq<Step>, n: nat)
    requires IsRun(pathOf, worlds, steps) && n < |worlds|
    ensures Inv(pathOf, worlds[n])
  {
    hide Take, Enabled, Inv, OwnPaths;
    if n > 0 {
      ReadyHasManifest(pathOf, worlds, steps, n - 1);
      StepKeepsInv(pathOf, worlds[n - 1], steps[n - 1]);
    }
  }

  // While a snapshot stays Ready its manifest is never replaced.
  lemma {:induction false} ReadyManifestIsFixed(pathOf: Key -> Path, worlds: seq<World>, steps: seq<Step>, i: nat, j: nat, k: Key)
    requires IsRun(pathOf, worlds, steps) && i <= j < |worlds|
    requires forall n :: i <= n <= j ==> Visibility(worlds[n].catalog, k) == Some(Ready)
    ensures ReadManifest(worlds[j].files, pathOf(k)) == ReadManifest(worlds[i].files, pathOf(k))
    decreases j
  {
    hide PublishedWhole, ReadManifest, Inv, Encode;
    if i < j {
      ReadyManifestIsFixed(pathOf, worlds, steps, i, j - 1, k);
      StepKeepsReadyManifest(pathOf, worlds[j - 1], steps[j - 1], k);
    }
  }

  // Nothing but a deletion demotes a Ready snapshot.
  lemma StepKeepsReadyManifest(pathOf: Key -> Path, w: World, step: Step, k: Key)
    requires OwnPaths(pathOf) && Enabled(w, step) && Visibility(w.catalog, k) == Some(Ready)
    ensures ReadManifest(Take(pathOf, w, step).files, pathOf(k)) == ReadManifest(w.files, pathOf(k))
    ensures step != Delete(k) ==> Visibility(Take(pathOf, w, step).catalog, k) == Some(Ready)
  {
    hide PublishedWhole, ReadManifest, Encode;
    if step.Publish? {
      PublicationOutcome(w.catalog, w.files, pathOf(Identity(step.m)), step.m, step.faults);
      if k != Identity(step.m) {
        MarkFrame(w.catalog, Identity(step.m), Incomplete, k);
        MarkFrame(w.catalog, Identity(step.m), Ready, k);
      }
      if Encode(step.m).Ok? {
        WrittenReads(w.files, pathOf(Identity(step.m)), step.m);
      }
    }
  }

  lemma StepMarksOnlyByPublish(pathOf: Key -> Path, w: World, step: Step, k: Key)
    requires Enabled(w, step) && Visibility(w.catalog, k).None? && Visibility(Take(pathOf, w, step).catalog, k).Some?
    ensures step.Publish? && Identity(step.m) == k
  {
    hide PublishedWhole, ReadManifest, Encode;
    if step.Publish? {
      PublicationOutcome(w.catalog, w.files, pathOf(Identity(step.m)), step.m, step.faults);
      if k != Identity(step.m) {
        MarkFrame(w.catalog, Identity(step.m), Incomplete, k);
        MarkFrame(w.catalog, Identity(step.m), Ready, k);
      }
    }
  }

  // A deleted snapshot comes back only through a new publication of it.
  lemma {:induction false} NoResurrection(pathOf: Key -> Path, worlds: seq<World>, steps: seq<Step>, i: nat, j: nat, k: Key)
    requires IsRun(pathOf, worlds, steps) && i <= j < |worlds|
    requires Visibility(worlds[i].catalog, k).None? && Visibility(worlds[j].catalog, k).Some?
    ensures exists n :: i <= n < j && steps[n].Publish? && Identity(steps[n].m) == k
    decreases j
  {
    hide Take, Enabled, Inv, OwnPaths;
    if Visibility(worlds[j - 1].catalog, k).None? {
      StepMarksOnlyByPublish(pathOf, worlds[j - 1], steps[j - 1], k);
    } else {
      NoResurrection(pathOf, worlds, steps, i, j - 1, k);
    }
  }

  // Deleting hides exactly one snapshot and leaves every file.
  lemma DeletedIsInvisible(pathOf: Key -> Path, w: World, k: Key, other: Key)
    requires other != k
    ensures var w' := Take(pathOf, w, Delete(k));
            && Visibility(w'.catalog, k).None? && Visibility(w'.catalog, other) == Visibility(w.catalog, other)
            && w'.files == w.files && w'.catalog.locations == w.catalog.locations && w'.catalog.aliases == w.catalog.aliases
  {
  }

  // A publication interrupted after its manifest became durable is finished by reconciliation.
  lemma InterruptedIsFinished(pathOf: Key -> Path, w: World, m: Manifest, faults: Faults)
    requires Encode(m).Ok? && faults.begins && faults.write != FailedOld && Visibility(w.catalog, Identity(m)) != Some(Ready)
    ensures var w' := Take(pathOf, Take(pathOf, w, Publish(m, faults)), Reconcile(Identity(m), true));
            Visibility(w'.catalog, Identity(m)) == Some(Ready) && ReadManifest(w'.files, pathOf(Identity(m))) == Ok(m)
  {
    hide Encode, Decode, ReadManifest, PublishedWhole;
    var k := Identity(m);
    WriteLands(w.catalog, w.files, pathOf(k), m, faults);
    WrittenReads(w.files, pathOf(k), m);
  }

  lemma WriteLands(c: State, files: Files, path: Path, m: Manifest, faults: Faults)
    requires Encode(m).Ok? && faults.begins && faults.write != FailedOld && Visibility(c, Identity(m)) != Some(Ready)
    ensures var (c', files', _) := PublishedWhole(c, files, path, m, faults);
            files' == files[path := Encode(m).value] && Visibility(c', Identity(m)).Some?
  {
    hide AllBytes, Decode, ReadManifest, Marked, Visibility, Valid;
    MarkFacts(c, Identity(m));
    WrittenReads(files, path, m);
  }

  // The mark phase therefore finds a manifest of the right identity behind every Ready root.
  lemma MarkFindsManifests(pathOf: Key -> Path, w: World, manifests: Mark.Manifests, k: Key)
    requires Inv(pathOf, w) && Visibility(w.catalog, k) == Some(Ready)
    requires forall r, s :: manifests(r, s) == var m := ReadManifest(w.files, pathOf((r, s))); if m.Ok? then Some(m.value) else None
    ensures Mark.GoodManifest(manifests, k.0, k.1)
  {
    hide Encode, Decode, Valid;
    assert k == (k.0, k.1);
    assert HasManifest(pathOf, w, k);
    ReadIsValid(w.files, pathOf(k));
  }

  lemma ReadIsValid(files: Files, path: Path)
    requires ReadManifest(files, path).Ok?
    ensures Valid(ReadManifest(files, path).value)
  {
    hide Decode, AllBytes, Valid;
    EncodeUndoesDecode(files[path]);
  }
}
