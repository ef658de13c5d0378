/** The catalog as durable maps changed by one atomic batch (crates/reflink-forest-index). */
module Catalog {
  import opened Bytes
  import opened Core
  import opened RecordFormat

  datatype ObjectLocation = ObjectLocation(
    generation: u32,
    chunkId: u64,
    offset: u64,
    recordLength: u64,
    storedLength: u64,
    rawLength: u64,
    kind: ObjectKind,
    codec: Codec,
    flags: u16,
    payloadCrc32c: u32)

  datatype SnapshotVisibility = Incomplete | Ready

  datatype GcRoot =
    | RepositorySnapshot(repository: Id16, snapshot: Id16)
    | WorkspacePin(workspace: Id16, generation: u32)
    | ExplicitPin(pin: Id16, generation: u32)

  datatype State = State(
    locations: map<ContentId, ObjectLocation>,
    aliases: map<(Id16, Oid), ContentId>,
    snapshots: map<(Id16, Id16), SnapshotVisibility>,
    workspacePins: map<Id16, u32>,
    gcPins: map<Id16, u32>,
    current: Option<u32>)

  datatype Operation =
    | PutObjectLocation(id: ContentId, location: ObjectLocation)
    | PutOidAlias(repo: Id16, oid: Oid, content: ContentId)
    | PutRepositorySnapshot(repository: Id16, snapshot: Id16, visibility: SnapshotVisibility)
    | DeleteRepositorySnapshot(repository: Id16, snapshot: Id16)
    | PutWorkspacePin(workspace: Id16, generation: u32)
    | DeleteWorkspacePin(workspace: Id16)
    | PutGcPin(pin: Id16, generation: u32)
    | DeleteGcPin(pin: Id16)
    | PutCurrentGeneration(generation: u32)

  function ApplyOne(c: State, op: Operation): State {
    match op
    case PutObjectLocation(id, location) => c.(locations := c.locations[id := location])
    case PutOidAlias(r, o, id) => c.(aliases := c.aliases[(r, o) := id])
    case PutRepositorySnapshot(r, s, v) => c.(snapshots := c.snapshots[(r, s) := v])
    case DeleteRepositorySnapshot(r, s) => c.(snapshots := c.snapshots - {(r, s)})
    case PutWorkspacePin(w, g) => c.(workspacePins := c.workspacePins[w := g])
    case DeleteWorkspacePin(w) => c.(workspacePins := c.workspacePins - {w})
    case PutGcPin(p, g) => c.(gcPins := c.gcPins[p := g])
    case DeleteGcPin(p) => c.(gcPins := c.gcPins - {p})
    case PutCurrentGeneration(g) => c.(current := Some(g))
  }

  // A whole batch, in order.
  function Apply(c: State, batch: seq<Operation>): State {
    if batch == [] then c else ApplyOne(Apply(c, batch[..|batch| - 1]), batch[|batch| - 1])
  }

  // What the catalog can hold, and where.
  datatype Slot =
    | LocationSlot(id: ContentId)
    | AliasSlot(repo: Id16, oid: Oid)
    | SnapshotSlot(repository: Id16, snapshot: Id16)
    | WorkspacePinSlot(workspace: Id16)
    | GcPinSlot(pin: Id16)
    | CurrentSlot

  datatype Held =
    | HeldNothing
    | HeldLocation(location: ObjectLocation)
    | HeldContent(id: ContentId)
    | HeldVisibility(visibility: SnapshotVisibility)
    | HeldGeneration(generation: u32)

  function HeldAt(c: State, slot: Slot): Held {
    match slot
    case LocationSlot(id) => if id in c.locations then HeldLocation(c.locations[id]) else HeldNothing
    case AliasSlot(r, o) => if (r, o) in c.aliases then HeldContent(c.aliases[(r, o)]) else HeldNothing
    case SnapshotSlot(r, s) => if (r, s) in c.snapshots then HeldVisibility(c.snapshots[(r, s)]) else HeldNothing
    case WorkspacePinSlot(w) => if w in c.workspacePins then HeldGeneration(c.workspacePins[w]) else HeldNothing
    case GcPinSlot(p) => if p in c.gcPins then HeldGeneration(c.gcPins[p]) else HeldNothing
    case CurrentSlot => if c.current.Some? then HeldGeneration(c.current.value) else HeldNothing
  }

  // The one place an operation writes, and what it leaves there.
  function Target(op: Operation): (Slot, Held) {
    match op
    case PutObjectLocation(id, location) => (LocationSlot(id), HeldLocation(location))
    case PutOidAlias(r, o, id) => (AliasSlot(r, o), HeldContent(id))
    case PutRepositorySnapshot(r, s, v) => (SnapshotSlot(r, s), HeldVisibility(v))
    case DeleteRepositorySnapshot(r, s) => (SnapshotSlot(r, s), HeldNothing)
    case PutWorkspacePin(w, g) => (WorkspacePinSlot(w), HeldGeneration(g))
    case DeleteWorkspacePin(w) => (WorkspacePinSlot(w), HeldNothing)
    case PutGcPin(p, g) => (GcPinSlot(p), HeldGeneration(g))
    case DeleteGcPin(p) => (GcPinSlot(p), HeldNothing)
    case PutCurrentGeneration(g) => (CurrentSlot, HeldGeneration(g))
  }

  lemma OneWrites(c: State, op: Operation, slot: Slot)
    ensures HeldAt(ApplyOne(c, op), slot) == if slot == Target(op).0 then Target(op).1 else HeldAt(c, slot)
  {
  }

  // After a batch every slot holds what it held before, ...
  lemma {:induction false} UntouchedStays(c: State, batch: seq<Operation>, slot: Slot)
    requires forall i :: 0 <= i < |batch| ==> Target(batch[i]).0 != slot
    ensures HeldAt(Apply(c, batch), slot) == HeldAt(c, slot)
  {
    hide HeldAt, Target, ApplyOne;
    if batch != [] {
      var n := |batch| - 1;
      UntouchedStays(c, batch[..n], slot);
      OneWrites(Apply(c, batch[..n]), batch[n], slot);
    }
  }

  // ... or what the last operation on it left there.
  lemma {:induction false} LastOperationWins(c: State, batch: seq<Operation>, i: nat)
    requires i < |batch| && forall j :: i < j < |batch| ==> Target(batch[j]).0 != Target(batch[i]).0
    ensures HeldAt(Apply(c, batch), Target(batch[i]).0) == Target(batch[i]).1
    decreases |batch|
  {
    hide HeldAt, Target, ApplyOne;
    var n := |batch| - 1;
    OneWrites(Apply(c, batch[..n]), batch[n], Target(batch[i]).0);
    if i < n {
      LastOperationWins(c, batch[..n], i);
    }
  }

  // `roots` enumerates the Ready snapshots and the pins, in whatever order the backend sorts them.
  ghost predicate EnumeratesRoots(c: State, roots: seq<GcRoot>) {
    && (forall r, s :: RepositorySnapshot(r, s) in roots <==> (r, s) in c.snapshots && c.snapshots[(r, s)] == Ready)
    && (forall w, g :: WorkspacePin(w, g) in roots <==> w in c.workspacePins && c.workspacePins[w] == g)
    && (forall p, g :: ExplicitPin(p, g) in roots <==> p in c.gcPins && c.gcPins[p] == g)
  }

  ghost predicate Pinned(c: State, generation: u32) {
    || (exists w :: w in c.workspacePins && c.workspacePins[w] == generation)
    || (exists p :: p in c.gcPins && c.gcPins[p] == generation)
  }

  // ---------- Committing a batch ----------

  datatype CatalogError =
    | AliasConflict(repo: Id16, oid: Oid, existing: ContentId, requested: ContentId)
    | Backend

  // An alias that exists already may only be put again as it is.
  function StageOne(c: State, op: Operation): Result<State, CatalogError> {
    if op.PutOidAlias? && (op.repo, op.oid) in c.aliases && c.aliases[(op.repo, op.oid)] != op.content
    then Err(AliasConflict(op.repo, op.oid, c.aliases[(op.repo, op.oid)], op.content))
    else Ok(ApplyOne(c, op))
  }

  // One operation after another, up to the first conflict.
  function Staged(c: State, batch: seq<Operation>): Result<State, CatalogError> {
    if batch == [] then Ok(c)
    else
      var staged := Staged(c, batch[..|batch| - 1]);
      if staged.Err? then staged else StageOne(staged.value, batch[|batch| - 1])
  }

  predicate PutsAlias(op: Operation, key: (Id16, Oid)) { op.PutOidAlias? && (op.repo, op.oid) == key }

  // Operation `i` wants another content ID than the catalog or an earlier operation has.
  predicate Disagrees(c: State, batch: seq<Operation>, i: nat)
    requires i < |batch|
  {
    && batch[i].PutOidAlias?
    && var key := (batch[i].repo, batch[i].oid);
       || (key in c.aliases && c.aliases[key] != batch[i].content)
       || exists j :: 0 <= j < i && PutsAlias(batch[j], key) && batch[j].content != batch[i].content
  }

  // The aliases of a staged batch: the old ones as they were, and those put.
  ghost predicate AliasesAfter(c: State, batch: seq<Operation>, staged: State) {
    && (forall key :: key in c.aliases ==> key in staged.aliases && staged.aliases[key] == c.aliases[key])
    && (forall key :: key in staged.aliases && key !in c.aliases ==>
          exists j :: 0 <= j < |batch| && PutsAlias(batch[j], key) && batch[j].content == staged.aliases[key])
    && (forall j :: 0 <= j < |batch| && batch[j].PutOidAlias? ==>
          var key := (batch[j].repo, batch[j].oid); key in staged.aliases && staged.aliases[key] == batch[j].content)
  }

  lemma StageKeepsAliases(c: State, batch: seq<Operation>, staged: State, op: Operation)
    requires AliasesAfter(c, batch, staged) && StageOne(staged, op).Ok?
    ensures AliasesAfter(c, batch + [op], StageOne(staged, op).value)
  {
    var next, grown := StageOne(staged, op).value, batch + [op];
    forall key | key in next.aliases && key !in c.aliases
      ensures exists j :: 0 <= j < |grown| && PutsAlias(grown[j], key) && grown[j].content == next.aliases[key]
    {
      if key in staged.aliases {
        var j :| 0 <= j < |batch| && PutsAlias(batch[j], key) && batch[j].content == staged.aliases[key];
        assert grown[j] == batch[j];
      } else {
        assert PutsAlias(grown[|batch|], key);
      }
    }
  }

  lemma {:induction false} StagedAliases(c: State, batch: seq<Operation>)
    requires Staged(c, batch).Ok?
    ensures Staged(c, batch).value == Apply(c, batch) && AliasesAfter(c, batch, Apply(c, batch))
  {
    hide AliasesAfter;
    if batch == [] {
      NothingStaged(c);
    } else {
      var init, op := batch[..|batch| - 1], batch[|batch| - 1];
      StagedAliases(c, init);
      StageKeepsAliases(c, init, Apply(c, init), op);
      assert init + [op] == batch;
    }
  }

  lemma NothingStaged(c: State)
    ensures AliasesAfter(c, [], c)
  {
  }

  lemma LastDisagrees(c: State, batch: seq<Operation>)
    requires batch != [] && Staged(c, batch[..|batch| - 1]).Ok?
    ensures Staged(c, batch).Err? <==> Disagrees(c, batch, |batch| - 1)
  {
    var init, op := batch[..|batch| - 1], batch[|batch| - 1];
    StagedAliases(c, init);
    if op.PutOidAlias? {
      var key := (op.repo, op.oid);
      forall j | 0 <= j < |init| && PutsAlias(batch[j], key)
        ensures Apply(c, init).aliases[key] == batch[j].content
      {
        assert init[j] == batch[j];
      }
    }
  }

  // A batch is refused exactly when one of its aliases disagrees with the catalog or with an
  // earlier one of the same batch; otherwise it is applied whole.
  lemma {:induction false} RefusedExactlyWhen(c: State, batch: seq<Operation>)
    ensures Staged(c, batch).Err? <==> exists i :: 0 <= i < |batch| && Disagrees(c, batch, i)
    ensures Staged(c, batch).Ok? ==> Staged(c, batch).value == Apply(c, batch)
  {
    if batch != [] {
      var n := |batch| - 1;
      RefusedExactlyWhen(c, batch[..n]);
      forall i | 0 <= i < n
        ensures Disagrees(c, batch[..n], i) <==> Disagrees(c, batch, i)
      {
        PrefixDisagrees(c, batch, n, i);
      }
      if Staged(c, batch[..n]).Ok? {
        LastDisagrees(c, batch);
      }
    }
  }

  lemma PrefixDisagrees(c: State, batch: seq<Operation>, n: nat, i: nat)
    requires i < n <= |batch|
    ensures Disagrees(c, batch[..n], i) <==> Disagrees(c, batch, i)
  {
    assert forall j :: 0 <= j < n ==> batch[..n][j] == batch[j];
  }

  // The conflict that is reported is the first one: everything before it could be staged, and it
  // names the content that is there and the other one that was asked for.
  lemma {:induction false} ConflictIsFirst(c: State, batch: seq<Operation>) returns (i: nat)
    requires Staged(c, batch).Err?
    ensures i < |batch| && Staged(c, batch[..i]).Ok? && Disagrees(c, batch, i)
    ensures var op, before := batch[i], Staged(c, batch[..i]).value;
            && (op.repo, op.oid) in before.aliases && before.aliases[(op.repo, op.oid)] != op.content
            && Staged(c, batch).error == AliasConflict(op.repo, op.oid, before.aliases[(op.repo, op.oid)], op.content)
    decreases |batch|
  {
    var n := |batch| - 1;
    if Staged(c, batch[..n]).Err? {
      i := ConflictIsFirst(c, batch[..n]);
      assert batch[..n][..i] == batch[..i];
      PrefixDisagrees(c, batch, n, i);
    } else {
      i := n;
      LastDisagrees(c, batch);
    }
  }

  // No batch that is accepted changes an alias; one that is refused changes nothing.
  lemma AliasesNeverChange(c: State, batch: seq<Operation>, key: (Id16, Oid))
    requires key in c.aliases && Staged(c, batch).Ok?
    ensures key in Apply(c, batch).aliases && Apply(c, batch).aliases[key] == c.aliases[key]
  {
    StagedAliases(c, batch);
  }

  lemma WithoutAliases(c: State, batch: seq<Operation>)
    requires forall i :: 0 <= i < |batch| ==> !batch[i].PutOidAlias?
    ensures Staged(c, batch) == Ok(Apply(c, batch))
  {
    RefusedExactlyWhen(c, batch);
  }

  // The catalog in memory stages a copy and replaces itself by it.
  class InMemoryCatalog {
    var state: State

    method Apply(batch: seq<Operation>) returns (result: Result<(), CatalogError>)
      modifies this
      ensures Staged(old(state), batch).Err? ==> result == Err(Staged(old(state), batch).error) && state == old(state)
      ensures Staged(old(state), batch).Ok? ==> result == Ok(()) && state == Staged(old(state), batch).value
    {
      var staged := state;
      for i := 0 to |batch|
        invariant Staged(state, batch[..i]) == Ok(staged) && state == old(state)
      {
        assert batch[..i + 1][..i] == batch[..i];
        var next := StageOne(staged, batch[i]);
        if next.Err? {
          StaysRefused(state, batch, i + 1);
          return Err(next.error);
        }
        staged := next.value;
      }
      assert batch[..|batch|] == batch;
      state := staged;
      return Ok(());
    }
  }

  // The first conflict is the one reported, whatever follows.
  lemma {:induction false} StaysRefused(c: State, batch: seq<Operation>, n: nat)
    requires n <= |batch| && Staged(c, batch[..n]).Err?
    ensures Staged(c, batch) == Staged(c, batch[..n])
    decreases |batch|
  {
    if n == |batch| {
      assert batch[..n] == batch;
    } else {
      var init := batch[..|batch| - 1];
      assert init[..n] == batch[..n];
      StaysRefused(c, init, n);
    }
  }

  // The persistent catalog checks every alias against its own pending ones before one atomic write.
  class CatalogStore {
    var state: State

    constructor (state: State)
      ensures this.state == state
    {
      this.state := state;
    }

    method Commit(batch: seq<Operation>, commits: bool) returns (result: Result<(), CatalogError>)
      modifies this
      ensures Staged(old(state), batch).Err? ==> result == Err(Staged(old(state), batch).error) && state == old(state)
      ensures Staged(old(state), batch).Ok? && !commits ==> result == Err(Backend) && state == old(state)
      ensures Staged(old(state), batch).Ok? && commits ==> result == Ok(()) && state == Apply(old(state), batch)
    {
      hide ApplyOne, Apply;
      var pending: map<(Id16, Oid), ContentId> := map[];
      NothingPending(state, batch);
      for i := 0 to |batch|
        invariant Staged(state, batch[..i]).Ok? && Pending(state, batch[..i], pending)
        invariant state == old(state)
      {
        assert batch[..i + 1][..i] == batch[..i];
        PendingStep(state, batch[..i], pending, batch[i]);
        assert batch[..i] + [batch[i]] == batch[..i + 1];
        if batch[i].PutOidAlias? {
          var key := (batch[i].repo, batch[i].oid);
          var existing := if key in pending then Some(pending[key])
                          else if key in state.aliases then Some(state.aliases[key])
                          else None;
          if existing.Some? && existing.value != batch[i].content {
            StaysRefused(state, batch, i + 1);
            return Err(AliasConflict(batch[i].repo, batch[i].oid, existing.value, batch[i].content));
          }
          pending := pending[key := batch[i].content];
        }
      }
      assert batch[..|batch|] == batch;
      StagedAliases(state, batch);
      if !commits {
        return Err(Backend);
      }
      state := Apply(state, batch);
      return Ok(());
    }
  }

  // Pending aliases shadow the stored ones as the staged copy would.
  ghost predicate Pending(c: State, batch: seq<Operation>, pending: map<(Id16, Oid), ContentId>)
    requires Staged(c, batch).Ok?
  {
    Staged(c, batch).value.aliases == c.aliases + pending
  }

  lemma NothingPending(c: State, batch: seq<Operation>)
    ensures Staged(c, batch[..0]).Ok? && Pending(c, batch[..0], map[])
  {
  }

  lemma PendingStep(c: State, batch: seq<Operation>, pending: map<(Id16, Oid), ContentId>, op: Operation)
    requires Staged(c, batch).Ok? && Pending(c, batch, pending)
    ensures Staged(c, batch + [op]) == StageOne(Staged(c, batch).value, op)
    ensures op.PutOidAlias? ==>
              var key := (op.repo, op.oid);
              var existing := if key in pending then Some(pending[key])
                              else if key in c.aliases then Some(c.aliases[key])
                              else None;
              if existing.Some? && existing.value != op.content
              then Staged(c, batch + [op]) == Err(AliasConflict(op.repo, op.oid, existing.value, op.content))
              else Staged(c, batch + [op]).Ok? && Pending(c, batch + [op], pending[key := op.content])
    ensures !op.PutOidAlias? ==> Staged(c, batch + [op]).Ok? && Pending(c, batch + [op], pending)
  {
    assert (batch + [op])[..|batch|] == batch;
  }
}
