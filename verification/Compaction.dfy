/** Copying a mark set into a new generation and publishing it (crates/reflink-forest-maintenance). */
module Compaction {
  import opened Bytes
  import opened Core
  import opened Host
  import opened RecordFormat
  import opened Catalog
  import opened Generations
  import opened Mark

  datatype CompactionError =
    | InvalidCompactionPlan
    | CompactionSourceIsNotCurrent
    | CompactionSourceLocation
    | CompactionRead
    | CompactionRecordIdMismatch(id: ContentId)
    | CompactionWrite
    | CompactionShadowLocation
    | CommitFailed
    | PointerFailed

  // ---------- The destination ----------

  type Records = map<ObjectLocation, ObjectRecord>

  // `stray` is what lands at the location when it is not the record that was handed in.
  datatype Answer = Fails | Succeeds(location: ObjectLocation, stray: Option<ObjectRecord>)

  // An append-only writer that otherwise answers its n-th call any way it likes. What it wrote
  // is durable only after a synchronization, and may be a record of some other ID; a record that
  // still carries the right ID under its checksums is the record that was written.
  class Destination {
    const answers: nat -> Answer
    var calls: nat
    var store: Records
    var durable: Records

    constructor (answers: nat -> Answer, store: Records)
      ensures this.answers == answers && this.store == store && durable == store && calls == 0
    {
      this.answers, this.store, durable, calls := answers, store, store, 0;
    }

    method Append(record: ObjectRecord) returns (location: Option<ObjectLocation>)
      modifies this`calls, this`store
      ensures location.Some? ==> location.value !in old(store) && location.value in store
      ensures location.Some? ==> store == old(store)[location.value := store[location.value]]
      ensures location.Some? ==> store[location.value] == record || store[location.value].contentId != record.contentId
      ensures location.None? ==> store == old(store)
      ensures calls == old(calls) + 1
      ensures var answer := answers(old(calls));
              answer.Succeeds? && answer.location !in old(store) && answer.stray.None? ==>
                location == Some(answer.location) && store == old(store)[answer.location := record]
    {
      var answer := answers(calls);
      calls := calls + 1;
      if answer.Fails? || answer.location in store {
        return None;
      }
      var written :=
        if answer.stray.Some? && answer.stray.value.contentId != record.contentId then answer.stray.value else record;
      store := store[answer.location := written];
      return Some(answer.location);
    }

    method SyncData() returns (ok: bool)
      modifies this`calls, this`durable
      ensures ok ==> durable == store
      ensures !ok ==> durable == old(durable)
      ensures ok == answers(old(calls)).Succeeds? && calls == old(calls) + 1
    {
      ok := answers(calls).Succeeds?;
      calls := calls + 1;
      if ok {
        durable := store;
      }
    }

    method Verify(id: ContentId, location: ObjectLocation) returns (ok: bool)
      modifies this`calls
      ensures calls == old(calls) + 1
      ensures ok <==> answers(old(calls)).Succeeds? && location in durable && durable[location].contentId == id
    {
      ok := answers(calls).Succeeds? && location in durable && durable[location].contentId == id;
      calls := calls + 1;
    }
  }

  // ---------- The plan ----------

  predicate PlanOk(source: u32, live: seq<Pair>) {
    Ascending(live) && forall i :: 0 <= i < |live| ==> live[i].1.generation == source
  }

  // A completed mark set always passes the plan checks.
  lemma MarkOutputMeetsPlan(c: State, h: Hashes, roots: set<Ref>, generation: u32, live: seq<Pair>)
    requires MarkSet(c, h, roots, generation, live)
    ensures PlanOk(generation, live)
  {
    hide Ascending, Complete;
    forall i | 0 <= i < |live|
      ensures live[i].1.generation == generation
    {
      assert InGeneration(c, live[i].0, live[i].1, generation);
    }
  }

  method CheckPlan(source: u32, live: seq<Pair>) returns (result: Result<(), CompactionError>)
    ensures result.Ok? <==> PlanOk(source, live)
    ensures result.Ok? <==>
            && (forall i, j :: 0 <= i < j < |live| ==> Less(live[i].0, live[j].0))
            && (forall i :: 0 <= i < |live| ==> live[i].1.generation == source)
    ensures result.Err? ==> result.error in {InvalidCompactionPlan, CompactionSourceLocation}
    ensures result == Err(InvalidCompactionPlan) ==> exists i :: 0 < i < |live| && !Less(live[i - 1].0, live[i].0)
    ensures result == Err(CompactionSourceLocation) ==> exists i :: 0 <= i < |live| && live[i].1.generation != source
  {
    hide Less;
    var previous: Option<ContentId> := None;
    for i := 0 to |live|
      invariant PlanOk(source, live[..i])
      invariant previous == if i == 0 then None else Some(live[i - 1].0)
    {
      if previous.Some? && !Less(previous.value, live[i].0) {
        return Err(InvalidCompactionPlan);
      }
      if live[i].1.generation != source {
        return Err(CompactionSourceLocation);
      }
      forall k | 0 <= k < i
        ensures Less(live[k].0, live[i].0)
      {
        if k < i - 1 {
          assert Less(live[..i][k].0, live[..i][i - 1].0);
          LessTransitive(live[k].0, live[i - 1].0, live[i].0);
        }
      }
      assert live[..i + 1] == live[..i] + [live[i]];
      previous := Some(live[i].0);
    }
    assert live[..|live|] == live;
    return Ok(());
  }

  // ---------- Meaning of a stored record ----------

  // Reading `location` yields a record of `id` whose payload decodes to `raw` and hashes to `id`.
  predicate Resolves(
    h: Hashes, store: Records, location: ObjectLocation,
    id: ContentId, kind: ObjectKind, raw: seq<byte>)
  {
    && location in store && store[location].contentId == id && store[location].kind == kind
    && DecodeObjectPayload(h, store[location]) == Ok(raw)
  }

  ghost predicate Readable(h: Hashes, store: Records, location: ObjectLocation, id: ContentId) {
    exists kind, raw :: Resolves(h, store, location, id, kind, raw)
  }

  // Two readable copies of one ID are the same object, whatever their codec.
  lemma SameIdSameObject(
    c: State, h: Hashes, id: ContentId,
    store: Records, at: ObjectLocation, kind: ObjectKind, raw: seq<byte>,
    store': Records, at': ObjectLocation, kind': ObjectKind, raw': seq<byte>)
    requires UniqueContents(c, h) && id in c.locations
    requires Resolves(h, store, at, id, kind, raw) && Resolves(h, store', at', id, kind', raw')
    ensures kind == kind' && raw == raw'
  {
    assert h.contentId(kind, raw) == id && h.contentId(kind', raw') == id;
  }

  // ---------- Publication ----------

  // Every shadow location is in the target generation and readable there.
  ghost predicate Shadows(
    h: Hashes, store: Records, target: u32, live: seq<Pair>, shadow: seq<Pair>)
  {
    && |shadow| == |live|
    && forall i :: 0 <= i < |live| ==>
         && shadow[i].0 == live[i].0 && shadow[i].1.generation == target
         && Readable(h, store, shadow[i].1, live[i].0)
  }

  // The catalog after publication: the live IDs moved, everything else as it was.
  ghost predicate Switched(c: State, c': State, target: u32, live: seq<Pair>, shadow: seq<Pair>) {
    && |shadow| == |live|
    && c' == c.(locations := c'.locations, current := Some(target))
    && c'.locations.Keys == c.locations.Keys + Ids(live)
    && (forall i :: 0 <= i < |live| ==> live[i].0 in c'.locations && c'.locations[live[i].0] == shadow[i].1)
    && (forall id :: id in c.locations && id !in Ids(live) ==>
          c'.locations[id] == c.locations[id])
  }

  function LocationBatch(shadow: seq<Pair>): seq<Operation> {
    seq(|shadow|, i requires 0 <= i < |shadow| => PutObjectLocation(shadow[i].0, shadow[i].1))
  }

  function PutAll(m: map<ContentId, ObjectLocation>, pairs: seq<Pair>): map<ContentId, ObjectLocation> {
    if pairs == [] then m
    else PutAll(m, pairs[..|pairs| - 1])[pairs[|pairs| - 1].0 := pairs[|pairs| - 1].1]
  }

  lemma {:induction false} BatchPutsAll(c: State, shadow: seq<Pair>)
    ensures Apply(c, LocationBatch(shadow)) == c.(locations := PutAll(c.locations, shadow))
  {
    if shadow != [] {
      var n := |shadow| - 1;
      BatchPutsAll(c, shadow[..n]);
      assert LocationBatch(shadow)[..n] == LocationBatch(shadow[..n]);
    }
  }

  // `after` is `m` with exactly the listed IDs set.
  ghost predicate Sets(m: map<ContentId, ObjectLocation>, pairs: seq<Pair>, after: map<ContentId, ObjectLocation>) {
    && after.Keys == m.Keys + Ids(pairs)
    && (forall i :: 0 <= i < |pairs| ==> pairs[i].0 in after && after[pairs[i].0] == pairs[i].1)
    && (forall id :: id in m && id !in Ids(pairs) ==> after[id] == m[id])
  }

  lemma SetsOneMore(m: map<ContentId, ObjectLocation>, pairs: seq<Pair>, after: map<ContentId, ObjectLocation>, p: Pair)
    requires Sets(m, pairs, after) && p.0 !in Ids(pairs)
    ensures Sets(m, pairs + [p], after[p.0 := p.1])
  {
    var all := pairs + [p];
    assert all[|pairs|] == p;
    assert forall i :: 0 <= i < |pairs| ==> all[i] == pairs[i] && pairs[i].0 in Ids(pairs);
    assert Ids(all) == Ids(pairs) + {p.0};
  }

  // Putting distinct IDs sets exactly those IDs.
  lemma {:induction false} PutAllSets(m: map<ContentId, ObjectLocation>, pairs: seq<Pair>)
    requires Ascending(pairs)
    ensures Sets(m, pairs, PutAll(m, pairs))
  {
    hide Less, Sets;
    if pairs == [] {
      NothingSet(m);
    } else {
      var n := |pairs| - 1;
      PutAllSets(m, pairs[..n]);
      assert pairs[n].0 !in Ids(pairs[..n]) by {
        LessIrreflexive(pairs[n].0);
      }
      SetsOneMore(m, pairs[..n], PutAll(m, pairs[..n]), pairs[n]);
      assert pairs[..n] + [pairs[n]] == pairs;
    }
  }

  lemma NothingSet(m: map<ContentId, ObjectLocation>)
    ensures Sets(m, [], m)
  {
    assert Ids([]) == {};
  }

  lemma PublicationSwitches(c: State, target: u32, live: seq<Pair>, shadow: seq<Pair>)
    requires |shadow| == |live| && Ascending(live)
    requires forall i :: 0 <= i < |live| ==> shadow[i].0 == live[i].0
    ensures Switched(c, Apply(c, LocationBatch(shadow) + [PutCurrentGeneration(target)]), target, live, shadow)
  {
    hide Less;
    var batch := LocationBatch(shadow) + [PutCurrentGeneration(target)];
    assert batch[..|batch| - 1] == LocationBatch(shadow);
    BatchPutsAll(c, shadow);
    assert Ascending(shadow);
    PutAllSets(c.locations, shadow);
    assert Ids(shadow) == Ids(live);
  }

  // ---------- Compaction ----------

  // What the host may do to one call: refuse the batch, or fail the pointer write.
  datatype Faults = Faults(commits: bool, pointer: WriteOutcome)

  method PublishGeneration(
    catalog: CatalogStore, manager: GenerationManager, target: u32, shadow: seq<Pair>, faults: Faults)
      returns (result: Result<(), CompactionError>)
    modifies catalog, manager`pointer
    ensures result.Ok? <==> faults.commits && faults.pointer == Written
    ensures !faults.commits ==> result == Err(CommitFailed) && catalog.state == old(catalog.state)
                                && manager.pointer == old(manager.pointer)
    ensures faults.commits ==>
              && catalog.state == Apply(old(catalog.state), LocationBatch(shadow) + [PutCurrentGeneration(target)])
              && manager.pointer == AfterWrite(faults.pointer, old(manager.pointer), Active(target))
              && (result.Err? ==> result.error == PointerFailed)
  {
    var batch: seq<Operation> := [];
    for i := 0 to |shadow|
      invariant batch == LocationBatch(shadow)[..i]
    {
      batch := batch + [PutObjectLocation(shadow[i].0, shadow[i].1)];
    }
    assert LocationBatch(shadow)[..|shadow|] == LocationBatch(shadow);
    batch := batch + [PutCurrentGeneration(target)];
    WithoutAliases(catalog.state, batch);
    var committed := catalog.Commit(batch, faults.commits);
    if committed.Err? {
      return Err(CommitFailed);
    }
    var published := manager.PublishActive(target, faults.pointer);
    return if published then Ok(()) else Err(PointerFailed);
  }

  // What was appended is the intended record or visibly another one.
  ghost predicate Placed(h: Hashes, store: Records, target: u32, live: seq<Pair>, shadow: seq<Pair>) {
    && |shadow| == |live|
    && forall i :: 0 <= i < |live| ==>
         && shadow[i].0 == live[i].0 && shadow[i].1.generation == target && shadow[i].1 in store
         && (store[shadow[i].1].contentId == live[i].0 ==> Readable(h, store, shadow[i].1, live[i].0))
  }

  ghost predicate Keeps(before: Records, after: Records) {
    forall l :: l in before ==> l in after && after[l] == before[l]
  }

  // Every live record reads back as itself.
  ghost predicate GoodReader(h: Hashes, live: seq<Pair>, reader: Reader) {
    forall i :: 0 <= i < |live| ==>
      var record := reader(i, live[i].0, live[i].1);
      record.Some? && record.value.contentId == live[i].0 && DecodeObjectPayload(h, record.value).Ok?
  }

  // The next `n` appends land intact at fresh target locations, and every later call succeeds.
  ghost predicate GoodWriter(answers: nat -> Answer, from: nat, n: nat, store: Records, target: u32) {
    && (forall k :: from <= k ==> answers(k).Succeeds?)
    && (forall k :: from <= k < from + n ==>
          answers(k).stray.None? && answers(k).location.generation == target && answers(k).location !in store)
    && (forall j, k :: from <= j < k < from + n ==> answers(j).location != answers(k).location)
  }

  // The records appended by the first `i` calls and nothing else.
  ghost predicate Grown(answers: nat -> Answer, from: nat, i: nat, before: Records, store: Records, live: seq<Pair>, shadow: seq<Pair>) {
    && i == |shadow| <= |live|
    && (forall l :: l in store ==> l in before || exists k :: from <= k < from + i && answers(k).Succeeds? && l == answers(k).location)
    && (forall k :: 0 <= k < i ==> shadow[k].1 in store && store[shadow[k].1].contentId == shadow[k].0)
  }

  lemma NextIsFresh(
    answers: nat -> Answer, from: nat, n: nat, i: nat, before: Records, store: Records, target: u32, live: seq<Pair>, shadow: seq<Pair>)
    requires GoodWriter(answers, from, n, before, target) && Grown(answers, from, i, before, store, live, shadow) && i < n
    ensures answers(from + i).Succeeds? && answers(from + i).stray.None?
    ensures answers(from + i).location !in store && answers(from + i).location.generation == target
  {
    assert forall k :: from <= k < from + i ==> answers(k).location != answers(from + i).location;
  }

  lemma GrownOne(
    answers: nat -> Answer, from: nat, i: nat, before: Records, store: Records, store': Records,
    live: seq<Pair>, shadow: seq<Pair>, id: ContentId, record: ObjectRecord)
    requires Grown(answers, from, i, before, store, live, shadow) && i < |live|
    requires answers(from + i).Succeeds? && answers(from + i).location !in store
    requires store' == store[answers(from + i).location := record] && record.contentId == id
    ensures Grown(answers, from, i + 1, before, store', live, shadow + [(id, answers(from + i).location)])
  {
    forall l | l in store'
      ensures l in before || exists k :: from <= k < from + (i + 1) && answers(k).Succeeds? && l == answers(k).location
    {
      if l in store && l !in before {
        var k :| from <= k < from + i && answers(k).Succeeds? && l == answers(k).location;
        assert k < from + (i + 1);
      } else if l !in store {
        assert l == answers(from + i).location;
      }
    }
  }

  // Copies, synchronizes and re-reads every live record; on success each has a durable, readable
  // copy in the target generation. Only the reader or the writer can make it fail.
  method CopyLive(live: seq<Pair>, target: u32, reader: Reader, h: Hashes, writer: Destination)
      returns (result: Result<seq<Pair>, CompactionError>)
    modifies writer
    ensures Keeps(old(writer.store), writer.store)
    ensures result.Ok? ==> writer.durable == writer.store && Shadows(h, writer.durable, target, live, result.value)
    ensures result.Err? ==> result.error in {CompactionRead, CompactionWrite, CompactionShadowLocation}
                            || result.error.CompactionRecordIdMismatch?
    ensures GoodReader(h, live, reader) && GoodWriter(writer.answers, old(writer.calls), |live|, old(writer.store), target) ==>
              result.Ok?
  {
    hide Resolves, Readable, Grown, GoodWriter, DecodeObjectPayload;
    ghost var from := writer.calls;
    ghost var good := GoodReader(h, live, reader) && GoodWriter(writer.answers, from, |live|, old(writer.store), target);
    var shadow: seq<Pair> := [];
    NothingGrown(writer.answers, from, writer.store, live);
    for i := 0 to |live|
      invariant writer.calls == from + i
      invariant good ==> Grown(writer.answers, from, i, old(writer.store), writer.store, live, shadow)
      invariant Keeps(old(writer.store), writer.store)
      invariant Placed(h, writer.store, target, live[..i], shadow)
    {
      var (id, source) := live[i];
      var record := reader(i, id, source);
      if record.None? {
        return Err(CompactionRead);
      }
      if record.value.contentId != id {
        return Err(CompactionRecordIdMismatch(id));
      }
      var verified := DecodeObjectPayload(h, record.value);
      if verified.Err? {
        return Err(CompactionRead);
      }
      ghost var before := writer.store;
      if good {
        NextIsFresh(writer.answers, from, |live|, i, old(writer.store), before, target, live, shadow);
        GrownOne(writer.answers, from, i, old(writer.store), before, before[writer.answers(from + i).location := record.value],
                 live, shadow, id, record.value);
      }
      var location := writer.Append(record.value);
      if location.None? {
        return Err(CompactionWrite);
      }
      if location.value.generation != target {
        return Err(CompactionShadowLocation);
      }
      CopyAdds(h, before, writer.store, location.value, record.value, target, live[..i], shadow, live[i]);
      assert live[..i + 1] == live[..i] + [live[i]];
      shadow := shadow + [(id, location.value)];
    }
    assert live[..|live|] == live;
    LaterCallsSucceed(writer.answers, from, |live|, old(writer.store), target);
    GrownHolds(writer.answers, from, |live|, old(writer.store), writer.store, live, shadow);
    var synced := writer.SyncData();
    if !synced {
      return Err(CompactionWrite);
    }
    for i := 0 to |shadow|
      modifies writer`calls
      invariant writer.calls >= from
      invariant forall k :: 0 <= k < i ==> shadow[k].1 in writer.durable && writer.durable[shadow[k].1].contentId == shadow[k].0
    {
      var ok := writer.Verify(shadow[i].0, shadow[i].1);
      if !ok {
        return Err(CompactionWrite);
      }
    }
    return Ok(shadow);
  }

  lemma NothingGrown(answers: nat -> Answer, from: nat, store: Records, live: seq<Pair>)
    ensures Grown(answers, from, 0, store, store, live, [])
  {
  }

  lemma LaterCallsSucceed(answers: nat -> Answer, from: nat, n: nat, store: Records, target: u32)
    ensures GoodWriter(answers, from, n, store, target) ==> forall k :: from <= k ==> answers(k).Succeeds?
  {
  }

  lemma GrownHolds(answers: nat -> Answer, from: nat, i: nat, before: Records, store: Records, live: seq<Pair>, shadow: seq<Pair>)
    ensures Grown(answers, from, i, before, store, live, shadow) ==>
              |shadow| == i && forall k :: 0 <= k < i ==> shadow[k].1 in store && store[shadow[k].1].contentId == shadow[k].0
  {
  }

  lemma CopyAdds(
    h: Hashes, before: Records, after: Records, location: ObjectLocation, record: ObjectRecord, target: u32,
    live: seq<Pair>, shadow: seq<Pair>, next: Pair)
    requires Placed(h, before, target, live, shadow)
    requires location !in before && location in after && after == before[location := after[location]]
    requires location.generation == target
    requires after[location] == record || after[location].contentId != record.contentId
    requires record.contentId == next.0 && DecodeObjectPayload(h, record).Ok?
    ensures Placed(h, after, target, live + [next], shadow + [(next.0, location)])
  {
    hide DecodeObjectPayload;
    if after[location] == record {
      assert Resolves(h, after, location, next.0, record.kind, DecodeObjectPayload(h, record).value);
    }
    forall i | 0 <= i < |live| && after[shadow[i].1].contentId == live[i].0
      ensures Readable(h, after, shadow[i].1, live[i].0)
    {
      var kind, r :| Resolves(h, before, shadow[i].1, live[i].0, kind, r);
      assert Resolves(h, after, shadow[i].1, live[i].0, kind, r);
    }
  }

  method CompactCompletedMarkSet(
    catalog: CatalogStore, manager: GenerationManager, source: u32, target: u32, live: seq<Pair>,
    reader: Reader, h: Hashes, writer: Destination, faults: Faults)
      returns (result: Result<nat, CompactionError>, ghost shadow: seq<Pair>)
    modifies catalog, manager`pointer, writer
    // The plan checks reject exactly the bad plans.
    ensures result.Err? && (result.error in {InvalidCompactionPlan, CompactionSourceIsNotCurrent, CompactionSourceLocation})
            <==> target <= source || old(catalog.state).current != Some(source) || !PlanOk(source, live)
    // Nothing already stored is lost.
    ensures Keeps(old(writer.store), writer.store)
    // The catalog is untouched or fully switched; it is switched even if the pointer write then fails.
    ensures result.Ok? || result == Err(PointerFailed) ==>
              && Switched(old(catalog.state), catalog.state, target, live, shadow)
              && Shadows(h, writer.durable, target, live, shadow)
    ensures !(result.Ok? || result == Err(PointerFailed)) ==>
              catalog.state == old(catalog.state) && manager.pointer == old(manager.pointer)
    ensures result.Ok? ==> result.value == |live| && manager.pointer == Active(target)
    // A good plan over a good reader, writer and host always succeeds.
    ensures && target > source && old(catalog.state).current == Some(source) && PlanOk(source, live)
            && GoodReader(h, live, reader) && GoodWriter(writer.answers, old(writer.calls), |live|, old(writer.store), target)
            && faults == Faults(true, Written) ==>
              result.Ok?
  {
    hide PlanOk, Switched, Shadows, Keeps, GoodReader, GoodWriter;
    shadow := [];
    KeepsSame(writer.store);
    if target <= source {
      return Err(InvalidCompactionPlan), [];
    }
    if catalog.state.current != Some(source) {
      return Err(CompactionSourceIsNotCurrent), [];
    }
    var plan := CheckPlan(source, live);
    if plan.Err? {
      return Err(plan.error), [];
    }
    var copied := CopyLive(live, target, reader, h, writer);
    if copied.Err? {
      return Err(copied.error), [];
    }
    shadow := copied.value;
    PlanAndShadowsMatch(h, writer.durable, source, target, live, shadow);
    PublicationSwitches(catalog.state, target, live, shadow);
    var published := PublishGeneration(catalog, manager, target, copied.value, faults);
    if published.Err? {
      return Err(published.error), shadow;
    }
    return Ok(|copied.value|), shadow;
  }

  lemma PlanAndShadowsMatch(
    h: Hashes, store: Records, source: u32, target: u32, live: seq<Pair>, shadow: seq<Pair>)
    requires PlanOk(source, live) && Shadows(h, store, target, live, shadow)
    ensures Ascending(live) && |shadow| == |live| && forall i :: 0 <= i < |live| ==> shadow[i].0 == live[i].0
  {
    hide Readable;
  }

  lemma KeepsSame(store: Records)
    ensures Keeps(store, store)
  {
  }
}
