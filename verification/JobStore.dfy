/** The durable job queue and its crash recovery (crates/reflink-forest-daemon). */
module JobStore {
  import opened Bytes
  import opened Core
  import opened JobCodec
  import opened Host

  // The job directory: one file per job, named by its identifier.
  type Directory = map<Id16, seq<byte>>

  // ---------- Reading ----------

  function Read(files: Directory, id: Id16): Result<JobRecord, JobError> {
    if id !in files then Err(NotFound)
    else if |files[id]| > MAX_JOB_RECORD_LEN then Err(UnsafeJobDirectoryEntry)
    else
      var record := Decode(files[id]);
      if record.Ok? && record.value.id != id then Err(InvalidRecord) else record
  }

  predicate Sound(files: Directory) {
    forall id :: id in files ==> Read(files, id).Ok?
  }

  ghost function Jobs(files: Directory): map<Id16, JobRecord>
    requires Sound(files)
  {
    map id | id in files :: Read(files, id).value
  }

  // Writing replaces a whole record through a temporary file: a failure leaves the old or the new one.
  function Stored(files: Directory, r: JobRecord, outcome: WriteOutcome): (Directory, Result<JobRecord, JobError>) {
    var bytes := Encode(r);
    if bytes.Err? then (files, Err(bytes.error))
    else (AfterWrite(outcome, files, files[r.id := bytes.value]), if outcome == Written then Ok(r) else Err(JobError.Io))
  }

  // What is stored is read back, and nothing else changes.
  lemma StoredReads(files: Directory, r: JobRecord, outcome: WriteOutcome)
    requires Sound(files)
    ensures var files' := Stored(files, r, outcome).0;
            && Sound(files')
            && (Jobs(files') == Jobs(files) || (Encode(r).Ok? && Jobs(files') == Jobs(files)[r.id := r]))
    ensures Stored(files, r, outcome).1.Ok? ==> Jobs(Stored(files, r, outcome).0) == Jobs(files)[r.id := r]
  {
    hide Encode, Decode;
    if Encode(r).Ok? {
      DecodeUndoesEncode(r);
      EncodedFits(r);
      var files' := files[r.id := Encode(r).value];
      assert forall id :: id in files' && id != r.id ==> Read(files', id) == Read(files, id);
      assert Read(files', r.id) == Ok(r);
      assert Jobs(files') == Jobs(files)[r.id := r];
    }
  }

  lemma WrittenIsRead(files: Directory, r: JobRecord)
    ensures Encode(r).Ok? ==> Read(files[r.id := Encode(r).value], r.id) == Ok(r)
  {
    hide Encode, Decode;
    if Encode(r).Ok? {
      DecodeUndoesEncode(r);
      EncodedFits(r);
    }
  }

  // A file is read exactly as the record whose encoding it is, under that record's own name.
  lemma ReadIffStored(files: Directory, id: Id16, r: JobRecord)
    ensures Read(files, id) == Ok(r) <==> id in files && r.id == id && Encode(r) == Ok(files[id])
  {
    hide Encode, Decode;
    if id in files && Decode(files[id]).Ok? {
      EncodeUndoesDecode(files[id]);
    }
    if id in files && Encode(r) == Ok(files[id]) {
      DecodeUndoesEncode(r);
      EncodedFits(r);
    }
  }

  lemma EncodedFits(r: JobRecord)
    requires Encode(r).Ok?
    ensures |Encode(r).value| <= MAX_JOB_RECORD_LEN
  {
    hide Head, Crc32c.Crc;
  }

  // ---------- Transitions ----------

  datatype Change = Start | Succeed | Fail(error: seq<byte>) | Retry

  function Changed(r: JobRecord, change: Change): Result<JobRecord, JobError> {
    match change
    case Start =>
      if r.state != Queued then Err(InvalidTransition(r.state, Running))
      else if r.attempts == U32_MAX then Err(AttemptOverflow)
      else Ok(r.(state := Running, attempts := r.attempts + 1))
    case Succeed =>
      if r.state != Running then Err(InvalidTransition(r.state, Succeeded))
      else Ok(r.(state := Succeeded, lastError := None))
    case Fail(error) =>
      if r.state != Running then Err(InvalidTransition(r.state, Failed))
      else Ok(r.(state := Failed, lastError := Some(error)))
    case Retry =>
      if r.state != Failed then Err(InvalidTransition(r.state, Queued))
      else Ok(r.(state := Queued))
  }

  function Updated(files: Directory, id: Id16, change: Change, outcome: WriteOutcome): (Directory, Result<JobRecord, JobError>) {
    var record := Read(files, id);
    if record.Err? then (files, record) else
    var changed := Changed(record.value, change);
    if changed.Err? then (files, changed) else Stored(files, changed.value, outcome)
  }

  // What one durable write may do to a job.
  predicate OneStep(a: JobRecord, b: JobRecord) {
    || (a.state == Queued && a.attempts < U32_MAX && b == a.(state := Running, attempts := a.attempts + 1))
    || (a.state == Running && b == a.(state := Succeeded, lastError := None))
    || (a.state == Running && b.lastError.Some? && b == a.(state := Failed, lastError := b.lastError))
    || (a.state == Failed && b == a.(state := Queued))
    || (a.state == Running && b == a.(state := Queued))
  }

  function NewJob(id: Id16, kind: seq<byte>, payload: seq<byte>): JobRecord {
    JobRecord(id, kind, payload, Queued, 0, None)
  }

  // The store never loses a job, moves each by at most one step per operation, starts one only
  // with room for a failure, and writes only records that it can read back.
  ghost predicate Next(m: map<Id16, JobRecord>, m': map<Id16, JobRecord>) {
    && (forall id :: id in m ==> id in m' && (m'[id] == m[id] || OneStep(m[id], m'[id])))
    && (forall id :: id in m' && id !in m ==>
          m'[id] == NewJob(id, m'[id].kind, m'[id].payload) && FailureCapacity(m'[id]) > 0)
    && (forall id :: id in m' && (id !in m || m'[id] != m[id]) ==> Encode(m'[id]).Ok?)
  }

  lemma UpdateAdvances(files: Directory, id: Id16, change: Change, outcome: WriteOutcome)
    requires Sound(files)
    ensures var files' := Updated(files, id, change, outcome).0; Sound(files') && Next(Jobs(files), Jobs(files'))
  {
    hide Encode, Decode, Stored, Next;
    NextReflexive(Jobs(files));
    if Read(files, id).Ok? && Changed(Read(files, id).value, change).Ok? {
      var changed := Changed(Read(files, id).value, change).value;
      StoredReads(files, changed, outcome);
      if Encode(changed).Ok? {
        NextByOne(Jobs(files), id, changed);
      }
    }
  }

  lemma NextReflexive(m: map<Id16, JobRecord>)
    ensures Next(m, m)
  {
  }

  lemma NextByOne(m: map<Id16, JobRecord>, id: Id16, r: JobRecord)
    requires id in m && OneStep(m[id], r) && Encode(r).Ok?
    ensures Next(m, m[id := r])
  {
    hide Encode, OneStep, FailureCapacity;
  }

  lemma NextKeepsJob(m: map<Id16, JobRecord>, m': map<Id16, JobRecord>, id: Id16)
    requires Next(m, m') && id in m
    ensures id in m' && (m'[id] == m[id] || OneStep(m[id], m'[id]))
  {
    hide Encode, OneStep, FailureCapacity;
  }

  // ---------- Room for a failure ----------

  function Minus(a: nat, b: nat): nat { if b <= a then a - b else 0 }

  function FailureCapacity(r: JobRecord): nat {
    Minus(Minus(Minus(Minus(MAX_JOB_RECORD_LEN, JOB_HEADER_LEN), JOB_TRAILER_LEN), |r.kind|), |r.payload|)
  }

  const EMPTY_ERROR: seq<byte> := [106, 111, 98, 32, 104, 97, 110, 100, 108, 101, 114, 32, 114, 101, 116, 117, 114, 110, 101, 100, 32,
    97, 110, 32, 101, 109, 112, 116, 121, 32, 101, 114, 114, 111, 114]
  const PANICKED: seq<byte> := [106, 111, 98, 32, 104, 97, 110, 100, 108, 101, 114, 32, 112, 97, 110, 105, 99, 107, 101, 100]

  function BoundedError(r: JobRecord, error: seq<byte>): seq<byte> {
    var e := if error == [] then EMPTY_ERROR else error;
    if |e| <= FailureCapacity(r) then e else e[..FailureCapacity(r)]
  }

  // Whatever a handler reports, a job with room left can record it durably.
  lemma FailureIsRecordable(r: JobRecord, error: seq<byte>)
    requires Encode(r).Ok? && r.state == Running && FailureCapacity(r) > 0
    ensures BoundedError(r, error) != []
    ensures var failed := Changed(r, Fail(BoundedError(r, error)));
            failed.Ok? && Encode(failed.value).Ok? && failed.value.lastError == Some(BoundedError(r, error))
    ensures Encode(r.(state := Succeeded, lastError := None)).Ok?
  {
    hide Encoded;
  }

  lemma NewJobFits(id: Id16, kind: seq<byte>, payload: seq<byte>)
    ensures FailureCapacity(NewJob(id, kind, payload)) > 0 <==>
            JOB_HEADER_LEN + |kind| + |payload| + JOB_TRAILER_LEN < MAX_JOB_RECORD_LEN
    ensures FailureCapacity(NewJob(id, kind, payload)) > 0 ==> (Encode(NewJob(id, kind, payload)).Ok? <==> kind != [])
  {
    hide Encoded;
  }

  // A diagnostic that fits is kept as it is, a longer one is cut to what fits, and an empty one is
  // replaced by a text that says so.
  lemma BoundedErrorKeeps(r: JobRecord, error: seq<byte>)
    ensures error != [] && |error| <= FailureCapacity(r) ==> BoundedError(r, error) == error
    ensures |error| > FailureCapacity(r) ==>
              |BoundedError(r, error)| == FailureCapacity(r) && BoundedError(r, error) <= error
    ensures error == [] ==> BoundedError(r, error) == BoundedError(r, EMPTY_ERROR)
  {
  }

  // Claiming never makes a record unwritable.
  lemma ClaimIsRecordable(r: JobRecord)
    requires Encode(r).Ok? && r.state == Queued && r.attempts < U32_MAX
    ensures Encode(r.(state := Running, attempts := r.attempts + 1)).Ok?
  {
    hide Encoded;
  }

  lemma RequeueIsRecordable(r: JobRecord)
    requires Encode(r).Ok? && r.state == Running
    ensures Encode(r.(state := Queued)).Ok?
  {
    hide Encoded;
  }

  // ---------- What an update does ----------

  // The changes that a job in each state takes, if they can be written at all.
  predicate Takes(r: JobRecord, change: Change) {
    match change
    case Start => r.state == Queued && r.attempts < U32_MAX
    case Succeed => r.state == Running
    case Fail(error) => r.state == Running && 0 < |error| <= FailureCapacity(r)
    case Retry => r.state == Failed
  }

  // Every field afterwards. A retry keeps the diagnostic, and only a start counts.
  predicate Becomes(r: JobRecord, change: Change, r': JobRecord) {
    && r'.id == r.id && r'.kind == r.kind && r'.payload == r.payload
    && match change
       case Start => r'.state == Running && r'.attempts == r.attempts + 1 && r'.lastError == r.lastError
       case Succeed => r'.state == Succeeded && r'.attempts == r.attempts && r'.lastError == None
       case Fail(error) => r'.state == Failed && r'.attempts == r.attempts && r'.lastError == Some(error)
       case Retry => r'.state == Queued && r'.attempts == r.attempts && r'.lastError == r.lastError
  }

  ghost predicate Performs(
    files: Directory, id: Id16, change: Change, outcome: WriteOutcome, files': Directory, result: Result<JobRecord, JobError>)
    requires Sound(files) && Sound(files') && id in files
  {
    var r := Jobs(files)[id];
    && (result.Ok? <==> Takes(r, change) && outcome == Written)
    && (!Takes(r, change) || outcome == FailedOld ==> files' == files)
    && (Takes(r, change) && outcome != FailedOld ==>
          && files'.Keys == files.Keys && Becomes(r, change, Jobs(files')[id])
          && (forall other :: other in files && other != id ==> Jobs(files')[other] == Jobs(files)[other])
          && (result.Ok? ==> result.value == Jobs(files')[id]))
  }

  lemma ChangeExactlyWhen(r: JobRecord, change: Change)
    requires Encode(r).Ok?
    ensures var changed := Changed(r, change);
            && (changed.Ok? && Encode(changed.value).Ok? <==> Takes(r, change))
            && (Takes(r, change) ==> Becomes(r, change, changed.value))
  {
    hide Encoded;
  }

  lemma UpdatePerforms(files: Directory, id: Id16, change: Change, outcome: WriteOutcome)
    requires Sound(files) && id in files
    ensures var (files', result) := Updated(files, id, change, outcome);
            Sound(files') && Performs(files, id, change, outcome, files', result)
  {
    hide Encode, Decode, FailureCapacity, Takes, Becomes;
    ReadEncodes(files, id);
    var r := Jobs(files)[id];
    ChangeExactlyWhen(r, change);
    ChangedKeepsId(r, change);
    if Changed(r, change).Ok? {
      StoredReads(files, Changed(r, change).value, outcome);
      if Encode(Changed(r, change).value).Ok? && outcome != FailedOld {
        StoredExactly(files, Changed(r, change).value, outcome);
      }
    }
  }

  lemma ChangedKeepsId(r: JobRecord, change: Change)
    ensures Changed(r, change).Ok? ==> Changed(r, change).value.id == r.id
  {
  }

  lemma StoredExactly(files: Directory, r: JobRecord, outcome: WriteOutcome)
    requires Sound(files) && r.id in files && Encode(r).Ok? && outcome != FailedOld
    ensures var files' := Stored(files, r, outcome).0;
            files'.Keys == files.Keys && Read(files', r.id) == Ok(r)
  {
    hide Encode, Decode;
    DecodeUndoesEncode(r);
    EncodedFits(r);
  }

  // A failed job that is retried can be claimed again, with one attempt more and its old diagnostic.
  lemma RetriedIsClaimedAgain(files: Directory, id: Id16)
    requires Sound(files) && id in files && Jobs(files)[id].state == Failed && Jobs(files)[id].attempts < U32_MAX
    ensures var (queued, retried) := Updated(files, id, Retry, Written);
            var (running, claimed) := Claimed(queued, id, Written);
            && retried.Ok? && Sound(running) && id in running && claimed == Ok(Some(Jobs(running)[id]))
            && var before, after := Jobs(files)[id], Jobs(running)[id];
               && after.state == Running && after.attempts == before.attempts + 1 && after.lastError == before.lastError
               && before.lastError.Some? && after.kind == before.kind && after.payload == before.payload
  {
    hide Encode, Decode, FailureCapacity, Updated;
    var queued := Updated(files, id, Retry, Written).0;
    UpdatePerforms(files, id, Retry, Written);
    UpdatePerforms(queued, id, Start, Written);
    FailedHasRoom(files, id);
    SameRoom(Jobs(files)[id], Jobs(queued)[id]);
  }

  lemma FailedHasRoom(files: Directory, id: Id16)
    requires Sound(files) && id in files && Jobs(files)[id].state == Failed
    ensures FailureCapacity(Jobs(files)[id]) > 0 && Jobs(files)[id].lastError.Some?
  {
    hide Decode, Encoded;
    ReadEncodes(files, id);
  }

  // ---------- Listing ----------

  // `records` are all the jobs in identifier order.
  ghost predicate Listing(files: Directory, records: seq<JobRecord>) {
    && Sound(files)
    && (forall i :: 0 <= i < |records| ==> records[i].id in files && Read(files, records[i].id) == Ok(records[i]))
    && (forall i, j :: 0 <= i < j < |records| ==> Less(records[i].id, records[j].id))
    && (forall id :: id in files ==> exists i :: 0 <= i < |records| && records[i].id == id)
  }

  // The first queued job in identifier order that `matches` accepts.
  ghost predicate IsNext(files: Directory, matches: JobRecord -> bool, id: Id16)
    requires Sound(files)
  {
    && id in files && Jobs(files)[id].state == Queued && matches(Jobs(files)[id])
    && forall other :: other in files && Jobs(files)[other].state == Queued && matches(Jobs(files)[other]) ==>
         other == id || Less(id, other)
  }

  // Claiming a job: room for a failure, one more attempt, written as running.
  function Claimed(files: Directory, id: Id16, outcome: WriteOutcome): (Directory, Result<Option<JobRecord>, JobError>) {
    var record := Read(files, id);
    if record.Err? then (files, Err(record.error))
    else if FailureCapacity(record.value) == 0 then (files, Err(InvalidRecord))
    else
      var (files', result) := Updated(files, id, Start, outcome);
      (files', if result.Ok? then Ok(Some(result.value)) else Err(result.error))
  }

  lemma ClaimAdvances(files: Directory, id: Id16, outcome: WriteOutcome)
    requires Sound(files)
    ensures var files' := Claimed(files, id, outcome).0; Sound(files') && Next(Jobs(files), Jobs(files'))
  {
    hide Read, Updated, Next;
    NextReflexive(Jobs(files));
    UpdateAdvances(files, id, Start, outcome);
  }

  // ---------- Recovery ----------

  function Requeued(r: JobRecord): JobRecord {
    if r.state == Running then r.(state := Queued) else r
  }

  // Part of the way through recovery: jobs before `id` are requeued, the rest untouched.
  ghost predicate RecoveredUpTo(before: map<Id16, JobRecord>, after: map<Id16, JobRecord>, done: set<Id16>) {
    && after.Keys == before.Keys
    && forall id :: id in before ==> after[id] == if id in done then Requeued(before[id]) else before[id]
  }

  ghost function RunningIds(m: map<Id16, JobRecord>): set<Id16> {
    set id | id in m && m[id].state == Running
  }

  ghost function Listed(records: seq<JobRecord>): set<Id16> {
    set i | 0 <= i < |records| :: records[i].id
  }

  ghost predicate Recovered(before: map<Id16, JobRecord>, after: map<Id16, JobRecord>) {
    after.Keys == before.Keys && forall id :: id in before ==> after[id] == Requeued(before[id])
  }

  // ---------- The store ----------

  datatype Handled = Completed | Error(message: seq<byte>) | Panicked

  datatype Execution = Idle | Finished(job: JobRecord)

  // The job as the handler's outcome leaves it.
  function Concluded(r: JobRecord, handled: Handled): JobRecord {
    match handled
    case Completed => r.(state := Succeeded, lastError := None)
    case Error(message) => r.(state := Failed, lastError := Some(BoundedError(r, message)))
    case Panicked => r.(state := Failed, lastError := Some(BoundedError(r, PANICKED)))
  }

  // Every field of a finished job: success clears the diagnostic, an error or a panic leaves one,
  // and neither touches the work or the count.
  lemma ConcludedMeans(r: JobRecord, handled: Handled)
    ensures var f := Concluded(r, handled);
            && f.id == r.id && f.kind == r.kind && f.payload == r.payload && f.attempts == r.attempts
            && (handled.Completed? <==> f.state == Succeeded) && (handled.Completed? ==> f.lastError == None)
            && (!handled.Completed? ==> f.state == Failed)
            && (handled.Error? ==> f.lastError == Some(BoundedError(r, handled.message)))
            && (handled.Panicked? ==> f.lastError == Some(BoundedError(r, PANICKED)))
  {
    hide BoundedError;
  }

  ghost function Conclusion(r: JobRecord, handled: Handled): Change {
    match handled
    case Completed => Succeed
    case Error(message) => Fail(BoundedError(r, message))
    case Panicked => Fail(BoundedError(r, PANICKED))
  }

  class JobStore {
    var files: Directory

    method Write(r: JobRecord, outcome: WriteOutcome) returns (result: Result<JobRecord, JobError>)
      modifies this
      ensures (files, result) == Stored(old(files), r, outcome)
    {
      hide Encoded, Valid;
      var bytes := EncodeJobRecord(r);
      if bytes.Err? {
        return Err(bytes.error);
      }
      files := AfterWrite(outcome, files, files[r.id := bytes.value[..]]);
      return if outcome == Written then Ok(r) else Err(JobError.Io);
    }

    // An existing record is never overwritten.
    method EnqueueWithId(id: Id16, kind: seq<byte>, payload: seq<byte>, outcome: WriteOutcome)
        returns (result: Result<JobRecord, JobError>)
      modifies this
      ensures old(id in files) ==> files == old(files) && result == Err(AlreadyExists)
      ensures old(id !in files) ==>
                if FailureCapacity(NewJob(id, kind, payload)) == 0 then files == old(files) && result == Err(InvalidRecord)
                else (files, result) == Stored(old(files), NewJob(id, kind, payload), outcome)
      ensures result.Ok? <==>
                && old(id !in files) && kind != [] && outcome == Written
                && JOB_HEADER_LEN + |kind| + |payload| + JOB_TRAILER_LEN < MAX_JOB_RECORD_LEN
      ensures result.Ok? ==>
                && result.value.id == id && result.value.kind == kind && result.value.payload == payload
                && result.value.state == Queued && result.value.attempts == 0 && result.value.lastError == None
                && Read(files, id) == Ok(result.value)
      ensures old(Sound(files)) ==> Sound(files) && Next(old(Jobs(files)), Jobs(files))
    {
      hide Encode, Decode, Read, FailureCapacity;
      NewJobFits(id, kind, payload);
      if id in files {
        return Err(AlreadyExists);
      }
      var record := NewJob(id, kind, payload);
      if FailureCapacity(record) == 0 {
        return Err(InvalidRecord);
      }
      if Sound(files) {
        StoredReads(files, record, outcome);
      }
      WrittenIsRead(files, record);
      result := Write(record, outcome);
    }

    method Update(id: Id16, change: Change, outcome: WriteOutcome) returns (result: Result<JobRecord, JobError>)
      modifies this
      ensures (files, result) == Updated(old(files), id, change, outcome)
      ensures old(Sound(files)) ==> Sound(files) && Next(old(Jobs(files)), Jobs(files))
      ensures old(Sound(files) && id in files) ==> Performs(old(files), id, change, outcome, files, result)
    {
      hide Encode, Decode, Stored, Performs, Next;
      if Sound(files) {
        UpdateAdvances(files, id, change, outcome);
        if id in files {
          UpdatePerforms(files, id, change, outcome);
        }
      }
      var record := Read(files, id);
      if record.Err? {
        return record;
      }
      var changed := Changed(record.value, change);
      if changed.Err? {
        return changed;
      }
      result := Write(changed.value, outcome);
    }

    method FailWith(id: Id16, error: seq<byte>, outcome: WriteOutcome) returns (result: Result<JobRecord, JobError>)
      modifies this
      ensures if error == [] then files == old(files) && result == Err(InvalidRecord)
              else (files, result) == Updated(old(files), id, Fail(error), outcome)
      ensures old(Sound(files)) ==> Sound(files) && Next(old(Jobs(files)), Jobs(files))
    {
      if error == [] {
        return Err(InvalidRecord);
      }
      result := Update(id, Fail(error), outcome);
    }

    // Fails closed: one unreadable file refuses the whole listing.
    method ListRecords() returns (result: Result<seq<JobRecord>, JobError>)
      ensures result.Ok? <==> Sound(files)
      ensures result.Ok? ==> Listing(files, result.value)
    {
      hide Decode, Less;
      var ids := SortedKeys(files.Keys);
      forall i | 0 <= i < |ids|
        ensures |ids[i]| == 16
      {
        assert ids[i] in files.Keys;
      }
      var records: seq<JobRecord> := [];
      for i := 0 to |ids|
        invariant |records| == i
        invariant forall k :: 0 <= k < i ==> Read(files, ids[k]) == Ok(records[k]) && records[k].id == ids[k]
      {
        var record := Read(files, ids[i]);
        if record.Err? {
          return Err(record.error);
        }
        records := records + [record.value];
      }
      return Ok(records);
    }

    // The first queued match is claimed; competing workers cannot claim it again.
    method ClaimNextMatching(matches: JobRecord -> bool, outcome: WriteOutcome)
        returns (result: Result<Option<JobRecord>, JobError>)
      modifies this
      ensures !old(Sound(files)) ==> result.Err? && files == old(files)
      ensures old(Sound(files)) ==> forall id :: old(IsNext(files, matches, id)) ==>
                (files, result) == Claimed(old(files), id, outcome)
      ensures old(Sound(files)) && (forall id :: old(!IsNext(files, matches, id))) ==>
                result == Ok(None) && files == old(files)
      ensures old(Sound(files)) ==> Sound(files) && Next(old(Jobs(files)), Jobs(files))
    {
      hide Encode, Decode, Read, FailureCapacity, Stored;
      var listed := ListRecords();
      if listed.Err? {
        return Err(listed.error);
      }
      var records := listed.value;
      for i := 0 to |records|
        invariant files == old(files)
        invariant forall k :: 0 <= k < i ==> !(records[k].state == Queued && matches(records[k]))
      {
        if records[i].state == Queued && matches(records[i]) {
          FirstIsNext(files, matches, records, i);
          ClaimAdvances(files, records[i].id, outcome);
          if FailureCapacity(records[i]) == 0 {
            return Err(InvalidRecord);
          }
          if records[i].attempts == U32_MAX {
            return Err(AttemptOverflow);
          }
          var started := Write(records[i].(state := Running, attempts := records[i].attempts + 1), outcome);
          return if started.Ok? then Ok(Some(started.value)) else Err(started.error);
        }
      }
      NoneIsNext(files, matches, records);
      return Ok(None);
    }

    method Requeue(record: JobRecord, outcome: WriteOutcome) returns (result: Result<JobRecord, JobError>)
      requires Sound(files) && Encode(record).Ok? && record.state == Running
      modifies this
      ensures Sound(files)
      ensures Jobs(files) == old(Jobs(files)) || Jobs(files) == old(Jobs(files))[record.id := Requeued(record)]
      ensures result.Ok? <==> outcome == Written
      ensures result.Ok? ==> Jobs(files) == old(Jobs(files))[record.id := Requeued(record)]
    {
      hide Encode, Decode, Read;
      RequeueIsRecordable(record);
      StoredReads(files, record.(state := Queued), outcome);
      result := Write(record.(state := Queued), outcome);
    }

    // Interrupted work returns to the queue with its attempts and diagnostic kept.
    method RecoverStartup(outcomes: nat -> WriteOutcome) returns (result: Result<nat, JobError>)
      modifies this
      ensures !old(Sound(files)) ==> result.Err? && files == old(files)
      ensures old(Sound(files)) ==> Sound(files) && Next(old(Jobs(files)), Jobs(files))
      ensures old(Sound(files)) && (forall i :: outcomes(i) == Written) ==> result.Ok?
      ensures result.Ok? ==> old(Sound(files)) && Recovered(old(Jobs(files)), Jobs(files))
      ensures result.Ok? ==> result.value == |RunningIds(old(Jobs(files)))|
    {
      hide Encode, Decode, Read, Less, Jobs, Listing, Recovering, Recovered, RunningIds, Next, Sound;
      var listed := ListRecords();
      if listed.Err? {
        return Err(listed.error);
      }
      var records := listed.value;
      ghost var before := files;
      RecoveringStarts(before, records);
      var recovered := 0;
      for i := 0 to |records|
        invariant Sound(files) && Recovering(before, records, i, Jobs(files), recovered)
      {
        if records[i].state == Running {
          RecoveringRequeues(before, records, i, Jobs(files), recovered);
          var written := Requeue(records[i], outcomes(i));
          if written.Err? {
            return Err(written.error);
          }
          recovered := recovered + 1;
        } else {
          RecoveringSkips(before, records, i, Jobs(files), recovered);
        }
      }
      RecoveringEnds(before, records, Jobs(files), recovered);
      return Ok(recovered);
    }

    // Claims one job, runs the handler and records what it did. `others` is what other workers make
    // of the directory while the handler runs. With both writes durable, no handler result is lost
    // on a job that is still running, and one that is not is left alone.
    method ExecuteNextMatching(
      matches: JobRecord -> bool, handler: JobRecord -> Handled, others: Directory -> Directory,
      claim: WriteOutcome, finish: WriteOutcome) returns (result: Result<Execution, JobError>)
      requires forall d :: Sound(d) ==> Sound(others(d))
      modifies this
      ensures !old(Sound(files)) ==> result.Err? && files == old(files)
      ensures old(Sound(files)) ==> Sound(files)
      ensures old(Sound(files)) && (forall id :: old(!IsNext(files, matches, id))) ==>
                result == Ok(Idle) && files == old(files)
      ensures old(Sound(files)) ==> forall id :: old(IsNext(files, matches, id)) ==>
                Executed(old(files), files, id, handler, others, claim, finish, result)
    {
      hide Encode, Decode, Stored, Read, Less, Jobs, Updated, Claimed, ClaimEffect, Executed, Finishes, BoundedError,
        FailureCapacity, Next;
      ghost var before := files;
      var claimed := ClaimNextMatching(matches, claim);
      if Sound(before) {
        forall id | IsNext(before, matches, id)
          ensures id in before && ClaimEffect(before, files, id, claim, claimed)
        {
          NextIsQueued(before, matches, id);
          ClaimHasEffect(before, id, claim);
        }
      }
      if claimed.Err? {
        if Sound(before) {
          forall id | IsNext(before, matches, id)
            ensures Executed(before, files, id, handler, others, claim, finish, Err(claimed.error))
          {
            ClaimFails(before, files, id, handler, others, claim, finish, claimed.error);
          }
        }
        return Err(claimed.error);
      }
      if claimed.value.None? {
        NothingToClaim(before, files, matches, claim);
        return Ok(Idle);
      }
      var job := claimed.value.value;
      ghost var mid := files;
      files := others(files);
      ghost var found := files;
      var finished;
      match handler(job) {
        case Completed =>
          finished := Update(job.id, Succeed, finish);
        case Error(message) =>
          finished := FailWith(job.id, BoundedError(job, message), finish);
        case Panicked =>
          finished := FailWith(job.id, BoundedError(job, PANICKED), finish);
      }
      result := if finished.Ok? then Ok(Finished(finished.value)) else Err(finished.error);
      forall id | IsNext(before, matches, id)
        ensures Executed(before, files, id, handler, others, claim, finish, result)
      {
        ClaimedHasRoom(before, mid, id, claim, job, handler(job));
        FinishHasEffect(found, job, handler(job), finish);
        ClaimThenFinish(before, mid, files, id, handler, others, claim, finish, job, result);
      }
    }
  }

  lemma FirstIsNext(files: Directory, matches: JobRecord -> bool, records: seq<JobRecord>, i: nat)
    requires Listing(files, records) && i < |records|
    requires records[i].state == Queued && matches(records[i])
    requires forall k :: 0 <= k < i ==> !(records[k].state == Queued && matches(records[k]))
    ensures IsNext(files, matches, records[i].id)
    ensures forall id :: IsNext(files, matches, id) ==> id == records[i].id
  {
    hide Read, Less;
    forall other | other in files && Jobs(files)[other].state == Queued && matches(Jobs(files)[other])
      ensures other == records[i].id || Less(records[i].id, other)
    {
      var k :| 0 <= k < |records| && records[k].id == other;
    }
    forall id: Id16 | IsNext(files, matches, id)
      ensures id == records[i].id
    {
      var k :| 0 <= k < |records| && records[k].id == id;
      if k != i {
        LessAsymmetric(id, records[i].id);
      }
    }
  }

  lemma NoneIsNext(files: Directory, matches: JobRecord -> bool, records: seq<JobRecord>)
    requires Listing(files, records)
    requires forall k :: 0 <= k < |records| ==> !(records[k].state == Queued && matches(records[k]))
    ensures forall id :: !IsNext(files, matches, id)
  {
    hide Read, Less;
    forall id | id in files
      ensures !IsNext(files, matches, id)
    {
      var k :| 0 <= k < |records| && records[k].id == id;
    }
  }

  // ---------- Recovery, step by step ----------

  // The first `i` listed jobs are requeued, the rest untouched, and `recovered` were running.
  ghost predicate Recovering(
    files: Directory, records: seq<JobRecord>, i: nat, now: map<Id16, JobRecord>, recovered: nat)
  {
    && i <= |records| && Listing(files, records)
    && RecoveredUpTo(Jobs(files), now, Listed(records[..i]))
    && recovered == |RunningIds(Jobs(files)) * Listed(records[..i])|
  }

  lemma RecoveringStarts(files: Directory, records: seq<JobRecord>)
    requires Listing(files, records)
    ensures Recovering(files, records, 0, Jobs(files), 0)
  {
    hide Less, Read;
    assert RunningIds(Jobs(files)) * Listed(records[..0]) == {};
  }

  lemma RecoveringSkips(files: Directory, records: seq<JobRecord>, i: nat, now: map<Id16, JobRecord>, recovered: nat)
    requires Recovering(files, records, i, now, recovered) && i < |records| && records[i].state != Running
    ensures Recovering(files, records, i + 1, now, recovered)
  {
    hide Read, Less, RecoveredUpTo, RunningIds, Listed;
    ListedGrows(files, records, i);
    RecoveredStep(Jobs(files), now, Listed(records[..i]), records[i].id);
  }

  lemma RecoveringRequeues(files: Directory, records: seq<JobRecord>, i: nat, now: map<Id16, JobRecord>, recovered: nat)
    requires Recovering(files, records, i, now, recovered) && i < |records| && records[i].state == Running
    ensures Encode(records[i]).Ok?
    ensures Recovering(files, records, i + 1, now[records[i].id := Requeued(records[i])], recovered + 1)
    ensures Next(Jobs(files), now) && Next(Jobs(files), now[records[i].id := Requeued(records[i])])
  {
    hide Read, Encode, Less, RecoveredUpTo, RunningIds, Listed, Next;
    ListedGrows(files, records, i);
    ReadEncodes(files, records[i].id);
    SoundEncodes(files);
    var done := Listed(records[..i]);
    RecoveredStep(Jobs(files), now, done, records[i].id);
    RecoveryAdvances(Jobs(files), now, done);
    RecoveryAdvances(Jobs(files), now[records[i].id := Requeued(records[i])], done + {records[i].id});
  }

  lemma RecoveringEnds(files: Directory, records: seq<JobRecord>, now: map<Id16, JobRecord>, recovered: nat)
    requires Recovering(files, records, |records|, now, recovered)
    ensures Recovered(Jobs(files), now) && Next(Jobs(files), now)
    ensures recovered == |RunningIds(Jobs(files))|
  {
    hide Read, Less, RecoveredUpTo, Listed, Next, Recovered;
    assert records[..|records|] == records;
    ListedAll(files, records);
    SoundEncodes(files);
    RecoveryAdvances(Jobs(files), now, Listed(records));
    AllRunning(Jobs(files));
  }

  lemma AllRunning(m: map<Id16, JobRecord>)
    ensures RunningIds(m) * m.Keys == RunningIds(m)
  {
  }

  lemma ListedGrows(files: Directory, records: seq<JobRecord>, i: nat)
    requires Listing(files, records) && i < |records|
    ensures Listed(records[..i + 1]) == Listed(records[..i]) + {records[i].id}
    ensures records[i].id !in Listed(records[..i])
    ensures records[i].id in files && Read(files, records[i].id) == Ok(records[i]) && Jobs(files)[records[i].id] == records[i]
  {
    hide Read, Less;
    forall k | 0 <= k < i
      ensures records[k].id != records[i].id
    {
      LessAsymmetric(records[k].id, records[i].id);
    }
    assert forall k :: 0 <= k < i ==> records[..i][k] == records[..i + 1][k];
    assert records[..i + 1][i] == records[i];
  }

  lemma ListedAll(files: Directory, records: seq<JobRecord>)
    requires Listing(files, records)
    ensures Listed(records) == files.Keys
  {
    hide Read, Less;
  }

  lemma RecoveredStep(before: map<Id16, JobRecord>, after: map<Id16, JobRecord>, done: set<Id16>, id: Id16)
    requires id in before && id !in done && RecoveredUpTo(before, after, done)
    ensures RecoveredUpTo(before, after[id := Requeued(before[id])], done + {id})
    ensures before[id].state != Running ==>
              RecoveredUpTo(before, after, done + {id}) && RunningIds(before) * (done + {id}) == RunningIds(before) * done
    ensures before[id].state == Running ==> |RunningIds(before) * (done + {id})| == |RunningIds(before) * done| + 1
  {
    if before[id].state == Running {
      assert RunningIds(before) * (done + {id}) == RunningIds(before) * done + {id};
    }
  }

  lemma ReadEncodes(files: Directory, id: Id16)
    requires Read(files, id).Ok?
    ensures Encode(Read(files, id).value).Ok?
  {
    EncodeUndoesDecode(files[id]);
  }

  lemma SoundEncodes(files: Directory)
    requires Sound(files)
    ensures forall id :: id in Jobs(files) ==> Encode(Jobs(files)[id]).Ok?
  {
    hide Encode, Read;
    forall id | id in Jobs(files)
      ensures Encode(Jobs(files)[id]).Ok?
    {
      ReadEncodes(files, id);
    }
  }

  lemma RecoveryAdvances(before: map<Id16, JobRecord>, after: map<Id16, JobRecord>, done: set<Id16>)
    requires RecoveredUpTo(before, after, done)
    requires forall id :: id in before ==> Encode(before[id]).Ok?
    ensures Next(before, after)
    ensures before.Keys <= done ==> Recovered(before, after)
  {
    hide Encode;
    forall id | id in before && after[id] != before[id]
      ensures Encode(after[id]).Ok?
    {
      RequeueIsRecordable(before[id]);
    }
  }

  // A second recovery finds nothing to do.
  lemma RecoveryIsIdempotent(a: map<Id16, JobRecord>, b: map<Id16, JobRecord>, c: map<Id16, JobRecord>)
    requires Recovered(a, b) && Recovered(b, c)
    ensures c == b && RunningIds(b) == {}
  {
  }

  // ---------- Execution, step by step ----------

  ghost predicate ClaimEffect(
    before: Directory, files: Directory, id: Id16, outcome: WriteOutcome, claimed: Result<Option<JobRecord>, JobError>)
    requires Sound(before) && id in before
  {
    var queued := Jobs(before)[id];
    if FailureCapacity(queued) == 0 || queued.attempts == U32_MAX then claimed.Err? && files == before
    else
      var running := queued.(state := Running, attempts := queued.attempts + 1);
      && Sound(files) && Encode(running).Ok?
      && (Jobs(files) == Jobs(before) || Jobs(files) == Jobs(before)[id := running])
      && (claimed.Ok? <==> outcome == Written)
      && (claimed.Ok? ==> claimed.value == Some(running) && Jobs(files) == Jobs(before)[id := running])
  }

  lemma ClaimHasEffect(before: Directory, id: Id16, outcome: WriteOutcome)
    requires Sound(before) && id in before && Jobs(before)[id].state == Queued
    ensures var (files, claimed) := Claimed(before, id, outcome); ClaimEffect(before, files, id, outcome, claimed)
  {
    hide Encode, Decode, FailureCapacity;
    var queued := Jobs(before)[id];
    ReadEncodes(before, id);
    if queued.attempts < U32_MAX {
      ClaimIsRecordable(queued);
      StoredReads(before, queued.(state := Running, attempts := queued.attempts + 1), outcome);
    }
  }

  predicate SameWork(a: JobRecord, b: JobRecord) {
    a.id == b.id && a.kind == b.kind && a.payload == b.payload
  }

  // What a worker that claimed `running` makes of the directory it finds when its handler returns:
  // if the job is still running, on this attempt or on a later one, it is finished as the handler
  // said; if it is not, nothing is written.
  ghost predicate Finishes(
    found: Directory, after: Directory, running: JobRecord, handled: Handled, finish: WriteOutcome,
    result: Result<Execution, JobError>)
    requires Sound(found) && Sound(after)
  {
    && Next(Jobs(found), Jobs(after))
    && if running.id !in found || Jobs(found)[running.id].state != Running then result.Err? && after == found
       else
         var current := Jobs(found)[running.id];
         SameWork(current, running) ==>
           var finished := Concluded(current, handled);
           && (Jobs(after) == Jobs(found) || Jobs(after) == Jobs(found)[running.id := finished])
           && (result.Ok? <==> finish == Written)
           && (result.Ok? ==> result.value == Finished(finished) && Jobs(after) == Jobs(found)[running.id := finished])
  }

  lemma FinishHasEffect(found: Directory, running: JobRecord, handled: Handled, finish: WriteOutcome)
    requires Sound(found) && FailureCapacity(running) > 0
    ensures var (after, finished) := Updated(found, running.id, Conclusion(running, handled), finish);
            var result := if finished.Ok? then Ok(Finished(finished.value)) else Err(finished.error);
            Sound(after) && Finishes(found, after, running, handled, finish, result)
  {
    hide Encode, Decode, FailureCapacity, BoundedError, Next, Stored;
    UpdateAdvances(found, running.id, Conclusion(running, handled), finish);
    if running.id in found && Jobs(found)[running.id].state == Running && SameWork(Jobs(found)[running.id], running) {
      RunningFinishes(found, running, handled, finish);
    }
  }

  lemma RunningFinishes(found: Directory, running: JobRecord, handled: Handled, finish: WriteOutcome)
    requires Sound(found) && FailureCapacity(running) > 0
    requires running.id in found && Jobs(found)[running.id].state == Running && SameWork(Jobs(found)[running.id], running)
    ensures var (after, result) := Updated(found, running.id, Conclusion(running, handled), finish);
            var finished := Concluded(Jobs(found)[running.id], handled);
            && Sound(after)
            && (Jobs(after) == Jobs(found) || Jobs(after) == Jobs(found)[running.id := finished])
            && (result.Ok? <==> finish == Written)
            && (result.Ok? ==> result.value == finished && Jobs(after) == Jobs(found)[running.id := finished])
  {
    hide Encode, Decode, FailureCapacity, BoundedError;
    var current := Jobs(found)[running.id];
    ReadEncodes(found, running.id);
    SameRoom(current, running);
    match handled {
      case Completed => FailureIsRecordable(current, []);
      case Error(message) => FailureIsRecordable(current, message);
      case Panicked => FailureIsRecordable(current, PANICKED);
    }
    StoredReads(found, Concluded(current, handled), finish);
  }

  lemma SameRoom(a: JobRecord, b: JobRecord)
    requires SameWork(a, b)
    ensures FailureCapacity(a) == FailureCapacity(b)
    ensures forall error :: BoundedError(a, error) == BoundedError(b, error)
  {
  }

  // The first queued match, executed.
  ghost predicate Executed(
    before: Directory, after: Directory, id: Id16, handler: JobRecord -> Handled, others: Directory -> Directory,
    claim: WriteOutcome, finish: WriteOutcome, result: Result<Execution, JobError>)
    requires Sound(before) && id in before && Sound(after)
  {
    var queued := Jobs(before)[id];
    if FailureCapacity(queued) == 0 || queued.attempts == U32_MAX then result.Err? && after == before
    else
      var running := queued.(state := Running, attempts := queued.attempts + 1);
      if claim != Written then result.Err? && (Jobs(after) == Jobs(before) || Jobs(after) == Jobs(before)[id := running])
      else exists mid ::
        && Sound(mid) && Sound(others(mid)) && Jobs(mid) == Jobs(before)[id := running]
        && Finishes(others(mid), after, running, handler(running), finish, result)
  }

  lemma NextIsQueued(files: Directory, matches: JobRecord -> bool, id: Id16)
    requires Sound(files) && IsNext(files, matches, id)
    ensures id in files && id in Jobs(files) && Jobs(files)[id].state == Queued
  {
    hide Read, Less;
  }

  lemma ClaimFails(
    before: Directory, files: Directory, id: Id16, handler: JobRecord -> Handled, others: Directory -> Directory,
    claim: WriteOutcome, finish: WriteOutcome, error: JobError)
    requires Sound(before) && id in before && ClaimEffect(before, files, id, claim, Err(error))
    ensures Sound(files) && Executed(before, files, id, handler, others, claim, finish, Err(error))
  {
    hide Encode, Read, FailureCapacity, BoundedError, Finishes;
  }

  // A successful claim returns a job.
  lemma ClaimReturnsJob(before: Directory, files: Directory, id: Id16, outcome: WriteOutcome)
    requires Sound(before) && id in before
    ensures !ClaimEffect(before, files, id, outcome, Ok(None))
  {
    hide Encode, Read, FailureCapacity;
  }

  lemma NothingToClaim(before: Directory, files: Directory, matches: JobRecord -> bool, outcome: WriteOutcome)
    requires Sound(before)
    requires forall id :: IsNext(before, matches, id) ==> ClaimEffect(before, files, id, outcome, Ok(None))
    ensures forall id :: !IsNext(before, matches, id)
  {
    hide ClaimEffect, Jobs, Less;
    forall id | id in before
      ensures !ClaimEffect(before, files, id, outcome, Ok(None))
    {
      ClaimReturnsJob(before, files, id, outcome);
    }
  }

  lemma ClaimedHasRoom(
    before: Directory, files: Directory, id: Id16, outcome: WriteOutcome, job: JobRecord, handled: Handled)
    requires Sound(before) && id in before && ClaimEffect(before, files, id, outcome, Ok(Some(job)))
    ensures Sound(files) && id in files && id in Jobs(files) && job == Jobs(files)[id] && job.id == id && job.state == Running
    ensures Encode(job).Ok? && FailureCapacity(job) > 0
    ensures handled.Error? ==> BoundedError(job, handled.message) != []
    ensures handled.Panicked? ==> BoundedError(job, PANICKED) != []
    ensures Changed(job, Conclusion(job, handled)) == Ok(Concluded(job, handled))
  {
    hide Encode, BoundedError, Decode;
    var queued := Jobs(before)[id];
    assert queued.id == id;
    assert id in Jobs(before)[id := job];
    assert files.Keys == Jobs(files).Keys;
    FailureIsRecordable(job, if handled.Error? then handled.message else PANICKED);
  }

  lemma ClaimThenFinish(
    before: Directory, mid: Directory, after: Directory, id: Id16, handler: JobRecord -> Handled,
    others: Directory -> Directory, claim: WriteOutcome, finish: WriteOutcome, job: JobRecord,
    result: Result<Execution, JobError>)
    requires Sound(before) && id in before && ClaimEffect(before, mid, id, claim, Ok(Some(job)))
    requires Sound(others(mid)) && Sound(after) && Finishes(others(mid), after, job, handler(job), finish, result)
    ensures Executed(before, after, id, handler, others, claim, finish, result)
  {
    hide Encode, Read, FailureCapacity, BoundedError, Finishes;
  }

  // ---------- Whole runs ----------

  // The durable jobs over time: every operation, failed write, crash and recovery is one `Next`.
  ghost predicate IsRun(states: seq<map<Id16, JobRecord>>) {
    forall i :: 0 <= i < |states| - 1 ==> Next(states[i], states[i + 1])
  }

  predicate IsClaim(a: JobRecord, b: JobRecord) {
    a.state == Queued && b.state == Running
  }

  ghost function Claims(states: seq<map<Id16, JobRecord>>, id: Id16, i: nat, j: nat): nat
    requires i <= j < |states|
    requires forall k :: i <= k <= j ==> id in states[k]
    decreases j
  {
    if i == j then 0
    else Claims(states, id, i, j - 1) + if IsClaim(states[j - 1][id], states[j][id]) then 1 else 0
  }

  lemma {:induction false} JobsPersist(states: seq<map<Id16, JobRecord>>, id: Id16, i: nat, j: nat)
    requires IsRun(states) && i <= j < |states| && id in states[i]
    ensures forall k :: i <= k <= j ==> id in states[k]
    decreases j
  {
    hide OneStep, FailureCapacity, Encode;
    if i < j {
      JobsPersist(states, id, i, j - 1);
      assert Next(states[j - 1], states[j - 1 + 1]);
    }
  }

  lemma StepFacts(a: JobRecord, b: JobRecord)
    requires a == b || OneStep(a, b)
    ensures b.id == a.id && b.kind == a.kind && b.payload == a.payload
    ensures b.attempts == a.attempts + if IsClaim(a, b) then 1 else 0
    ensures a.state == Succeeded ==> b == a
    ensures b.state == Queued ==> a.state in {Queued, Running, Failed}
  {
  }

  // Identity and work never change; the attempt count is the number of durable claims.
  lemma {:induction false} AttemptsCountClaims(states: seq<map<Id16, JobRecord>>, id: Id16, i: nat, j: nat)
    requires IsRun(states) && i <= j < |states| && id in states[i]
    ensures forall k :: i <= k <= j ==> id in states[k]
    ensures states[j][id].kind == states[i][id].kind && states[j][id].payload == states[i][id].payload
    ensures states[j][id].id == states[i][id].id
    ensures states[j][id].attempts == states[i][id].attempts + Claims(states, id, i, j)
    decreases j
  {
    hide OneStep, Next;
    JobsPersist(states, id, i, j);
    if i < j {
      AttemptsCountClaims(states, id, i, j - 1);
      assert Next(states[j - 1], states[j - 1 + 1]);
      NextKeepsJob(states[j - 1], states[j], id);
      StepFacts(states[j - 1][id], states[j][id]);
    }
  }

  // A job enqueued during the run counts from zero.
  lemma EnqueuedCountsFromZero(states: seq<map<Id16, JobRecord>>, id: Id16, i: nat, j: nat)
    requires IsRun(states) && i < j < |states| && id !in states[i] && id in states[i + 1]
    ensures forall k :: i < k <= j ==> id in states[k]
    ensures states[j][id].attempts == Claims(states, id, i + 1, j)
  {
    hide FailureCapacity, Encode, OneStep;
    assert Next(states[i], states[i + 1]);
    AttemptsCountClaims(states, id, i + 1, j);
  }

  // Whatever the handler of a job enqueued during the run reports, on any later attempt, can be
  // recorded.
  lemma FailureStaysRecordable(states: seq<map<Id16, JobRecord>>, id: Id16, i: nat, j: nat, error: seq<byte>)
    requires IsRun(states) && i < j < |states| && id !in states[i] && id in states[i + 1]
    requires id in states[j] && states[j][id].state == Running
    ensures var failed := Changed(states[j][id], Fail(BoundedError(states[j][id], error)));
            BoundedError(states[j][id], error) != [] && failed.Ok? && Encode(failed.value).Ok?
  {
    hide Encode, BoundedError, OneStep;
    assert Next(states[i], states[i + 1]);
    AttemptsCountClaims(states, id, i + 1, j);
    StaysRecorded(states, id, i + 1, j);
    FailureIsRecordable(states[j][id], error);
  }

  lemma {:induction false} StaysRecorded(states: seq<map<Id16, JobRecord>>, id: Id16, i: nat, j: nat)
    requires IsRun(states) && i <= j < |states| && id in states[i] && Encode(states[i][id]).Ok?
    ensures id in states[j] && Encode(states[j][id]).Ok?
    decreases j
  {
    hide Encode, OneStep, FailureCapacity;
    if i < j {
      StaysRecorded(states, id, i, j - 1);
      assert Next(states[j - 1], states[j - 1 + 1]);
    }
  }

  // A finished job is never touched again.
  lemma {:induction false} SucceededIsFinal(states: seq<map<Id16, JobRecord>>, id: Id16, i: nat, j: nat)
    requires IsRun(states) && i <= j < |states| && id in states[i] && states[i][id].state == Succeeded
    ensures id in states[j] && states[j][id] == states[i][id]
    decreases j
  {
    hide Next;
    if i < j {
      SucceededIsFinal(states, id, i, j - 1);
      assert Next(states[j - 1], states[j - 1 + 1]);
      NextKeepsJob(states[j - 1], states[j], id);
    }
  }

  // A running job stays out of the queue until it is failed and retried, or recovered.
  lemma {:induction false} ClaimedStaysClaimed(states: seq<map<Id16, JobRecord>>, id: Id16, i: nat, j: nat)
    requires IsRun(states) && i <= j < |states| && id in states[i] && states[i][id].state != Queued
    ensures forall k :: i <= k <= j ==> id in states[k]
    ensures states[j][id].state != Queued ||
            exists k :: i <= k < j && states[k][id].state in {Running, Failed} && states[k + 1][id].state == Queued
    decreases j
  {
    hide Next;
    JobsPersist(states, id, i, j);
    if i < j {
      ClaimedStaysClaimed(states, id, i, j - 1);
      assert Next(states[j - 1], states[j - 1 + 1]);
      NextKeepsJob(states[j - 1], states[j], id);
    }
  }

  // No job is handed out twice: between two claims it went back to the queue.
  lemma ClaimsAreSeparated(states: seq<map<Id16, JobRecord>>, id: Id16, i: nat, j: nat)
    requires IsRun(states) && i < j < |states| - 1 && id in states[i]
    ensures forall k :: i <= k <= j + 1 ==> id in states[k]
    ensures IsClaim(states[i][id], states[i + 1][id]) && IsClaim(states[j][id], states[j + 1][id]) ==>
            exists k :: i < k < j && states[k][id].state in {Running, Failed} && states[k + 1][id].state == Queued
  {
    hide Next;
    JobsPersist(states, id, i, j + 1);
    if IsClaim(states[i][id], states[i + 1][id]) {
      ClaimedStaysClaimed(states, id, i + 1, j);
    }
  }
}
