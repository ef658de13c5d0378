/** The format migration journal (crates/reflink-forest-daemon). */
module Migration {
  import opened Bytes
  import opened Core
  import opened Crc32c
  import opened Host
  import Fields = RecordFormat

  const MIGRATION_RECORD_VERSION: byte := 1
  const MIGRATION_RECORD_MAGIC: seq<byte> := [82, 70, 83, 77, 73, 71, 82, 49]
  const MIGRATION_RECORD_LEN := 64

  // `NotStarted` is the absence of a record.
  datatype Phase = Copying | Validating | Published

  function PhaseTag(phase: Phase): byte {
    match phase
    case Copying => 1
    case Validating => 2
    case Published => 3
  }

  function PhaseFromTag(tag: byte): Option<Phase> {
    match tag
    case 1 => Some(Copying)
    case 2 => Some(Validating)
    case 3 => Some(Published)
    case _ => None
  }

  datatype MigrationRecord = MigrationRecord(id: Id16, from: u16, to: u16, phase: Phase, transitions: u64)

  datatype MigrationError =
    | WriteFailed
    | InvalidRecord
    | UnsupportedVersion(version: byte)
    | UnsafeStateFile
    | ActiveVersionMismatch(configured: u16, persisted: u16)
    | AlreadyInProgress
    | InvalidTarget
    | NoResumableMigration
    | InvalidTransition(from: Phase, to: Phase)
    | TransitionCountOverflow

  predicate Valid(r: MigrationRecord) {
    0 < r.from < r.to && r.transitions > 0
  }

  predicate Partial(r: MigrationRecord) { r.phase != Published }

  // The last fully published format, as far as this record knows.
  function ActiveVersion(r: MigrationRecord): u16 {
    if r.phase == Published then r.to else r.from
  }

  // ---------- The record codec ----------

  function Head(r: MigrationRecord): (h: seq<byte>)
    ensures |h| == 60
  {
    ([MIGRATION_RECORD_VERSION, PhaseTag(r.phase)] + Zeros(2) + MIGRATION_RECORD_MAGIC)
    + (BigEndian(r.from, 2) + BigEndian(r.to, 2)) + r.id + BigEndian(r.transitions, 8) + Zeros(20)
  }

  function Encoded(r: MigrationRecord): (s: seq<byte>)
    ensures |s| == MIGRATION_RECORD_LEN
  {
    Head(r) + BigEndian(Crc(Head(r)), 4)
  }

  function Encode(r: MigrationRecord): Result<seq<byte>, MigrationError> {
    if Valid(r) then Ok(Encoded(r)) else Err(InvalidRecord)
  }

  // Exactly the records that can be stored: a rise of a non-zero format, with its steps counted.
  lemma EncodableExactly(r: MigrationRecord)
    ensures Encode(r).Ok? <==> 1 <= r.from < r.to && r.transitions >= 1
  {
    hide Encoded;
  }

  function Decode(bytes: seq<byte>): Result<MigrationRecord, MigrationError> {
    if |bytes| != MIGRATION_RECORD_LEN then Err(InvalidRecord)
    else if bytes[0] != MIGRATION_RECORD_VERSION then Err(UnsupportedVersion(bytes[0]))
    else if !AllZero(bytes[2..4]) || bytes[4..12] != MIGRATION_RECORD_MAGIC then Err(InvalidRecord)
    else if !AllZero(bytes[40..60]) then Err(InvalidRecord)
    else if Fields.ReadU32(bytes, 60) != Crc(bytes[..60]) then Err(InvalidRecord)
    else if PhaseFromTag(bytes[1]).None? then Err(InvalidRecord)
    else
      var r := MigrationRecord(bytes[16..32], Fields.ReadU16(bytes, 12), Fields.ReadU16(bytes, 14),
                               PhaseFromTag(bytes[1]).value, Fields.ReadU64(bytes, 32));
      if Valid(r) then Ok(r) else Err(InvalidRecord)
  }

  lemma HeadSlices(r: MigrationRecord)
    ensures var h := Head(r);
            && h[0] == MIGRATION_RECORD_VERSION && h[1] == PhaseTag(r.phase) && h[2..4] == Zeros(2)
            && h[4..12] == MIGRATION_RECORD_MAGIC && h[12..14] == BigEndian(r.from, 2) && h[14..16] == BigEndian(r.to, 2)
            && h[16..32] == r.id && h[32..40] == BigEndian(r.transitions, 8) && h[40..60] == Zeros(20)
  {
    hide BigEndian, Zeros;
    var h := Head(r);
    var a := [MIGRATION_RECORD_VERSION, PhaseTag(r.phase)] + Zeros(2) + MIGRATION_RECORD_MAGIC;
    var b := BigEndian(r.from, 2) + BigEndian(r.to, 2);
    assert h[..12] == a && h[12..16] == b;
    assert h[0] == a[0] && h[1] == a[1] && h[2..4] == a[2..4] && h[4..12] == a[4..12];
    assert h[12..14] == b[..2] && h[14..16] == b[2..4];
  }

  lemma DecodeUndoesEncode(r: MigrationRecord)
    requires Valid(r)
    ensures Decode(Encoded(r)) == Ok(r)
  {
    hide BigEndian, Crc, Head, Valid;
    var s, h := Encoded(r), Head(r);
    HeadSlices(r);
    assert s[..60] == h && s[60..64] == BigEndian(Crc(h), 4);
    assert s[0] == h[0] && s[1] == h[1] && s[2..4] == h[2..4] && s[4..12] == h[4..12];
    assert s[12..14] == h[12..14] && s[14..16] == h[14..16] && s[16..32] == h[16..32];
    assert s[32..40] == h[32..40] && s[40..60] == h[40..60];
    Pow256Widths();
    DecodeBigEndian(r.from, 2);
    DecodeBigEndian(r.to, 2);
    DecodeBigEndian(r.transitions, 8);
    DecodeBigEndian(Crc(h), 4);
  }

  lemma EncodeUndoesDecode(bytes: seq<byte>)
    requires Decode(bytes).Ok?
    ensures Encode(Decode(bytes).value) == Ok(bytes)
  {
    hide BigEndian, Crc, Valid;
    var r := Decode(bytes).value;
    AllZeroIsZeros(bytes[2..4]);
    AllZeroIsZeros(bytes[40..60]);
    EncodeBigEndian(bytes[12..14]);
    EncodeBigEndian(bytes[14..16]);
    EncodeBigEndian(bytes[32..40]);
    EncodeBigEndian(bytes[60..64]);
    assert bytes[..60] == ([bytes[0], bytes[1]] + bytes[2..4] + bytes[4..12]) + (bytes[12..14] + bytes[14..16])
                          + bytes[16..32] + bytes[32..40] + bytes[40..60];
    assert bytes == bytes[..60] + bytes[60..64];
  }

  // ---------- The journal ----------

  // What the store remembers and what its file holds; the two may differ after a failed write.
  datatype Journal = Journal(memory: Option<MigrationRecord>, disk: Option<MigrationRecord>, configured: u16)

  ghost predicate Wellformed(j: Journal) {
    && j.configured > 0 && (j.memory.Some? ==> Valid(j.memory.value)) && (j.disk.Some? ==> Valid(j.disk.value))
  }

  function ActiveFormat(record: Option<MigrationRecord>, configured: u16): u16 {
    if record.None? then configured else ActiveVersion(record.value)
  }

  function Begun(j: Journal, id: Id16, to: u16, outcome: WriteOutcome): (Journal, Result<MigrationRecord, MigrationError>) {
    if j.memory.Some? && Partial(j.memory.value) then (j, Err(AlreadyInProgress))
    else
      var from := ActiveFormat(j.memory, j.configured);
      if to <= from then (j, Err(InvalidTarget))
      else
        var r := MigrationRecord(id, from, to, Copying, 1);
        var written := j.(disk := AfterWrite(outcome, j.disk, Some(r)));
        if outcome == Written then (written.(memory := Some(r)), Ok(r)) else (written, Err(WriteFailed))
  }

  // The in-memory record changes before the write, and keeps the change if the write fails or
  // the counter overflows.
  function Transitioned(j: Journal, expected: Phase, target: Phase, outcome: WriteOutcome)
    : (Journal, Result<MigrationRecord, MigrationError>)
  {
    if j.memory.None? then (j, Err(NoResumableMigration))
    else if j.memory.value.phase != expected then (j, Err(InvalidTransition(j.memory.value.phase, target)))
    else
      var changed := j.memory.value.(phase := target);
      if changed.transitions == U64_MAX then (j.(memory := Some(changed)), Err(TransitionCountOverflow))
      else
        var r := changed.(transitions := changed.transitions + 1);
        (j.(memory := Some(r), disk := AfterWrite(outcome, j.disk, Some(r))),
         if outcome == Written then Ok(r) else Err(WriteFailed))
  }

  // What a restart finds: the file's record, refused if it disagrees with the configured format.
  function Reopened(j: Journal, configured: u16): Result<Journal, MigrationError> {
    if configured == 0 then Err(InvalidRecord)
    else if j.disk.Some? && ActiveVersion(j.disk.value) != configured then
      Err(ActiveVersionMismatch(configured, ActiveVersion(j.disk.value)))
    else Ok(Journal(j.disk, j.disk, configured))
  }

  // A restart knows exactly what the file holds, whatever was remembered before.
  lemma RestartForgets(j: Journal, configured: u16)
    ensures Reopened(j, configured).Ok? <==> configured > 0 && (j.disk.None? || configured == ActiveVersion(j.disk.value))
    ensures Reopened(j, configured).Ok? ==>
              var found := Reopened(j, configured).value;
              found.memory == found.disk == j.disk && found.configured == configured
    ensures configured > 0 && Reopened(j, configured).Err? ==>
              Reopened(j, configured).error == ActiveVersionMismatch(configured, ActiveVersion(j.disk.value))
  {
  }

  datatype HandlerResult = Succeeds | Errors | Panics

  datatype Execution =
    | Idle
    | Advanced(record: MigrationRecord)
    | AlreadyPublished(record: MigrationRecord)
    | Failed(record: MigrationRecord)

  // One worker turn: the handler of the current phase, then its durable checkpoint.
  function ExecutedOnce(j: Journal, handled: HandlerResult, outcome: WriteOutcome): (Journal, Result<Execution, MigrationError>) {
    if j.memory.None? then (j, Ok(Idle))
    else if j.memory.value.phase == Published then (j, Ok(AlreadyPublished(j.memory.value)))
    else if handled != Succeeds then (j, Ok(Failed(j.memory.value)))
    else
      var (j', result) := Transitioned(j, j.memory.value.phase, NextPhase(j.memory.value.phase), outcome);
      (j', if result.Ok? then Ok(Advanced(result.value)) else Err(result.error))
  }

  // What a turn tells its caller: nothing to do, done before, the handler's failure with the record
  // as it stands, or the record one phase on.
  predicate Reports(
    memory: Option<MigrationRecord>, handled: HandlerResult, outcome: WriteOutcome, result: Result<Execution, MigrationError>)
  {
    if memory.None? then result == Ok(Idle)
    else if memory.value.phase == Published then result == Ok(AlreadyPublished(memory.value))
    else if handled != Succeeds then result == Ok(Failed(memory.value))
    else if memory.value.transitions == U64_MAX then result == Err(TransitionCountOverflow)
    else if outcome != Written then result == Err(WriteFailed)
    else
      && result.Ok? && result.value.Advanced?
      && var r, r' := memory.value, result.value.record;
         && r'.id == r.id && r'.from == r.from && r'.to == r.to && r'.transitions == r.transitions + 1
         && (r.phase == Copying ==> r'.phase == Validating) && (r.phase == Validating ==> r'.phase == Published)
  }

  function NextPhase(phase: Phase): Phase {
    match phase
    case Copying => Validating
    case Validating => Published
    case Published => Published
  }

  // ---------- The store ----------

  function ReadRecord(file: Option<seq<byte>>): Result<Option<MigrationRecord>, MigrationError> {
    if file.None? then Ok(None)
    else if |file.value| != MIGRATION_RECORD_LEN then Err(UnsafeStateFile)
    else
      var record := Decode(file.value);
      if record.Ok? then Ok(Some(record.value)) else Err(record.error)
  }

  // A file is read exactly as the record whose encoding it is, and a missing one as none.
  lemma ReadIffStored(file: Option<seq<byte>>, r: MigrationRecord)
    ensures ReadRecord(file) == Ok(Some(r)) <==> file.Some? && Encode(r) == Ok(file.value)
    ensures ReadRecord(file) == Ok(None) <==> file.None?
    ensures file.Some? && |file.value| != 64 ==> ReadRecord(file) == Err(UnsafeStateFile)
  {
    hide Encoded, Decode;
    if file.Some? && Decode(file.value).Ok? {
      EncodeUndoesDecode(file.value);
    }
    if Encode(r).Ok? {
      DecodeUndoesEncode(r);
    }
  }

  lemma VersionIsChecked(bytes: seq<byte>, version: byte)
    ensures Decode(bytes) == Err(UnsupportedVersion(version)) <==> |bytes| == 64 && bytes[0] == version != 1
  {
    hide Crc;
  }

  class MigrationStore {
    var memory: Option<MigrationRecord>
    var file: Option<seq<byte>>
    var configured: u16

    ghost predicate Readable()
      reads this
    {
      configured > 0 && ReadRecord(file).Ok? && (memory.Some? ==> Valid(memory.value))
    }

    ghost function View(): Journal
      requires Readable()
      reads this
    {
      Journal(memory, ReadRecord(file).value, configured)
    }

    constructor (configured: u16)
      requires configured > 0
      ensures Readable() && View() == Journal(None, None, configured)
    {
      memory, file, this.configured := None, None, configured;
    }

    method WriteRecord(r: MigrationRecord, outcome: WriteOutcome) returns (result: Result<(), MigrationError>)
      requires Readable() && Valid(r)
      modifies this`file
      ensures Readable()
      ensures View() == old(View()).(disk := AfterWrite(outcome, old(View()).disk, Some(r)))
      ensures result == if outcome == Written then Ok(()) else Err(WriteFailed)
    {
      hide Decode, Encoded, Valid;
      DecodeUndoesEncode(r);
      file := AfterWrite(outcome, file, Some(Encoded(r)));
      return if outcome == Written then Ok(()) else Err(WriteFailed);
    }

    // Refuses a file that cannot be read or that names another active format.
    method Reopen(configured: u16) returns (result: Result<(), MigrationError>)
      modifies this
      ensures file == old(file)
      ensures result.Ok? <==>
                && configured > 0 && ReadRecord(file).Ok?
                && ActiveFormat(ReadRecord(file).value, configured) == configured
      ensures result.Ok? ==> Readable() && View() == Journal(ReadRecord(file).value, ReadRecord(file).value, configured)
      ensures result.Err? ==> memory == old(memory) && this.configured == old(this.configured)
      ensures configured == 0 ==> result == Err(InvalidRecord)
      ensures configured > 0 && ReadRecord(file).Err? ==> result == Err(ReadRecord(file).error)
      ensures configured > 0 && ReadRecord(file).Ok? && result.Err? ==>
                result == Err(ActiveVersionMismatch(configured, ActiveFormat(ReadRecord(file).value, configured)))
    {
      if configured == 0 {
        return Err(InvalidRecord);
      }
      var record := ReadRecord(file);
      if record.Err? {
        return Err(record.error);
      }
      if record.value.Some? && ActiveVersion(record.value.value) != configured {
        return Err(ActiveVersionMismatch(configured, ActiveVersion(record.value.value)));
      }
      memory, this.configured := record.value, configured;
      return Ok(());
    }

    method BeginWithId(id: Id16, to: u16, outcome: WriteOutcome) returns (result: Result<MigrationRecord, MigrationError>)
      requires Readable()
      modifies this
      ensures Readable()
      ensures (View(), result) == Begun(old(View()), id, to, outcome)
      ensures var busy := old(memory).Some? && old(memory).value.phase != Published;
              var active := ActiveFormat(old(memory), configured);
              && (result == Err(AlreadyInProgress) <==> busy) && (result == Err(InvalidTarget) <==> !busy && to <= active)
              && (result.Ok? <==> !busy && active < to && outcome == Written)
              && (result.Ok? ==>
                    && result.value == MigrationRecord(id, active, to, Copying, 1)
                    && View().memory == View().disk == Some(result.value))
    {
      hide Decode;
      if memory.Some? && Partial(memory.value) {
        return Err(AlreadyInProgress);
      }
      var from := ActiveFormat(memory, configured);
      if to <= from {
        return Err(InvalidTarget);
      }
      var record := MigrationRecord(id, from, to, Copying, 1);
      var written := WriteRecord(record, outcome);
      if written.Err? {
        return Err(written.error);
      }
      memory := Some(record);
      return Ok(record);
    }

    method Transition(expected: Phase, target: Phase, outcome: WriteOutcome)
        returns (result: Result<MigrationRecord, MigrationError>)
      requires Readable()
      modifies this
      ensures Readable()
      ensures (View(), result) == Transitioned(old(View()), expected, target, outcome)
      ensures var ready := old(memory).Some? && old(memory).value.phase == expected;
              && (result == Err(NoResumableMigration) <==> old(memory).None?)
              && (old(memory).Some? && !ready ==> result == Err(InvalidTransition(old(memory).value.phase, target)))
              && (result.Ok? <==> ready && old(memory).value.transitions < U64_MAX && outcome == Written)
              && (result.Ok? ==>
                    && result.value.phase == target && result.value.transitions == old(memory).value.transitions + 1
                    && result.value.id == old(memory).value.id && result.value.to == old(memory).value.to
                    && View().memory == View().disk == Some(result.value))
    {
      hide Decode;
      if memory.None? {
        return Err(NoResumableMigration);
      }
      if memory.value.phase != expected {
        return Err(InvalidTransition(memory.value.phase, target));
      }
      memory := Some(memory.value.(phase := target));
      if memory.value.transitions == U64_MAX {
        return Err(TransitionCountOverflow);
      }
      memory := Some(memory.value.(transitions := memory.value.transitions + 1));
      var written := WriteRecord(memory.value, outcome);
      return if written.Ok? then Ok(memory.value) else Err(written.error);
    }

    method ExecuteOnce(handled: HandlerResult, outcome: WriteOutcome) returns (result: Result<Execution, MigrationError>)
      requires Readable()
      modifies this
      ensures Readable()
      ensures (View(), result) == ExecutedOnce(old(View()), handled, outcome)
      ensures Reports(old(memory), handled, outcome, result)
      ensures result.Ok? && !result.value.Advanced? ==> View() == old(View())
    {
      hide Decode;
      if memory.None? {
        return Ok(Idle);
      }
      var record := memory.value;
      match record.phase {
        case Published =>
          return Ok(AlreadyPublished(record));
        case Copying =>
          if handled != Succeeds {
            return Ok(Failed(record));
          }
          var advanced := Transition(Copying, Validating, outcome);
          return if advanced.Ok? then Ok(Advanced(advanced.value)) else Err(advanced.error);
        case Validating =>
          if handled != Succeeds {
            return Ok(Failed(record));
          }
          var published := Transition(Validating, Published, outcome);
          return if published.Ok? then Ok(Advanced(published.value)) else Err(published.error);
      }
    }
  }

  // ---------- Durable steps ----------

  // The steps a migration may durably take: begin from the active format, then one phase at a
  // time, counting each.
  predicate Legal(d: Option<MigrationRecord>, d': Option<MigrationRecord>, configured: u16) {
    && d'.Some?
    && if d.None? || !Partial(d.value)
       then d'.value.phase == Copying && d'.value.transitions == 1 && d'.value.from == ActiveFormat(d, configured)
       else d.value.transitions < U64_MAX &&
            d'.value == d.value.(phase := NextPhase(d.value.phase), transitions := d.value.transitions + 1)
  }

  function Rank(phase: Phase): nat {
    match phase
    case Copying => 0
    case Validating => 1
    case Published => 2
  }

  // Memory passed phases that the file never recorded.
  ghost predicate Ahead(j: Journal) {
    && j.memory.Some? && j.disk.Some? && Partial(j.disk.value)
    && Rank(j.disk.value.phase) < Rank(j.memory.value.phase)
    && j.memory.value == j.disk.value.(phase := j.memory.value.phase, transitions := j.memory.value.transitions)
  }

  // The file recorded a new migration that memory never learnt of.
  ghost predicate Behind(j: Journal) {
    && (j.memory.Some? ==> !Partial(j.memory.value))
    && j.disk.Some? && j.disk.value.phase == Copying
    && j.disk.value.from == ActiveFormat(j.memory, j.configured)
  }

  ghost predicate Coherent(j: Journal) {
    Wellformed(j) && (j.memory == j.disk || Ahead(j) || Behind(j))
  }

  datatype Step =
    | Begin(id: Id16, to: u16, outcome: WriteOutcome)
    | Execute(handled: HandlerResult, outcome: WriteOutcome)
    | Restart(configured: u16)

  function Take(j: Journal, step: Step): Journal {
    match step
    case Begin(id, to, outcome) => Begun(j, id, to, outcome).0
    case Execute(handled, outcome) => ExecutedOnce(j, handled, outcome).0
    case Restart(configured) => var reopened := Reopened(j, configured); if reopened.Ok? then reopened.value else j
  }

  // Every operation, failed write and restart keeps memory and file within one of three relations.
  lemma StepKeepsCoherent(j: Journal, step: Step)
    requires Coherent(j)
    ensures Coherent(Take(j, step))
  {
  }

  // A durable change is a legal step exactly when memory agreed with the file before it.
  lemma LegalIffInSync(j: Journal, step: Step)
    requires Coherent(j) && Take(j, step).disk != j.disk
    ensures Legal(j.disk, Take(j, step).disk, j.configured) <==> j.memory == j.disk
  {
  }

  // Memory and file part exactly when a checkpoint fails without effect or overflows, or when a
  // begin fails with effect.
  lemma PartsExactlyWhen(j: Journal, step: Step)
    requires Wellformed(j) && j.memory == j.disk
    ensures Take(j, step).memory == Take(j, step).disk <==>
            match step
            case Restart(_) => true
            case Begin(_, _, outcome) =>
              || outcome != FailedNew || (j.memory.Some? && Partial(j.memory.value))
              || step.to <= ActiveFormat(j.memory, j.configured)
            case Execute(handled, outcome) =>
              || j.memory.None? || j.memory.value.phase == Published || handled != Succeeds
              || (j.memory.value.transitions < U64_MAX && outcome != FailedOld)
  {
  }

  // A failed checkpoint that is not followed by a restart makes the file skip validation.
  lemma FailedWriteSkipsPhase(id: Id16)
    ensures var copying := MigrationRecord(id, 1, 2, Copying, 1);
            var j0 := Journal(Some(copying), Some(copying), 1);
            var j1 := Take(j0, Execute(Succeeds, FailedOld));
            var j2 := Take(j1, Execute(Succeeds, Written));
            && Coherent(j0) && j1.disk == Some(copying)
            && j2.disk == Some(copying.(phase := Published, transitions := 3)) && !Legal(j1.disk, j2.disk, 1)
  {
  }

  // ---------- Whole runs ----------

  // `verified` are the migrations whose external switch has happened: a worker turn makes it
  // before its checkpoint, and may have made it even if it then reports failure.
  datatype World = World(journal: Journal, verified: set<(Id16, u16)>)

  predicate MayPublish(j: Journal, step: Step) {
    step.Execute? && j.memory.Some? && j.memory.value.phase == Validating
  }

  ghost predicate Next(w: World, step: Step, w': World) {
    && w'.journal == Take(w.journal, step)
    && if MayPublish(w.journal, step)
       then var switched := w.verified + {(w.journal.memory.value.id, w.journal.memory.value.to)};
            w'.verified == switched || (w'.verified == w.verified && step.handled != Succeeds)
       else w'.verified == w.verified
  }

  // A Published record is of a migration whose switch happened.
  predicate Backed(record: Option<MigrationRecord>, verified: set<(Id16, u16)>) {
    record.Some? && record.value.phase == Published ==> (record.value.id, record.value.to) in verified
  }

  ghost predicate Truthful(w: World) {
    Coherent(w.journal) && Backed(w.journal.memory, w.verified) && Backed(w.journal.disk, w.verified)
  }

  ghost predicate IsRun(worlds: seq<World>, steps: seq<Step>) {
    && |worlds| == |steps| + 1 && Truthful(worlds[0]) && worlds[0].journal.memory == worlds[0].journal.disk
    && forall i :: 0 <= i < |steps| ==> Next(worlds[i], steps[i], worlds[i + 1])
  }

  lemma StepKeepsTruthful(w: World, step: Step, w': World)
    requires Truthful(w) && Next(w, step, w')
    ensures Truthful(w')
  {
    hide Coherent;
    StepKeepsCoherent(w.journal, step);
  }

  // Neither the status nor the file ever calls a target format active before its switch was
  // made, whatever writes fail and whenever the daemon restarts.
  lemma {:induction false} PublishedWasVerified(worlds: seq<World>, steps: seq<Step>, n: nat)
    requires IsRun(worlds, steps) && n < |worlds|
    ensures Truthful(worlds[n])
  {
    hide Next;
    if n > 0 {
      PublishedWasVerified(worlds, steps, n - 1);
      assert Next(worlds[n - 1], steps[n - 1], worlds[n - 1 + 1]);
      StepKeepsTruthful(worlds[n - 1], steps[n - 1], worlds[n]);
    }
  }

  // Every divergence between memory and file is answered by a restart.
  ghost predicate FailStop(worlds: seq<World>, steps: seq<Step>)
    requires |worlds| == |steps| + 1
  {
    forall i :: 0 <= i < |steps| && worlds[i].journal.memory != worlds[i].journal.disk ==> steps[i].Restart?
  }

  // Then the whole durable history is legal.
  lemma RestartsKeepHistoryLegal(worlds: seq<World>, steps: seq<Step>, n: nat)
    requires IsRun(worlds, steps) && FailStop(worlds, steps) && n < |steps|
    ensures worlds[n + 1].journal.disk == worlds[n].journal.disk
            || Legal(worlds[n].journal.disk, worlds[n + 1].journal.disk, worlds[n].journal.configured)
  {
    hide Coherent, Legal;
    PublishedWasVerified(worlds, steps, n);
    assert Next(worlds[n], steps[n], worlds[n + 1]);
    if worlds[n + 1].journal.disk != worlds[n].journal.disk {
      LegalIffInSync(worlds[n].journal, steps[n]);
    }
  }

  // The counter is the phase's tag.
  predicate Counted(record: Option<MigrationRecord>) {
    record.Some? ==> record.value.transitions == PhaseTag(record.value.phase)
  }

  // A legal step keeps the count, and raises the active format exactly when it publishes.
  lemma LegalFacts(d: Option<MigrationRecord>, d': Option<MigrationRecord>, configured: u16)
    requires Legal(d, d', configured) && (d.Some? ==> Valid(d.value)) && d'.Some? && Valid(d'.value)
    ensures Counted(d) ==> Counted(d')
    ensures ActiveFormat(d, configured) <= ActiveFormat(d', configured)
    ensures ActiveFormat(d, configured) < ActiveFormat(d', configured) <==> d'.value.phase == Published
  {
  }

  // What one step of a fail-stop run may do to the file.
  lemma FailStopStep(worlds: seq<World>, steps: seq<Step>, n: nat)
    requires IsRun(worlds, steps) && FailStop(worlds, steps) && n < |steps|
    ensures var d, d' := worlds[n].journal.disk, worlds[n + 1].journal.disk;
            && (Counted(d) ==> Counted(d')) && (d.Some? ==> d'.Some?)
            && (d.Some? && d' != d ==>
                  && ActiveVersion(d.value) <= ActiveVersion(d'.value)
                  && (ActiveVersion(d.value) < ActiveVersion(d'.value) <==> d'.value.phase == Published))
  {
    hide Coherent, Next, FailStop;
    RestartsKeepHistoryLegal(worlds, steps, n);
    PublishedWasVerified(worlds, steps, n);
    PublishedWasVerified(worlds, steps, n + 1);
    CoherentIsWellformed(worlds[n].journal);
    CoherentIsWellformed(worlds[n + 1].journal);
    var before, after := worlds[n].journal, worlds[n + 1].journal;
    if after.disk != before.disk {
      LegalFacts(before.disk, after.disk, before.configured);
    }
  }

  // In every run, for what the store remembers and for what its file holds.
  lemma {:induction false} CountIsTag(worlds: seq<World>, steps: seq<Step>, n: nat)
    requires IsRun(worlds, steps) && n < |worlds| && Counted(worlds[0].journal.disk)
    ensures Counted(worlds[n].journal.memory) && Counted(worlds[n].journal.disk)
  {
    if n > 0 {
      CountIsTag(worlds, steps, n - 1);
      assert Next(worlds[n - 1], steps[n - 1], worlds[n - 1 + 1]);
    }
  }

  // The durable active format never falls, in any run.
  lemma {:induction false} ActiveNeverFalls(worlds: seq<World>, steps: seq<Step>, i: nat, j: nat)
    requires IsRun(worlds, steps) && i <= j < |worlds| && worlds[i].journal.disk.Some?
    ensures worlds[j].journal.disk.Some?
    ensures ActiveVersion(worlds[i].journal.disk.value) <= ActiveVersion(worlds[j].journal.disk.value)
    decreases j
  {
    if i < j {
      ActiveNeverFalls(worlds, steps, i, j - 1);
      PublishedWasVerified(worlds, steps, j - 1);
      assert Next(worlds[j - 1], steps[j - 1], worlds[j - 1 + 1]);
    }
  }

  lemma CoherentIsWellformed(j: Journal)
    requires Coherent(j)
    ensures Wellformed(j)
  {
  }

  // The target of the latest Published record the file held up to world `n`; before the first,
  // the format in force when the run, or its first migration, began.
  ghost function LastPublished(worlds: seq<World>, n: nat): u16
    requires n < |worlds|
  {
    var j := worlds[n].journal;
    if j.disk.None? then j.configured
    else if j.disk.value.phase == Published then j.disk.value.to
    else if n == 0 then j.disk.value.from
    else LastPublished(worlds, n - 1)
  }

  // A begin that reaches the file while memory takes for active a format that the file does not:
  // a checkpoint to Published failed, and no restart has answered it.
  predicate Misled(j: Journal, step: Step) {
    && step.Begin? && step.outcome != FailedOld && (j.memory.Some? ==> !Partial(j.memory.value))
    && step.to > ActiveFormat(j.memory, j.configured)
    && ActiveFormat(j.memory, j.configured) != ActiveFormat(j.disk, j.configured)
  }

  ghost predicate InForce(worlds: seq<World>, n: nat)
    requires n < |worlds|
  {
    ActiveFormat(worlds[n].journal.disk, worlds[n].journal.configured) == LastPublished(worlds, n)
  }

  lemma StartsInForce(worlds: seq<World>, steps: seq<Step>)
    requires IsRun(worlds, steps)
    ensures InForce(worlds, 0)
  {
  }

  lemma StaysInForce(worlds: seq<World>, steps: seq<Step>, n: nat)
    requires IsRun(worlds, steps) && n < |steps| && InForce(worlds, n)
    ensures InForce(worlds, n + 1) <==> !Misled(worlds[n].journal, steps[n])
  {
    PublishedWasVerified(worlds, steps, n);
    assert Next(worlds[n], steps[n], worlds[n + 1]);
  }

  // Up to any world of any run, the file's active format has always been the last one it
  // published exactly when no begin so far was misled.
  lemma {:induction false} ActiveIsLastPublished(worlds: seq<World>, steps: seq<Step>, n: nat)
    requires IsRun(worlds, steps) && n < |worlds|
    ensures (forall m :: 0 <= m <= n ==> InForce(worlds, m)) <==>
            (forall i :: 0 <= i < n ==> !Misled(worlds[i].journal, steps[i]))
  {
    hide InForce, Misled, Truthful, Next;
    if n == 0 {
      StartsInForce(worlds, steps);
    } else {
      ActiveIsLastPublished(worlds, steps, n - 1);
      if forall m :: 0 <= m <= n - 1 ==> InForce(worlds, m) {
        StaysInForce(worlds, steps, n - 1);
      }
    }
  }

  // A file with a record opens with exactly one configured format, the last one it published; a
  // store without a record opens with any.
  ghost predicate OpensAtLastPublished(worlds: seq<World>, n: nat)
    requires n < |worlds|
  {
    forall configured :: Reopened(worlds[n].journal, configured).Ok? <==>
                         configured > 0 && (worlds[n].journal.disk.None? || configured == LastPublished(worlds, n))
  }

  lemma OpensWhereInForce(worlds: seq<World>, steps: seq<Step>, n: nat)
    requires IsRun(worlds, steps) && n < |worlds|
    ensures OpensAtLastPublished(worlds, n) <==> InForce(worlds, n)
  {
    hide IsRun;
    PublishedWasVerified(worlds, steps, n);
    var j := worlds[n].journal;
    if j.disk.Some? {
      assert Reopened(j, ActiveVersion(j.disk.value)).Ok?;
    }
  }

  // So it opens, at every world of a run, exactly when no begin of the run was misled.
  lemma OpensOnlyAtLastPublished(worlds: seq<World>, steps: seq<Step>, n: nat)
    requires IsRun(worlds, steps) && n < |worlds|
    ensures (forall m :: 0 <= m <= n ==> OpensAtLastPublished(worlds, m)) <==>
            (forall i :: 0 <= i < n ==> !Misled(worlds[i].journal, steps[i]))
  {
    hide InForce, Misled, Truthful, Next, OpensAtLastPublished;
    ActiveIsLastPublished(worlds, steps, n);
    forall m | 0 <= m <= n
      ensures OpensAtLastPublished(worlds, m) <==> InForce(worlds, m)
    {
      OpensWhereInForce(worlds, steps, m);
    }
  }

  // A daemon that restarts after every divergence is never misled.
  lemma FailStopOpensAtLastPublished(worlds: seq<World>, steps: seq<Step>, n: nat)
    requires IsRun(worlds, steps) && FailStop(worlds, steps) && n < |worlds|
    ensures InForce(worlds, n) && OpensAtLastPublished(worlds, n)
  {
    hide InForce, Truthful, Next, OpensAtLastPublished;
    ActiveIsLastPublished(worlds, steps, n);
    OpensOnlyAtLastPublished(worlds, steps, n);
  }

  // A misled begin: without the restart after a failed checkpoint, a file that never held a Published record for
  // format 2 opens at 2 and nowhere else.
  lemma OpensAtUnpublished(id: Id16, id2: Id16)
    ensures var validating := MigrationRecord(id, 1, 2, Validating, 2);
            var next := MigrationRecord(id2, 2, 3, Copying, 1);
            var steps := [Execute(Succeeds, FailedOld), Begin(id2, 3, Written)];
            var j0 := Journal(Some(validating), Some(validating), 1);
            var j1 := Take(j0, steps[0]);
            var worlds := [World(j0, {}), World(j1, {(id, 2)}), World(Take(j1, steps[1]), {(id, 2)})];
            && IsRun(worlds, steps) && Misled(j1, steps[1])
            && worlds[1].journal.disk == Some(validating) && worlds[2].journal.disk == Some(next)
            && LastPublished(worlds, 2) == 1
            && forall v :: Reopened(worlds[2].journal, v).Ok? <==> v == 2
  {
    var validating := MigrationRecord(id, 1, 2, Validating, 2);
    var steps := [Execute(Succeeds, FailedOld), Begin(id2, 3, Written)];
    var j0 := Journal(Some(validating), Some(validating), 1);
    var j1 := Take(j0, steps[0]);
    var worlds := [World(j0, {}), World(j1, {(id, 2)}), World(Take(j1, steps[1]), {(id, 2)})];
    assert Next(worlds[0], steps[0], worlds[1]) && Next(worlds[1], steps[1], worlds[2]);
    assert LastPublished(worlds, 0) == 1 && LastPublished(worlds, 1) == 1;
  }
}
