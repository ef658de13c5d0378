/** Repository snapshot manifests: validation and the canonical byte encoding (crates/reflink-forest-import). */
module SnapshotManifest {
  import opened Bytes
  import opened Core

  const MANIFEST_VERSION: u16 := 1
  const MAX_MANIFEST_BYTES: nat := 16 * 1024 * 1024
  const REF_NAME_MAX_BYTES: nat := 64 * 1024
  const TOOL_VERSION_MAX_BYTES: nat := 64 * 1024
  const OPTIONAL_FIELD_MAX_BYTES: nat := 4 * 1024 * 1024
  const MIN_REF_ENTRY_BYTES: nat := 1 + 2 + 1 + 1 + 20
  const MIN_OPTIONAL_FIELD_BYTES: nat := 2 + 4
  const FIXED_LEN: nat := 96

  // "RFSNAP\0\0", "refs/heads/" and "refs/tags/"
  const MANIFEST_MAGIC: seq<byte> := [0x52, 0x46, 0x53, 0x4e, 0x41, 0x50, 0, 0]
  const HEADS: seq<byte> := [114, 101, 102, 115, 47, 104, 101, 97, 100, 115, 47]
  const TAGS: seq<byte> := [114, 101, 102, 115, 47, 116, 97, 103, 115, 47]

  datatype LocalRefKind = Branch | TagRef

  datatype PersistedRef = PersistedRef(name: seq<byte>, kind: LocalRefKind, target: Oid)

  datatype OptionalField = OptionalField(tag: u16, value: seq<byte>)

  datatype ImportSummary = ImportSummary(objectsSeen: u64, objectsWritten: u64, objectsDeduplicated: u64, rawBytes: u64)

  // The one import policy (local branches and tags) is not a field: it carries no information.
  datatype Manifest = Manifest(
    repository: Id16,
    snapshotId: Id16,
    nativeFormat: HashAlgorithm,
    refs: seq<PersistedRef>,
    summary: ImportSummary,
    importedUnixSecs: u64,
    toolVersion: seq<byte>,
    optionalFields: seq<OptionalField>)

  datatype ManifestError =
    | Invalid(reason: string)
    | NotValid(problem: Problem)
    | UnsupportedVersion(version: u16)
    | LengthOverflow

  // What validation finds first.
  datatype Problem =
    | ToolVersionSize
    | InconsistentCounters
    | TooManyRefs
    | RefNameSize
    | ForeignAlgorithm
    | OutsideNamespace
    | UnsortedRefs
    | TooManyFields
    | InvalidField
    | RepeatedTag

  // ---------- Validation ----------

  function Namespace(kind: LocalRefKind): seq<byte> {
    match kind
    case Branch => HEADS
    case TagRef => TAGS
  }

  predicate ValidRef(m: Manifest, r: PersistedRef) {
    && r.name != [] && |r.name| <= REF_NAME_MAX_BYTES
    && r.target.algorithm == m.nativeFormat
    && Namespace(r.kind) <= r.name
  }

  predicate StrictlySorted(refs: seq<PersistedRef>) {
    forall i, j :: 0 <= i < j < |refs| ==> Less(refs[i].name, refs[j].name)
  }

  predicate ValidField(f: OptionalField) {
    f.tag != 0 && |f.value| <= OPTIONAL_FIELD_MAX_BYTES
  }

  predicate DistinctTags(fields: seq<OptionalField>) {
    forall i, j :: 0 <= i < j < |fields| ==> fields[i].tag != fields[j].tag
  }

  predicate Valid(m: Manifest) {
    && m.toolVersion != [] && |m.toolVersion| <= TOOL_VERSION_MAX_BYTES
    && m.summary.objectsWritten + m.summary.objectsDeduplicated == m.summary.objectsSeen
    && |m.refs| <= U32_MAX
    && (forall i :: 0 <= i < |m.refs| ==> ValidRef(m, m.refs[i]))
    && StrictlySorted(m.refs)
    && |m.optionalFields| <= U32_MAX
    && (forall i :: 0 <= i < |m.optionalFields| ==> ValidField(m.optionalFields[i]))
    && DistinctTags(m.optionalFields)
  }

  // Each name is compared with the previous one only, and each tag with all earlier ones.
  function RefProblem(m: Manifest, i: nat): Option<Problem>
    requires i < |m.refs|
  {
    var r := m.refs[i];
    if r.name == [] || |r.name| > REF_NAME_MAX_BYTES then Some(RefNameSize)
    else if r.target.algorithm != m.nativeFormat then Some(ForeignAlgorithm)
    else if !(Namespace(r.kind) <= r.name) then Some(OutsideNamespace)
    else if i > 0 && !Less(m.refs[i - 1].name, r.name) then Some(UnsortedRefs)
    else None
  }

  function RefsProblem(m: Manifest, i: nat): Option<Problem>
    requires i <= |m.refs|
    decreases |m.refs| - i
  {
    if i == |m.refs| then None
    else if RefProblem(m, i).Some? then RefProblem(m, i)
    else RefsProblem(m, i + 1)
  }

  predicate Repeats(fields: seq<OptionalField>, i: nat)
    requires i < |fields|
  {
    exists j :: 0 <= j < i && fields[j].tag == fields[i].tag
  }

  function FieldsProblem(fields: seq<OptionalField>, i: nat): Option<Problem>
    requires i <= |fields|
    decreases |fields| - i
  {
    if i == |fields| then None
    else if !ValidField(fields[i]) then Some(InvalidField)
    else if Repeats(fields, i) then Some(RepeatedTag)
    else FieldsProblem(fields, i + 1)
  }

  function FirstProblem(m: Manifest): Option<Problem> {
    if m.toolVersion == [] || |m.toolVersion| > TOOL_VERSION_MAX_BYTES then Some(ToolVersionSize)
    else if m.summary.objectsWritten + m.summary.objectsDeduplicated != m.summary.objectsSeen then Some(InconsistentCounters)
    else if |m.refs| > U32_MAX then Some(TooManyRefs)
    else if RefsProblem(m, 0).Some? then RefsProblem(m, 0)
    else if |m.optionalFields| > U32_MAX then Some(TooManyFields)
    else FieldsProblem(m.optionalFields, 0)
  }

  lemma {:induction false} RefsProblemIff(m: Manifest, i: nat)
    requires i <= |m.refs| && forall k :: 0 <= k < i ==> RefProblem(m, k).None?
    ensures RefsProblem(m, i).None? <==> forall k :: 0 <= k < |m.refs| ==> RefProblem(m, k).None?
    decreases |m.refs| - i
  {
    hide RefProblem;
    if i < |m.refs| && RefProblem(m, i).None? {
      RefsProblemIff(m, i + 1);
    }
  }

  lemma {:induction false} NeighboursSort(m: Manifest, j: nat, k: nat)
    requires j < k < |m.refs| && forall i :: 0 <= i < |m.refs| ==> RefProblem(m, i).None?
    ensures Less(m.refs[j].name, m.refs[k].name)
    decreases k
  {
    hide Less;
    assert RefProblem(m, k).None?;
    if j < k - 1 {
      NeighboursSort(m, j, k - 1);
      LessTransitive(m.refs[j].name, m.refs[k - 1].name, m.refs[k].name);
    }
  }

  lemma RefsProblemMeans(m: Manifest)
    ensures RefsProblem(m, 0).None? <==>
            (forall i :: 0 <= i < |m.refs| ==> ValidRef(m, m.refs[i])) && StrictlySorted(m.refs)
  {
    hide Less;
    RefsProblemIff(m, 0);
    if forall i :: 0 <= i < |m.refs| ==> RefProblem(m, i).None? {
      forall i | 0 <= i < |m.refs|
        ensures ValidRef(m, m.refs[i])
      {
        assert RefProblem(m, i).None?;
      }
      forall j, k | 0 <= j < k < |m.refs|
        ensures Less(m.refs[j].name, m.refs[k].name)
      {
        NeighboursSort(m, j, k);
      }
    } else {
      var i :| 0 <= i < |m.refs| && RefProblem(m, i).Some?;
    }
  }

  lemma {:induction false} FieldsProblemMeans(fields: seq<OptionalField>, i: nat)
    requires i <= |fields| && forall k :: 0 <= k < i ==> ValidField(fields[k]) && !Repeats(fields, k)
    ensures FieldsProblem(fields, i).None? <==>
            (forall k :: 0 <= k < |fields| ==> ValidField(fields[k])) && DistinctTags(fields)
    decreases |fields| - i
  {
    if i == |fields| {
      forall j, k | 0 <= j < k < |fields|
        ensures fields[j].tag != fields[k].tag
      {
        assert !Repeats(fields, k);
      }
    } else if ValidField(fields[i]) && !Repeats(fields, i) {
      FieldsProblemMeans(fields, i + 1);
    }
  }

  // There is a first problem exactly when the manifest is not valid.
  lemma ProblemMeansInvalid(m: Manifest)
    ensures FirstProblem(m).None? <==> Valid(m)
  {
    hide RefsProblem, FieldsProblem, ValidRef, StrictlySorted, ValidField, DistinctTags;
    RefsProblemMeans(m);
    FieldsProblemMeans(m.optionalFields, 0);
  }

  // What each problem says of the manifest.
  predicate Has(m: Manifest, problem: Problem) {
    match problem
    case ToolVersionSize => |m.toolVersion| == 0 || |m.toolVersion| > 65536
    case InconsistentCounters => m.summary.objectsWritten + m.summary.objectsDeduplicated != m.summary.objectsSeen
    case TooManyRefs => |m.refs| > 0xFFFF_FFFF
    case RefNameSize => exists i :: 0 <= i < |m.refs| && (|m.refs[i].name| == 0 || |m.refs[i].name| > 65536)
    case ForeignAlgorithm => exists i :: 0 <= i < |m.refs| && m.refs[i].target.algorithm != m.nativeFormat
    case OutsideNamespace =>
      exists i :: 0 <= i < |m.refs| && !((if m.refs[i].kind == Branch then HEADS else TAGS) <= m.refs[i].name)
    case UnsortedRefs => exists i :: 0 < i < |m.refs| && !Less(m.refs[i - 1].name, m.refs[i].name)
    case TooManyFields => |m.optionalFields| > 0xFFFF_FFFF
    case InvalidField =>
      exists i :: 0 <= i < |m.optionalFields| && (m.optionalFields[i].tag == 0 || |m.optionalFields[i].value| > 4 * 1024 * 1024)
    case RepeatedTag =>
      exists i, j :: 0 <= i < j < |m.optionalFields| && m.optionalFields[i].tag == m.optionalFields[j].tag
  }

  lemma {:induction false} RefsProblemIsThere(m: Manifest, i: nat)
    requires i <= |m.refs|
    ensures RefsProblem(m, i).Some? ==> Has(m, RefsProblem(m, i).value)
    decreases |m.refs| - i
  {
    hide Less;
    if i < |m.refs| && RefProblem(m, i).None? {
      RefsProblemIsThere(m, i + 1);
    }
  }

  lemma {:induction false} FieldsProblemIsThere(m: Manifest, i: nat)
    requires i <= |m.optionalFields|
    ensures FieldsProblem(m.optionalFields, i).Some? ==> Has(m, FieldsProblem(m.optionalFields, i).value)
    decreases |m.optionalFields| - i
  {
    if i < |m.optionalFields| && ValidField(m.optionalFields[i]) && !Repeats(m.optionalFields, i) {
      FieldsProblemIsThere(m, i + 1);
    }
  }

  // The problem that is reported is one the manifest has; without one it has none.
  lemma ProblemIsThere(m: Manifest)
    ensures FirstProblem(m).Some? ==> Has(m, FirstProblem(m).value)
    ensures FirstProblem(m).None? ==> forall problem :: !Has(m, problem)
  {
    hide RefsProblem, FieldsProblem, Less;
    RefsProblemIsThere(m, 0);
    FieldsProblemIsThere(m, 0);
    if FirstProblem(m).None? {
      ProblemMeansInvalid(m);
      assert forall i :: 0 <= i < |m.refs| ==> ValidRef(m, m.refs[i]);
      assert forall i :: 0 <= i < |m.optionalFields| ==> ValidField(m.optionalFields[i]);
    }
  }

  function ValidationError(m: Manifest): ManifestError
    requires !Valid(m)
  {
    ProblemMeansInvalid(m);
    NotValid(FirstProblem(m).value)
  }

  method Validate(m: Manifest) returns (problem: Option<Problem>)
    ensures problem == FirstProblem(m)
    ensures problem.None? <==> Valid(m)
  {
    hide RefsProblem, FieldsProblem, Valid;
    ProblemMeansInvalid(m);
    if m.toolVersion == [] || |m.toolVersion| > TOOL_VERSION_MAX_BYTES {
      return Some(ToolVersionSize);
    }
    if m.summary.objectsWritten + m.summary.objectsDeduplicated != m.summary.objectsSeen {
      return Some(InconsistentCounters);
    }
    if |m.refs| > U32_MAX {
      return Some(TooManyRefs);
    }
    var refs := ValidateRefs(m);
    if refs.Some? {
      return refs;
    }
    if |m.optionalFields| > U32_MAX {
      return Some(TooManyFields);
    }
    problem := ValidateFields(m.optionalFields);
  }

  method ValidateRefs(m: Manifest) returns (problem: Option<Problem>)
    ensures problem == RefsProblem(m, 0)
  {
    hide Less;
    var previous: Option<seq<byte>> := None;
    for i := 0 to |m.refs|
      invariant RefsProblem(m, 0) == RefsProblem(m, i)
      invariant previous == if i == 0 then None else Some(m.refs[i - 1].name)
    {
      var r := m.refs[i];
      if r.name == [] || |r.name| > REF_NAME_MAX_BYTES {
        return Some(RefNameSize);
      }
      if r.target.algorithm != m.nativeFormat {
        return Some(ForeignAlgorithm);
      }
      if !(Namespace(r.kind) <= r.name) {
        return Some(OutsideNamespace);
      }
      if previous.Some? && !Less(previous.value, r.name) {
        return Some(UnsortedRefs);
      }
      previous := Some(r.name);
    }
    return None;
  }

  method ValidateFields(fields: seq<OptionalField>) returns (problem: Option<Problem>)
    ensures problem == FieldsProblem(fields, 0)
  {
    for i := 0 to |fields|
      invariant FieldsProblem(fields, 0) == FieldsProblem(fields, i)
    {
      if fields[i].tag == 0 || |fields[i].value| > OPTIONAL_FIELD_MAX_BYTES {
        return Some(InvalidField);
      }
      for j := 0 to i
        invariant forall k :: 0 <= k < j ==> fields[k].tag != fields[i].tag
        invariant FieldsProblem(fields, 0) == FieldsProblem(fields, i)
      {
        if fields[j].tag == fields[i].tag {
          assert Repeats(fields, i);
          return Some(RepeatedTag);
        }
      }
    }
    return None;
  }

  // ---------- Encoding ----------

  function RefKindTag(kind: LocalRefKind): byte {
    match kind
    case Branch => 1
    case TagRef => 2
  }

  lemma StableTags()
    ensures RefKindTag(Branch) == 1 && RefKindTag(TagRef) == 2
  {
  }

  function RefKindFromTag(tag: byte): Option<LocalRefKind> {
    match tag
    case 1 => Some(Branch)
    case 2 => Some(TagRef)
    case _ => None
  }

  function RefBytes(r: PersistedRef): seq<byte> {
    ([RefKindTag(r.kind)] + BigEndian(|r.name|, 2)) + r.name
    + ([AlgorithmTag(r.target.algorithm), OidLen(r.target.algorithm)] + r.target.bytes)
  }

  function RefsBytes(refs: seq<PersistedRef>): seq<byte> {
    if refs == [] then [] else RefBytes(refs[0]) + RefsBytes(refs[1..])
  }

  function FieldBytes(f: OptionalField): seq<byte> {
    (BigEndian(f.tag, 2) + BigEndian(|f.value|, 4)) + f.value
  }

  function FieldsBytes(fields: seq<OptionalField>): seq<byte> {
    if fields == [] then [] else FieldBytes(fields[0]) + FieldsBytes(fields[1..])
  }

  function Fixed(m: Manifest): (s: seq<byte>)
    ensures |s| == FIXED_LEN
  {
    (MANIFEST_MAGIC + BigEndian(MANIFEST_VERSION, 2))
    + (m.repository + m.snapshotId)
    + ([AlgorithmTag(m.nativeFormat), 1] + BigEndian(0, 2))
    + (BigEndian(m.importedUnixSecs, 8) + BigEndian(m.summary.objectsSeen, 8) + BigEndian(m.summary.objectsWritten, 8)
       + BigEndian(m.summary.objectsDeduplicated, 8) + BigEndian(m.summary.rawBytes, 8))
    + (BigEndian(|m.toolVersion|, 2) + BigEndian(|m.refs|, 4) + BigEndian(|m.optionalFields|, 4))
  }

  function AllBytes(m: Manifest): seq<byte> {
    Fixed(m) + (m.toolVersion + (RefsBytes(m.refs) + FieldsBytes(m.optionalFields)))
  }

  predicate NamesFit(refs: seq<PersistedRef>) {
    forall i :: 0 <= i < |refs| ==> |refs[i].name| <= U16_MAX
  }

  predicate ValuesFit(fields: seq<OptionalField>) {
    forall i :: 0 <= i < |fields| ==> |fields[i].value| <= OPTIONAL_FIELD_MAX_BYTES
  }

  // A valid manifest may still be unencodable: validation admits a 65536-byte name or tool
  // version, whose length does not fit its two-byte field.
  function Encode(m: Manifest): Result<seq<byte>, ManifestError> {
    if !Valid(m) then Err(ValidationError(m))
    else if |m.toolVersion| > U16_MAX || !NamesFit(m.refs) then Err(LengthOverflow)
    else if |AllBytes(m)| > MAX_MANIFEST_BYTES then Err(Invalid("snapshot manifest exceeds the maximum size"))
    else Ok(AllBytes(m))
  }

  method PushRefs(prefix: seq<byte>, refs: seq<PersistedRef>) returns (r: Result<seq<byte>, ManifestError>)
    ensures r == if NamesFit(refs) then Ok(prefix + RefsBytes(refs)) else Err(LengthOverflow)
  {
    hide RefBytes;
    var bytes := prefix;
    assert refs[0..] == refs;
    for i := 0 to |refs|
      invariant NamesFit(refs[..i])
      invariant bytes + RefsBytes(refs[i..]) == prefix + RefsBytes(refs)
    {
      if |refs[i].name| > U16_MAX {
        return Err(LengthOverflow);
      }
      var next, rest := RefBytes(refs[i]), RefsBytes(refs[i + 1..]);
      assert refs[i..][1..] == refs[i + 1..];
      assert bytes + (next + rest) == bytes + next + rest;
      bytes := bytes + next;
    }
    assert refs[..|refs|] == refs;
    assert bytes + [] == bytes;
    return Ok(bytes);
  }

  method PushFields(prefix: seq<byte>, fields: seq<OptionalField>) returns (bytes: seq<byte>)
    ensures bytes == prefix + FieldsBytes(fields)
  {
    hide FieldBytes;
    bytes := prefix;
    assert fields[0..] == fields;
    for i := 0 to |fields|
      invariant bytes + FieldsBytes(fields[i..]) == prefix + FieldsBytes(fields)
    {
      var next, rest := FieldBytes(fields[i]), FieldsBytes(fields[i + 1..]);
      assert fields[i..][1..] == fields[i + 1..];
      assert bytes + (next + rest) == bytes + next + rest;
      bytes := bytes + next;
    }
    assert bytes + [] == bytes;
  }

  method EncodeManifest(m: Manifest) returns (r: Result<seq<byte>, ManifestError>)
    ensures r == Encode(m)
  {
    hide Fixed, Valid, RefsBytes, FieldsBytes, NamesFit;
    var problem := Validate(m);
    if problem.Some? {
      return Err(NotValid(problem.value));
    }
    if |m.toolVersion| > U16_MAX {
      return Err(LengthOverflow);
    }
    var refs := PushRefs(Fixed(m) + m.toolVersion, m.refs);
    if refs.Err? {
      return refs;
    }
    var bytes := PushFields(refs.value, m.optionalFields);
    assert bytes == AllBytes(m);
    if |bytes| > MAX_MANIFEST_BYTES {
      return Err(Invalid("snapshot manifest exceeds the maximum size"));
    }
    return Ok(bytes);
  }

  // ---------- Decoding ----------

  const TRUNCATED: ManifestError := Invalid("snapshot manifest is truncated")

  function DecodeRef(s: seq<byte>): (r: Result<(PersistedRef, nat), ManifestError>)
    ensures r.Ok? ==> MIN_REF_ENTRY_BYTES <= r.value.1 <= |s|
  {
    if |s| < 1 then Err(TRUNCATED) else
    var kind := RefKindFromTag(s[0]);
    if kind.None? then Err(Invalid("snapshot manifest has an invalid ref kind"))
    else if |s| < 3 then Err(TRUNCATED) else
    var n: nat := 3 + Number(s, 1, 2);
    if |s| < n + 1 then Err(TRUNCATED) else
    var algorithm := AlgorithmFromTag(s[n]);
    if algorithm.None? then Err(Invalid("snapshot manifest has an invalid ref OID algorithm"))
    else if |s| < n + 2 then Err(TRUNCATED)
    else if s[n + 1] != OidLen(algorithm.value) then Err(Invalid("snapshot manifest has an invalid ref OID length"))
    else if |s| < n + 2 + s[n + 1] then Err(TRUNCATED)
    else
      var end: nat := n + 2 + s[n + 1];
      Ok((PersistedRef(s[3..n], kind.value, GitOid(algorithm.value, s[n + 2..end])), end))
  }

  function DecodeRefs(s: seq<byte>, count: nat): Result<(seq<PersistedRef>, nat), ManifestError> {
    if count == 0 then Ok(([], 0))
    else
      var first := DecodeRef(s);
      if first.Err? then Err(first.error)
      else
        var rest := DecodeRefs(s[first.value.1..], count - 1);
        if rest.Err? then rest
        else Ok(([first.value.0] + rest.value.0, first.value.1 + rest.value.1))
  }

  function DecodeField(s: seq<byte>): (r: Result<(OptionalField, nat), ManifestError>)
    ensures r.Ok? ==> MIN_OPTIONAL_FIELD_BYTES <= r.value.1 <= |s|
  {
    if |s| < 6 then Err(TRUNCATED) else
    Pow256Widths();
    var n: nat := Number(s, 2, 4);
    if n > OPTIONAL_FIELD_MAX_BYTES then Err(Invalid("snapshot manifest optional field is too large"))
    else if |s| < 6 + n then Err(TRUNCATED)
    else
      var end: nat := 6 + n;
      Ok((OptionalField(Number(s, 0, 2), s[6..end]), end))
  }

  function DecodeFields(s: seq<byte>, count: nat): Result<(seq<OptionalField>, nat), ManifestError> {
    if count == 0 then Ok(([], 0))
    else
      var first := DecodeField(s);
      if first.Err? then Err(first.error)
      else
        var rest := DecodeFields(s[first.value.1..], count - 1);
        if rest.Err? then rest
        else Ok(([first.value.0] + rest.value.0, first.value.1 + rest.value.1))
  }

  // The checks on the fixed part, in the order the reader meets them.
  function FixedError(b: seq<byte>): Option<ManifestError> {
    if |b| < 8 then Some(TRUNCATED)
    else if b[..8] != MANIFEST_MAGIC then Some(Invalid("snapshot manifest has an invalid magic value"))
    else if |b| < 10 then Some(TRUNCATED)
    else if Number(b, 8, 2) != MANIFEST_VERSION then Pow256Widths(); Some(UnsupportedVersion(Number(b, 8, 2)))
    else if |b| < 43 then Some(TRUNCATED)
    else if AlgorithmFromTag(b[42]).None? then Some(Invalid("snapshot manifest has an invalid native object format"))
    else if |b| < 44 then Some(TRUNCATED)
    else if b[43] != 1 then Some(Invalid("snapshot manifest has an invalid import policy"))
    else if |b| < 46 then Some(TRUNCATED)
    else if Number(b, 44, 2) != 0 then Some(Invalid("snapshot manifest has non-zero required reserved bytes"))
    else if |b| < FIXED_LEN then Some(TRUNCATED)
    else None
  }

  function FromParts(b: seq<byte>, tool: seq<byte>, refs: seq<PersistedRef>, fields: seq<OptionalField>): Manifest
    requires FixedError(b).None?
  {
    Pow256Widths();
    Manifest(b[10..26], b[26..42], AlgorithmFromTag(b[42]).value, refs,
             ImportSummary(Number(b, 54, 8), Number(b, 62, 8), Number(b, 70, 8), Number(b, 78, 8)),
             Number(b, 46, 8), tool, fields)
  }

  function Decode(b: seq<byte>): Result<Manifest, ManifestError> {
    if |b| > MAX_MANIFEST_BYTES then Err(Invalid("snapshot manifest exceeds the maximum size"))
    else if FixedError(b).Some? then Err(FixedError(b).value) else
    var body := FIXED_LEN + Number(b, 86, 2);
    var refCount, fieldCount := Number(b, 88, 4), Number(b, 92, 4);
    if |b| < body then Err(TRUNCATED)
    else if refCount > (|b| - body) / MIN_REF_ENTRY_BYTES
    then Err(Invalid("snapshot manifest ref count exceeds remaining input")) else
    DecodeRefsSpan(b[body..], refCount);
    var refs := DecodeRefs(b[body..], refCount);
    if refs.Err? then Err(refs.error) else
    var tail := b[body..][refs.value.1..];
    if fieldCount > |tail| / MIN_OPTIONAL_FIELD_BYTES
    then Err(Invalid("snapshot manifest optional field count exceeds remaining input")) else
    var fields := DecodeFields(tail, fieldCount);
    if fields.Err? then Err(fields.error)
    else if fields.value.1 != |tail| then Err(Invalid("snapshot manifest has trailing bytes"))
    else
      var m := FromParts(b, b[FIXED_LEN..body], refs.value.0, fields.value.0);
      if Valid(m) then Ok(m) else Err(ValidationError(m))
  }

  lemma {:induction false} DecodeRefsSpan(s: seq<byte>, count: nat)
    ensures DecodeRefs(s, count).Ok? ==>
              |DecodeRefs(s, count).value.0| == count && DecodeRefs(s, count).value.1 <= |s|
    decreases count
  {
    hide DecodeRef;
    if count > 0 && DecodeRef(s).Ok? {
      DecodeRefsSpan(s[DecodeRef(s).value.1..], count - 1);
    }
  }

  // ---------- One entry ----------

  lemma RefRoundTrip(r: PersistedRef, tail: seq<byte>)
    requires |r.name| <= U16_MAX
    ensures DecodeRef(RefBytes(r) + tail) == Ok((r, |RefBytes(r)|))
  {
    hide BigEndian, FromBigEndian, Pow256;
    var s, n := RefBytes(r) + tail, 3 + |r.name|;
    RefSlices(r, tail);
    Pow256Widths();
    DecodeBigEndian(|r.name|, 2);
  }

  lemma RefSlices(r: PersistedRef, tail: seq<byte>)
    ensures var s, n, k := RefBytes(r) + tail, 3 + |r.name|, |r.target.bytes|;
            && |RefBytes(r)| == n + 2 + k && s[0] == RefKindTag(r.kind) && s[1..3] == BigEndian(|r.name|, 2)
            && s[3..n] == r.name && s[n] == AlgorithmTag(r.target.algorithm) && s[n + 1] == OidLen(r.target.algorithm)
            && s[n + 2..n + 2 + k] == r.target.bytes
  {
    hide BigEndian;
    var s, n := RefBytes(r) + tail, 3 + |r.name|;
    var head := [RefKindTag(r.kind)] + BigEndian(|r.name|, 2);
    var oid := [AlgorithmTag(r.target.algorithm), OidLen(r.target.algorithm)] + r.target.bytes;
    assert s == head + (r.name + (oid + tail));
    assert s[..3] == head && s[1..3] == head[1..3];
    assert s[3..n] == r.name && s[n..n + |oid|] == oid;
    assert s[n] == oid[0] && s[n + 1] == oid[1] && s[n + 2..n + |oid|] == oid[2..];
  }

  lemma RefCanonical(s: seq<byte>)
    requires DecodeRef(s).Ok?
    ensures var (r, k) := DecodeRef(s).value; s[..k] == RefBytes(r) && |r.name| <= U16_MAX
  {
    var (r, k) := DecodeRef(s).value;
    Pow256Widths();
    EncodeBigEndian(s[1..3]);
    var n := 3 + |r.name|;
    assert s[..3] == [s[0]] + s[1..3];
    assert s[n..k] == [s[n], s[n + 1]] + s[n + 2..k];
    assert s[..k] == s[..3] + s[3..n] + s[n..k];
  }

  lemma FieldRoundTrip(f: OptionalField, tail: seq<byte>)
    requires |f.value| <= OPTIONAL_FIELD_MAX_BYTES
    ensures DecodeField(FieldBytes(f) + tail) == Ok((f, |FieldBytes(f)|))
  {
    var s := FieldBytes(f) + tail;
    var head := BigEndian(f.tag, 2) + BigEndian(|f.value|, 4);
    assert s[..6] == head && s[0..2] == head[..2] && s[2..6] == head[2..6];
    Pow256Widths();
    DecodeBigEndian(f.tag, 2);
    DecodeBigEndian(|f.value|, 4);
    assert s[6..6 + |f.value|] == f.value;
  }

  lemma FieldLength(f: OptionalField)
    ensures |FieldBytes(f)| == 6 + |f.value|
  {
  }

  lemma FieldCanonical(s: seq<byte>)
    requires DecodeField(s).Ok?
    ensures var (f, k) := DecodeField(s).value; s[..k] == FieldBytes(f) && |f.value| <= OPTIONAL_FIELD_MAX_BYTES
  {
    var (f, k) := DecodeField(s).value;
    EncodeBigEndian(s[0..2]);
    EncodeBigEndian(s[2..6]);
    assert s[..k] == (s[0..2] + s[2..6]) + s[6..k];
  }

  // ---------- Sequences of entries ----------

  lemma {:induction false} RefsRoundTrip(refs: seq<PersistedRef>, tail: seq<byte>)
    requires NamesFit(refs)
    ensures DecodeRefs(RefsBytes(refs) + tail, |refs|) == Ok((refs, |RefsBytes(refs)|))
  {
    hide DecodeRef, RefBytes;
    if refs != [] {
      var first, rest := RefBytes(refs[0]), RefsBytes(refs[1..]);
      Regroup(first, rest, tail);
      RefRoundTrip(refs[0], rest + tail);
      RefsRoundTrip(refs[1..], tail);
      assert refs == [refs[0]] + refs[1..];
    }
  }

  lemma Regroup(a: seq<byte>, b: seq<byte>, c: seq<byte>)
    ensures (a + b) + c == a + (b + c) && ((a + b) + c)[|a|..] == b + c
  {
  }

  lemma {:induction false} RefsLength(refs: seq<PersistedRef>)
    ensures |RefsBytes(refs)| >= MIN_REF_ENTRY_BYTES * |refs|
  {
    hide RefBytes;
    if refs != [] {
      RefSlices(refs[0], []);
      RefsLength(refs[1..]);
    }
  }

  lemma {:induction false} RefsCanonical(s: seq<byte>, count: nat)
    requires DecodeRefs(s, count).Ok?
    ensures var (refs, k) := DecodeRefs(s, count).value;
            |refs| == count && k <= |s| && s[..k] == RefsBytes(refs) && NamesFit(refs)
    decreases count
  {
    hide DecodeRef, RefBytes;
    if count > 0 {
      var (first, k) := DecodeRef(s).value;
      RefCanonical(s);
      RefsCanonical(s[k..], count - 1);
      var (rest, j) := DecodeRefs(s[k..], count - 1).value;
      assert ([first] + rest)[1..] == rest;
      assert s[..k + j] == s[..k] + s[k..][..j];
    }
  }

  lemma {:induction false} FieldsRoundTrip(fields: seq<OptionalField>, tail: seq<byte>)
    requires ValuesFit(fields)
    ensures DecodeFields(FieldsBytes(fields) + tail, |fields|) == Ok((fields, |FieldsBytes(fields)|))
  {
    hide DecodeField, FieldBytes;
    if fields != [] {
      var first, rest := FieldBytes(fields[0]), FieldsBytes(fields[1..]);
      Regroup(first, rest, tail);
      FieldRoundTrip(fields[0], rest + tail);
      FieldsRoundTrip(fields[1..], tail);
      assert fields == [fields[0]] + fields[1..];
    }
  }

  lemma {:induction false} FieldsLength(fields: seq<OptionalField>)
    ensures |FieldsBytes(fields)| >= MIN_OPTIONAL_FIELD_BYTES * |fields|
  {
    hide FieldBytes;
    if fields != [] {
      FieldLength(fields[0]);
      FieldsLength(fields[1..]);
    }
  }

  lemma {:induction false} FieldsCanonical(s: seq<byte>, count: nat)
    requires DecodeFields(s, count).Ok?
    ensures var (fields, k) := DecodeFields(s, count).value;
            |fields| == count && k <= |s| && s[..k] == FieldsBytes(fields) && ValuesFit(fields)
    decreases count
  {
    hide DecodeField, FieldBytes;
    if count > 0 {
      var (first, k) := DecodeField(s).value;
      FieldCanonical(s);
      FieldsCanonical(s[k..], count - 1);
      var (rest, j) := DecodeFields(s[k..], count - 1).value;
      assert ([first] + rest)[1..] == rest;
      assert s[..k + j] == s[..k] + s[k..][..j];
    }
  }

  // ---------- The fixed part ----------

  lemma FixedSlices(m: Manifest)
    ensures var f := Fixed(m);
            && f[..8] == MANIFEST_MAGIC && f[8..10] == BigEndian(MANIFEST_VERSION, 2)
            && f[10..26] == m.repository && f[26..42] == m.snapshotId
            && f[42] == AlgorithmTag(m.nativeFormat) && f[43] == 1 && f[44..46] == BigEndian(0, 2)
            && f[46..54] == BigEndian(m.importedUnixSecs, 8) && f[54..62] == BigEndian(m.summary.objectsSeen, 8)
            && f[62..70] == BigEndian(m.summary.objectsWritten, 8)
            && f[70..78] == BigEndian(m.summary.objectsDeduplicated, 8) && f[78..86] == BigEndian(m.summary.rawBytes, 8)
            && f[86..88] == BigEndian(|m.toolVersion|, 2) && f[88..92] == BigEndian(|m.refs|, 4)
            && f[92..96] == BigEndian(|m.optionalFields|, 4)
  {
    hide BigEndian;
    var f := Fixed(m);
    var a := MANIFEST_MAGIC + BigEndian(MANIFEST_VERSION, 2);
    var c := [AlgorithmTag(m.nativeFormat), 1] + BigEndian(0, 2);
    var d := BigEndian(m.importedUnixSecs, 8) + BigEndian(m.summary.objectsSeen, 8)
             + BigEndian(m.summary.objectsWritten, 8) + BigEndian(m.summary.objectsDeduplicated, 8)
             + BigEndian(m.summary.rawBytes, 8);
    var e := BigEndian(|m.toolVersion|, 2) + BigEndian(|m.refs|, 4) + BigEndian(|m.optionalFields|, 4);
    assert f[..10] == a && f[10..42] == m.repository + m.snapshotId && f[42..46] == c && f[46..86] == d && f[86..96] == e;
    assert f[..8] == a[..8] && f[8..10] == a[8..10];
    assert f[10..26] == f[10..42][..16] && f[26..42] == f[10..42][16..];
    assert f[42] == c[0] && f[43] == c[1] && f[44..46] == c[2..4];
    assert f[46..54] == d[..8] && f[54..62] == d[8..16] && f[62..70] == d[16..24];
    assert f[70..78] == d[24..32] && f[78..86] == d[32..40];
    assert f[86..88] == e[..2] && f[88..92] == e[2..6] && f[92..96] == e[6..10];
  }

  // A string that starts with a manifest's fixed part reads back its fields.
  lemma FixedReads(m: Manifest, b: seq<byte>)
    requires Fixed(m) <= b
    requires |m.toolVersion| <= U16_MAX && |m.refs| <= U32_MAX && |m.optionalFields| <= U32_MAX
    ensures FixedError(b).None?
    ensures FromParts(b, m.toolVersion, m.refs, m.optionalFields) == m
    ensures Number(b, 86, 2) == |m.toolVersion| && Number(b, 88, 4) == |m.refs|
    ensures Number(b, 92, 4) == |m.optionalFields|
  {
    hide BigEndian, Fixed;
    FixedSlices(m);
    Pow256Widths();
    DecodeBigEndian(MANIFEST_VERSION, 2);
    DecodeBigEndian(0, 2);
    DecodeBigEndian(m.importedUnixSecs, 8);
    DecodeBigEndian(m.summary.objectsSeen, 8);
    DecodeBigEndian(m.summary.objectsWritten, 8);
    DecodeBigEndian(m.summary.objectsDeduplicated, 8);
    DecodeBigEndian(m.summary.rawBytes, 8);
    DecodeBigEndian(|m.toolVersion|, 2);
    DecodeBigEndian(|m.refs|, 4);
    DecodeBigEndian(|m.optionalFields|, 4);
    var f := Fixed(m);
    assert forall lo, hi :: 0 <= lo <= hi <= FIXED_LEN ==> b[lo..hi] == f[lo..hi];
  }

  lemma FixedAssembles(b: seq<byte>, m: Manifest)
    requires FixedError(b).None?
    requires m == FromParts(b, m.toolVersion, m.refs, m.optionalFields)
    requires |m.toolVersion| == Number(b, 86, 2) && |m.refs| == Number(b, 88, 4) && |m.optionalFields| == Number(b, 92, 4)
    ensures b[..FIXED_LEN] == Fixed(m)
  {
    hide BigEndian;
    EncodeBigEndian(b[8..10]);
    EncodeBigEndian(b[44..46]);
    EncodeBigEndian(b[46..54]);
    EncodeBigEndian(b[54..62]);
    EncodeBigEndian(b[62..70]);
    EncodeBigEndian(b[70..78]);
    EncodeBigEndian(b[78..86]);
    EncodeBigEndian(b[86..88]);
    EncodeBigEndian(b[88..92]);
    EncodeBigEndian(b[92..96]);
    FixedPieces(b);
  }

  lemma FixedPieces(b: seq<byte>)
    requires FIXED_LEN <= |b|
    ensures b[..FIXED_LEN] == (b[..8] + b[8..10]) + (b[10..26] + b[26..42]) + ([b[42], b[43]] + b[44..46])
        + (b[46..54] + b[54..62] + b[62..70] + b[70..78] + b[78..86]) + (b[86..88] + b[88..92] + b[92..96])
  {
  }

  // ---------- The codec is canonical ----------

  lemma DecodeUndoesEncode(m: Manifest)
    requires Encode(m).Ok?
    ensures Decode(Encode(m).value) == Ok(m)
  {
    hide Fixed, Valid, DecodeRefs, DecodeFields, RefsBytes, FieldsBytes, FromParts, FixedError;
    var b := AllBytes(m);
    var body := FIXED_LEN + |m.toolVersion|;
    ValidFits(m);
    FixedReads(m, b);
    assert b[FIXED_LEN..body] == m.toolVersion;
    assert b[body..] == RefsBytes(m.refs) + FieldsBytes(m.optionalFields);
    RefsRoundTrip(m.refs, FieldsBytes(m.optionalFields));
    RefsLength(m.refs);
    FieldsLength(m.optionalFields);
    var tail := b[body..][|RefsBytes(m.refs)|..];
    assert tail == FieldsBytes(m.optionalFields) + [];
    FieldsRoundTrip(m.optionalFields, []);
    assert FieldsBytes(m.optionalFields) + [] == FieldsBytes(m.optionalFields);
  }

  lemma ValidFits(m: Manifest)
    requires Valid(m)
    ensures |m.refs| <= U32_MAX && |m.optionalFields| <= U32_MAX && ValuesFit(m.optionalFields)
  {
    assert forall i :: 0 <= i < |m.optionalFields| ==> ValidField(m.optionalFields[i]);
  }

  lemma EncodeUndoesDecode(b: seq<byte>)
    requires Decode(b).Ok?
    ensures Encode(Decode(b).value) == Ok(b)
  {
    hide Fixed, Valid, DecodeRefs, DecodeFields, RefsBytes, FieldsBytes, FixedError;
    var m := Decode(b).value;
    var body := FIXED_LEN + Number(b, 86, 2);
    RefsCanonical(b[body..], Number(b, 88, 4));
    var k := DecodeRefs(b[body..], Number(b, 88, 4)).value.1;
    var tail := b[body..][k..];
    FieldsCanonical(tail, Number(b, 92, 4));
    assert tail[..|tail|] == tail;
    FixedAssembles(b, m);
    assert b == b[..FIXED_LEN] + (b[FIXED_LEN..body] + (b[body..][..k] + tail));
    Pow256Widths();
  }

  // ---------- Manifests that are valid but too long ----------

  function RefsSize(refs: seq<PersistedRef>): nat {
    if refs == [] then 0 else 5 + |refs[0].name| + |refs[0].target.bytes| + RefsSize(refs[1..])
  }

  function FieldsSize(fields: seq<OptionalField>): nat {
    if fields == [] then 0 else 6 + |fields[0].value| + FieldsSize(fields[1..])
  }

  function EncodedSize(m: Manifest): nat {
    FIXED_LEN + |m.toolVersion| + RefsSize(m.refs) + FieldsSize(m.optionalFields)
  }

  lemma {:induction false} RefsSizeIsLength(refs: seq<PersistedRef>)
    ensures |RefsBytes(refs)| == RefsSize(refs)
  {
    if refs != [] {
      RefsSizeIsLength(refs[1..]);
    }
  }

  lemma {:induction false} FieldsSizeIsLength(fields: seq<OptionalField>)
    ensures |FieldsBytes(fields)| == FieldsSize(fields)
  {
    if fields != [] {
      FieldsSizeIsLength(fields[1..]);
    }
  }

  lemma SizeIsLength(m: Manifest)
    ensures |AllBytes(m)| == EncodedSize(m)
  {
    RefsSizeIsLength(m.refs);
    FieldsSizeIsLength(m.optionalFields);
  }

  predicate TooLong(m: Manifest) {
    || |m.toolVersion| == 65536
    || (exists i :: 0 <= i < |m.refs| && |m.refs[i].name| == 65536)
    || EncodedSize(m) > MAX_MANIFEST_BYTES
  }

  // Validation admits one byte more than a two-byte length can hold, and knows no total: exactly
  // these valid manifests cannot be encoded.
  lemma UnencodableExactly(m: Manifest)
    requires Valid(m)
    ensures Encode(m).Err? <==> TooLong(m)
  {
    hide AllBytes, EncodedSize;
    SizeIsLength(m);
    forall i | 0 <= i < |m.refs|
      ensures |m.refs[i].name| <= 65536
    {
      assert ValidRef(m, m.refs[i]);
    }
  }

  // An empty manifest but for a tool version of the longest accepted length.
  function LongestVersion(repository: Id16, snapshotId: Id16): Manifest {
    Manifest(repository, snapshotId, Sha1, [], ImportSummary(0, 0, 0, 0), 0, Zeros(65536), [])
  }

  lemma LongestVersionUnencodable(repository: Id16, snapshotId: Id16)
    ensures var m := LongestVersion(repository, snapshotId); Valid(m) && Encode(m) == Err(LengthOverflow)
  {
  }
}
