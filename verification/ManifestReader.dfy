/** The snapshot manifest decoder as it runs: a reader that advances an offset (crates/reflink-forest-import). */
module ManifestReader {
  import opened Bytes
  import opened Core
  import opened SnapshotManifest

  class Reader {
    const bytes: seq<byte>
    var offset: nat

    constructor (bytes: seq<byte>)
      ensures this.bytes == bytes && offset == 0 && InBounds()
    {
      this.bytes, offset := bytes, 0;
    }

    predicate InBounds()
      reads this
    {
      offset <= |bytes|
    }

    function Rest(): seq<byte>
      requires InBounds()
      reads this
    {
      bytes[offset..]
    }

    method Take(length: nat) returns (r: Result<seq<byte>, ManifestError>)
      requires InBounds()
      modifies this`offset
      ensures InBounds()
      ensures r.Ok? <==> length <= |old(Rest())|
      ensures r.Ok? ==> r.value == old(Rest())[..length] && Rest() == old(Rest())[length..] && offset == old(offset) + length
      ensures r.Err? ==> r.error == TRUNCATED && offset == old(offset)
    {
      if offset + length > |bytes| {
        return Err(TRUNCATED);
      }
      r := Ok(bytes[offset..offset + length]);
      offset := offset + length;
    }

    // A big-endian integer of `width` bytes.
    method Integer(width: nat) returns (r: Result<nat, ManifestError>)
      requires InBounds()
      modifies this`offset
      ensures InBounds()
      ensures r.Ok? <==> width <= |old(Rest())|
      ensures r.Ok? ==> r.value == Number(old(Rest()), 0, width) && Rest() == old(Rest())[width..] && offset == old(offset) + width
      ensures r.Err? ==> r.error == TRUNCATED && offset == old(offset)
    {
      var taken := Take(width);
      if taken.Err? {
        return Err(taken.error);
      }
      return Ok(FromBigEndian(taken.value));
    }

    method Byte() returns (r: Result<byte, ManifestError>)
      requires InBounds()
      modifies this`offset
      ensures InBounds()
      ensures r.Ok? <==> 1 <= |old(Rest())|
      ensures r.Ok? ==> r.value == old(Rest())[0] && Rest() == old(Rest())[1..] && offset == old(offset) + 1
      ensures r.Err? ==> r.error == TRUNCATED && offset == old(offset)
    {
      var taken := Take(1);
      if taken.Err? {
        return Err(taken.error);
      }
      return Ok(taken.value[0]);
    }
  }

  lemma DropDrop(s: seq<byte>, a: nat, b: nat)
    requires a + b <= |s|
    ensures s[a..][b..] == s[a + b..]
  {
  }

  // ---------- One entry ----------

  // An object ID with its algorithm and length in front.
  ghost function OidOf(t: seq<byte>): Result<(Oid, nat), ManifestError> {
    if |t| < 1 then Err(TRUNCATED) else
    var algorithm := AlgorithmFromTag(t[0]);
    if algorithm.None? then Err(Invalid("snapshot manifest has an invalid ref OID algorithm"))
    else if |t| < 2 then Err(TRUNCATED)
    else if t[1] != OidLen(algorithm.value) then Err(Invalid("snapshot manifest has an invalid ref OID length"))
    else if |t| < 2 + t[1] then Err(TRUNCATED)
    else
      var end: nat := 2 + t[1];
      var oid: Oid := GitOid(algorithm.value, t[2..end]);
      Ok((oid, end))
  }

  lemma RefStartsBadly(s: seq<byte>)
    ensures |s| < 1 ==> DecodeRef(s) == Err(TRUNCATED)
    ensures |s| >= 1 && RefKindFromTag(s[0]).None? ==> DecodeRef(s) == Err(Invalid("snapshot manifest has an invalid ref kind"))
    ensures |s| >= 1 && RefKindFromTag(s[0]).Some? && (|s| < 3 || |s| < 3 + Number(s, 1, 2)) ==> DecodeRef(s) == Err(TRUNCATED)
  {
    hide FromBigEndian;
  }

  lemma RefIsNameThenOid(s: seq<byte>)
    requires |s| >= 3 && RefKindFromTag(s[0]).Some? && 3 + Number(s, 1, 2) <= |s|
    ensures var n: nat := 3 + Number(s, 1, 2);
            var oid := OidOf(s[n..]);
            DecodeRef(s) == if oid.Err? then Err(oid.error)
                            else Ok((PersistedRef(s[3..n], RefKindFromTag(s[0]).value, oid.value.0), n + oid.value.1))
  {
    hide FromBigEndian;
    var n: nat := 3 + Number(s, 1, 2);
    var t := s[n..];
    assert |t| >= 1 ==> t[0] == s[n];
    assert |t| >= 2 ==> t[1] == s[n + 1];
    if |t| >= 2 {
      var length: nat := t[1];
      var end: nat := 2 + length;
      assert |t| >= end ==> t[2..end] == s[n + 2..n + end];
    }
  }

  method ReadOid(reader: Reader) returns (r: Result<Oid, ManifestError>)
    requires reader.InBounds()
    modifies reader`offset
    ensures reader.InBounds()
    ensures r.Err? ==> OidOf(old(reader.Rest())) == Err(r.error)
    ensures r.Ok? ==>
              && OidOf(old(reader.Rest())).Ok? && r.value == OidOf(old(reader.Rest())).value.0
              && OidOf(old(reader.Rest())).value.1 <= |old(reader.Rest())|
              && reader.Rest() == old(reader.Rest())[OidOf(old(reader.Rest())).value.1..]
  {
    ghost var t := reader.Rest();
    var tag := reader.Byte();
    if tag.Err? {
      return Err(tag.error);
    }
    var algorithm := AlgorithmFromTag(tag.value);
    if algorithm.None? {
      return Err(Invalid("snapshot manifest has an invalid ref OID algorithm"));
    }
    var length := reader.Byte();
    if length.Err? {
      return Err(length.error);
    }
    if length.value != OidLen(algorithm.value) {
      return Err(Invalid("snapshot manifest has an invalid ref OID length"));
    }
    DropDrop(t, 1, 1);
    var target := reader.Take(length.value);
    if target.Err? {
      return Err(target.error);
    }
    DropDrop(t, 2, length.value);
    assert target.value == t[2..2 + length.value];
    return Ok(GitOid(algorithm.value, target.value));
  }

  method ReadRef(reader: Reader) returns (r: Result<PersistedRef, ManifestError>)
    requires reader.InBounds()
    modifies reader`offset
    ensures reader.InBounds()
    ensures r.Err? ==> DecodeRef(old(reader.Rest())) == Err(r.error)
    ensures r.Ok? ==>
              && DecodeRef(old(reader.Rest())).Ok? && r.value == DecodeRef(old(reader.Rest())).value.0
              && reader.Rest() == old(reader.Rest())[DecodeRef(old(reader.Rest())).value.1..]
  {
    hide FromBigEndian, Pow256, OidOf, DecodeRef, RefKindFromTag;
    ghost var s := reader.Rest();
    RefStartsBadly(s);
    var tag := reader.Byte();
    if tag.Err? {
      return Err(tag.error);
    }
    var kind := RefKindFromTag(tag.value);
    if kind.None? {
      return Err(Invalid("snapshot manifest has an invalid ref kind"));
    }
    var length := reader.Integer(2);
    if length.Err? {
      return Err(length.error);
    }
    assert s[1..][0..2] == s[1..3];
    DropDrop(s, 1, 2);
    var name := reader.Take(length.value);
    if name.Err? {
      return Err(name.error);
    }
    ghost var n := 3 + length.value;
    DropDrop(s, 3, length.value);
    assert name.value == s[3..n];
    RefIsNameThenOid(s);
    var target := ReadOid(reader);
    if target.Err? {
      return Err(target.error);
    }
    DropDrop(s, n, OidOf(s[n..]).value.1);
    return Ok(PersistedRef(name.value, kind.value, target.value));
  }

  method ReadField(reader: Reader) returns (r: Result<OptionalField, ManifestError>)
    requires reader.InBounds()
    modifies reader`offset
    ensures reader.InBounds()
    ensures r.Err? ==> DecodeField(old(reader.Rest())) == Err(r.error)
    ensures r.Ok? ==>
              && DecodeField(old(reader.Rest())).Ok? && r.value == DecodeField(old(reader.Rest())).value.0
              && reader.Rest() == old(reader.Rest())[DecodeField(old(reader.Rest())).value.1..]
  {
    hide FromBigEndian, Pow256;
    ghost var s := reader.Rest();
    Pow256Widths();
    var tag := reader.Integer(2);
    if tag.Err? {
      return Err(tag.error);
    }
    var length := reader.Integer(4);
    if length.Err? {
      return Err(length.error);
    }
    assert s[2..][0..4] == s[2..6];
    DropDrop(s, 2, 4);
    if length.value > OPTIONAL_FIELD_MAX_BYTES {
      return Err(Invalid("snapshot manifest optional field is too large"));
    }
    var value := reader.Take(length.value);
    if value.Err? {
      return Err(value.error);
    }
    DropDrop(s, 6, length.value);
    assert value.value == s[6..6 + length.value];
    return Ok(OptionalField(tag.value, value.value));
  }

  // ---------- Lists ----------

  // The outcome of a list whose first entries, `done` over `used` bytes, have been read.
  ghost function Resumed<T>(done: seq<T>, used: nat, rest: Result<(seq<T>, nat), ManifestError>): Result<(seq<T>, nat), ManifestError> {
    if rest.Err? then rest else Ok((done + rest.value.0, used + rest.value.1))
  }

  lemma ResumeOne<T>(done: seq<T>, used: nat, first: T, n: nat, rest: Result<(seq<T>, nat), ManifestError>)
    ensures Resumed(done, used, Resumed([first], n, rest)) == Resumed(done + [first], used + n, rest)
  {
    if rest.Ok? {
      assert done + ([first] + rest.value.0) == done + [first] + rest.value.0;
    }
  }

  lemma ResumeNone<T>(rest: Result<(seq<T>, nat), ManifestError>)
    ensures Resumed([], 0, rest) == rest
  {
    if rest.Ok? {
      assert [] + rest.value.0 == rest.value.0;
    }
  }

  method ReadRefs(reader: Reader, count: nat) returns (r: Result<seq<PersistedRef>, ManifestError>)
    requires reader.InBounds()
    modifies reader`offset
    ensures reader.InBounds()
    ensures r.Err? ==> DecodeRefs(old(reader.Rest()), count) == Err(r.error)
    ensures r.Ok? ==>
              && DecodeRefs(old(reader.Rest()), count).Ok? && r.value == DecodeRefs(old(reader.Rest()), count).value.0
              && DecodeRefs(old(reader.Rest()), count).value.1 <= |old(reader.Rest())|
              && reader.Rest() == old(reader.Rest())[DecodeRefs(old(reader.Rest()), count).value.1..]
  {
    hide DecodeRef;
    ghost var s := reader.Rest();
    ghost var whole := DecodeRefs(s, count);
    ghost var used: nat := 0;
    ResumeNone(whole);
    var refs: seq<PersistedRef> := [];
    for i := 0 to count
      invariant reader.InBounds() && used <= |s| && reader.Rest() == s[used..]
      invariant whole == Resumed(refs, used, DecodeRefs(reader.Rest(), count - i))
    {
      ghost var before := reader.Rest();
      var one := ReadRef(reader);
      if one.Err? {
        return Err(one.error);
      }
      ghost var n := DecodeRef(before).value.1;
      ResumeOne(refs, used, one.value, n, DecodeRefs(reader.Rest(), count - i - 1));
      DropDrop(s, used, n);
      refs, used := refs + [one.value], used + n;
    }
    assert refs + [] == refs;
    return Ok(refs);
  }

  method ReadFields(reader: Reader, count: nat) returns (r: Result<seq<OptionalField>, ManifestError>)
    requires reader.InBounds()
    modifies reader`offset
    ensures reader.InBounds()
    ensures r.Err? ==> DecodeFields(old(reader.Rest()), count) == Err(r.error)
    ensures r.Ok? ==>
              && DecodeFields(old(reader.Rest()), count).Ok? && r.value == DecodeFields(old(reader.Rest()), count).value.0
              && DecodeFields(old(reader.Rest()), count).value.1 <= |old(reader.Rest())|
              && reader.Rest() == old(reader.Rest())[DecodeFields(old(reader.Rest()), count).value.1..]
  {
    hide DecodeField;
    ghost var s := reader.Rest();
    ghost var whole := DecodeFields(s, count);
    ghost var used: nat := 0;
    ResumeNone(whole);
    var fields: seq<OptionalField> := [];
    for i := 0 to count
      invariant reader.InBounds() && used <= |s| && reader.Rest() == s[used..]
      invariant whole == Resumed(fields, used, DecodeFields(reader.Rest(), count - i))
    {
      ghost var before := reader.Rest();
      var one := ReadField(reader);
      if one.Err? {
        return Err(one.error);
      }
      ghost var n := DecodeField(before).value.1;
      ResumeOne(fields, used, one.value, n, DecodeFields(reader.Rest(), count - i - 1));
      DropDrop(s, used, n);
      fields, used := fields + [one.value], used + n;
    }
    assert fields + [] == fields;
    return Ok(fields);
  }

  // ---------- The whole manifest ----------

  // Reads one integer of a known field, at a fixed place in the input.
  method Field(reader: Reader, width: nat) returns (r: Result<nat, ManifestError>)
    requires reader.InBounds()
    modifies reader`offset
    ensures reader.InBounds()
    ensures r.Ok? <==> old(reader.offset) + width <= |reader.bytes|
    ensures r.Ok? ==> r.value == Number(reader.bytes, old(reader.offset), width) && reader.offset == old(reader.offset) + width
    ensures r.Err? ==> r.error == TRUNCATED
  {
    hide FromBigEndian;
    ghost var at := reader.offset;
    r := reader.Integer(width);
    if r.Ok? {
      assert reader.bytes[at..][0..width] == reader.bytes[at..at + width];
    }
  }

  datatype Preamble = Preamble(repository: Id16, snapshotId: Id16, format: HashAlgorithm)

  // The magic, the version and the two identities.
  method ReadIdentity(reader: Reader) returns (r: Result<(Id16, Id16), ManifestError>)
    requires reader.offset == 0 && reader.InBounds()
    modifies reader`offset
    ensures reader.InBounds()
    ensures r.Err? ==> FixedError(reader.bytes) == Some(r.error)
    ensures r.Ok? ==>
              && reader.offset == 42 && reader.bytes[..8] == MANIFEST_MAGIC && Number(reader.bytes, 8, 2) == MANIFEST_VERSION
              && r.value.0 == reader.bytes[10..26] && r.value.1 == reader.bytes[26..42]
  {
    hide FromBigEndian, Pow256;
    Pow256Widths();
    var magic := reader.Take(8);
    if magic.Err? {
      return Err(magic.error);
    }
    assert reader.bytes[0..][..8] == reader.bytes[..8];
    if magic.value != MANIFEST_MAGIC {
      return Err(Invalid("snapshot manifest has an invalid magic value"));
    }
    var version := Field(reader, 2);
    if version.Err? {
      return Err(version.error);
    }
    if version.value != MANIFEST_VERSION {
      return Err(UnsupportedVersion(version.value));
    }
    var repository := reader.Take(16);
    if repository.Err? {
      return Err(repository.error);
    }
    assert reader.bytes[10..][..16] == reader.bytes[10..26];
    var snapshot := reader.Take(16);
    if snapshot.Err? {
      return Err(snapshot.error);
    }
    assert reader.bytes[26..][..16] == reader.bytes[26..42];
    return Ok((repository.value, snapshot.value));
  }

  // Everything up to the reserved bytes.
  method ReadPreamble(reader: Reader) returns (r: Result<Preamble, ManifestError>)
    requires reader.offset == 0 && reader.InBounds()
    modifies reader`offset
    ensures reader.InBounds()
    ensures r.Err? ==> FixedError(reader.bytes) == Some(r.error)
    ensures r.Ok? ==>
              && reader.offset == 46 && (|reader.bytes| >= FIXED_LEN ==> FixedError(reader.bytes).None?)
              && (|reader.bytes| < FIXED_LEN ==> FixedError(reader.bytes) == Some(TRUNCATED))
              && r.value.repository == reader.bytes[10..26] && r.value.snapshotId == reader.bytes[26..42]
              && AlgorithmFromTag(reader.bytes[42]) == Some(r.value.format)
  {
    hide Number;
    var identity := ReadIdentity(reader);
    if identity.Err? {
      return Err(identity.error);
    }
    var format := ReadOptions(reader);
    if format.Err? {
      return Err(format.error);
    }
    return Ok(Preamble(identity.value.0, identity.value.1, format.value));
  }

  // The object format, the import policy and the reserved bytes.
  method ReadOptions(reader: Reader) returns (r: Result<HashAlgorithm, ManifestError>)
    requires reader.offset == 42 && reader.InBounds()
    modifies reader`offset
    ensures reader.InBounds()
    ensures reader.bytes[..8] == MANIFEST_MAGIC && Number(reader.bytes, 8, 2) == MANIFEST_VERSION && r.Err? ==>
              FixedError(reader.bytes) == Some(r.error)
    ensures r.Ok? ==>
              && reader.offset == 46 && AlgorithmFromTag(reader.bytes[42]) == Some(r.value) && reader.bytes[43] == 1
              && Number(reader.bytes, 44, 2) == 0
  {
    hide Number;
    var format := reader.Byte();
    if format.Err? {
      return Err(format.error);
    }
    var algorithm := AlgorithmFromTag(format.value);
    if algorithm.None? {
      return Err(Invalid("snapshot manifest has an invalid native object format"));
    }
    var policy := reader.Byte();
    if policy.Err? {
      return Err(policy.error);
    }
    if policy.value != 1 {
      return Err(Invalid("snapshot manifest has an invalid import policy"));
    }
    var reserved := Field(reader, 2);
    if reserved.Err? {
      return Err(reserved.error);
    }
    if reserved.value != 0 {
      return Err(Invalid("snapshot manifest has non-zero required reserved bytes"));
    }
    return Ok(algorithm.value);
  }

  datatype Numbers = Numbers(time: u64, summary: ImportSummary, toolLength: nat, refCount: nat, fieldCount: nat)

  // The time, the counters and the three lengths.
  method ReadNumbers(reader: Reader) returns (r: Result<Numbers, ManifestError>)
    requires reader.offset == 46 && reader.InBounds()
    modifies reader`offset
    ensures reader.InBounds()
    ensures r.Ok? <==> FIXED_LEN <= |reader.bytes|
    ensures r.Err? ==> r.error == TRUNCATED
    ensures r.Ok? ==>
              && reader.offset == FIXED_LEN
              && r.value.time == Number(reader.bytes, 46, 8)
              && r.value.summary.objectsSeen == Number(reader.bytes, 54, 8)
              && r.value.summary.objectsWritten == Number(reader.bytes, 62, 8)
              && r.value.summary.objectsDeduplicated == Number(reader.bytes, 70, 8)
              && r.value.summary.rawBytes == Number(reader.bytes, 78, 8)
              && r.value.toolLength == Number(reader.bytes, 86, 2)
              && r.value.refCount == Number(reader.bytes, 88, 4) && r.value.fieldCount == Number(reader.bytes, 92, 4)
  {
    hide Number, Pow256;
    Pow256Widths();
    var time := Field(reader, 8);
    if time.Err? {
      return Err(time.error);
    }
    var seen := Field(reader, 8);
    if seen.Err? {
      return Err(seen.error);
    }
    var written := Field(reader, 8);
    if written.Err? {
      return Err(written.error);
    }
    var deduplicated := Field(reader, 8);
    if deduplicated.Err? {
      return Err(deduplicated.error);
    }
    var raw := Field(reader, 8);
    if raw.Err? {
      return Err(raw.error);
    }
    var toolLength := Field(reader, 2);
    if toolLength.Err? {
      return Err(toolLength.error);
    }
    var refCount := Field(reader, 4);
    if refCount.Err? {
      return Err(refCount.error);
    }
    var fieldCount := Field(reader, 4);
    if fieldCount.Err? {
      return Err(fieldCount.error);
    }
    return Ok(Numbers(time.value, ImportSummary(seen.value, written.value, deduplicated.value, raw.value),
                      toolLength.value, refCount.value, fieldCount.value));
  }

  // What is left of the decoding once the refs and then the fields have been read.
  ghost function AfterRefs(b: seq<byte>, tool: seq<byte>, refs: seq<PersistedRef>, tail: seq<byte>): Result<Manifest, ManifestError>
    requires FixedError(b).None?
  {
    var fieldCount := Number(b, 92, 4);
    if fieldCount > |tail| / MIN_OPTIONAL_FIELD_BYTES
    then Err(Invalid("snapshot manifest optional field count exceeds remaining input")) else
    var fields := DecodeFields(tail, fieldCount);
    if fields.Err? then Err(fields.error)
    else if fields.value.1 != |tail| then Err(Invalid("snapshot manifest has trailing bytes"))
    else
      var m := FromParts(b, tool, refs, fields.value.0);
      if Valid(m) then Ok(m) else Err(ValidationError(m))
  }

  lemma DecodeIsAfterRefs(b: seq<byte>)
    requires |b| <= MAX_MANIFEST_BYTES && FixedError(b).None?
    ensures var body := FIXED_LEN + Number(b, 86, 2);
            var refCount := Number(b, 88, 4);
            && (|b| < body ==> Decode(b) == Err(TRUNCATED))
            && (|b| >= body && refCount > (|b| - body) / MIN_REF_ENTRY_BYTES ==>
                  Decode(b) == Err(Invalid("snapshot manifest ref count exceeds remaining input")))
            && (|b| >= body && refCount <= (|b| - body) / MIN_REF_ENTRY_BYTES ==>
                  var refs := DecodeRefs(b[body..], refCount);
                  && (refs.Err? ==> Decode(b) == Err(refs.error))
                  && (refs.Ok? ==>
                        && refs.value.1 <= |b[body..]|
                        && Decode(b) == AfterRefs(b, b[FIXED_LEN..body], refs.value.0, b[body..][refs.value.1..])))
  {
    hide DecodeRefs, DecodeFields, Valid, Number, FromParts;
    var body := FIXED_LEN + Number(b, 86, 2);
    if |b| >= body {
      DecodeRefsSpan(b[body..], Number(b, 88, 4));
    }
  }

  method ReadAfterRefs(reader: Reader, preamble: Preamble, numbers: Numbers, tool: seq<byte>, refs: seq<PersistedRef>)
      returns (r: Result<Manifest, ManifestError>)
    requires reader.InBounds() && FixedError(reader.bytes).None?
    requires numbers.fieldCount == Number(reader.bytes, 92, 4)
    requires forall fields :: Manifest(preamble.repository, preamble.snapshotId, preamble.format, refs, numbers.summary,
                                       numbers.time, tool, fields) == FromParts(reader.bytes, tool, refs, fields)
    modifies reader`offset
    ensures r == AfterRefs(reader.bytes, tool, refs, old(reader.Rest()))
  {
    hide FixedError, DecodeFields, Valid, Number, FromParts;
    ghost var tail := reader.Rest();
    if numbers.fieldCount > |reader.Rest()| / MIN_OPTIONAL_FIELD_BYTES {
      return Err(Invalid("snapshot manifest optional field count exceeds remaining input"));
    }
    var fields := ReadFields(reader, numbers.fieldCount);
    if fields.Err? {
      return Err(fields.error);
    }
    if reader.offset != |reader.bytes| {
      return Err(Invalid("snapshot manifest has trailing bytes"));
    }
    var m := Manifest(preamble.repository, preamble.snapshotId, preamble.format, refs, numbers.summary, numbers.time, tool,
                      fields.value);
    var problem := Validate(m);
    return if problem.None? then Ok(m) else Err(NotValid(problem.value));
  }

  // The running decoder computes exactly the canonical decoding, error for error.
  method DecodeManifestBytes(bytes: seq<byte>) returns (r: Result<Manifest, ManifestError>)
    ensures r == Decode(bytes)
  {
    hide FixedError, Number, Decode, FromParts;
    if |bytes| > MAX_MANIFEST_BYTES {
      OverMaximum(bytes);
      return Err(Invalid("snapshot manifest exceeds the maximum size"));
    }
    BadFixedPart(bytes);
    var reader := new Reader(bytes);
    var preamble := ReadPreamble(reader);
    if preamble.Err? {
      return Err(preamble.error);
    }
    var numbers := ReadNumbers(reader);
    if numbers.Err? {
      return Err(numbers.error);
    }
    r := DecodeBody(reader, preamble.value, numbers.value);
  }

  // What the two halves of the fixed part read.
  ghost predicate FixedRead(b: seq<byte>, preamble: Preamble, numbers: Numbers)
    requires FIXED_LEN <= |b|
  {
    && preamble.repository == b[10..26] && preamble.snapshotId == b[26..42]
    && AlgorithmFromTag(b[42]) == Some(preamble.format)
    && numbers.time == Number(b, 46, 8) && numbers.summary.objectsSeen == Number(b, 54, 8)
    && numbers.summary.objectsWritten == Number(b, 62, 8) && numbers.summary.objectsDeduplicated == Number(b, 70, 8)
    && numbers.summary.rawBytes == Number(b, 78, 8)
    && numbers.toolLength == Number(b, 86, 2) && numbers.refCount == Number(b, 88, 4)
    && numbers.fieldCount == Number(b, 92, 4)
  }

  method DecodeBody(reader: Reader, preamble: Preamble, numbers: Numbers) returns (r: Result<Manifest, ManifestError>)
    requires reader.InBounds() && reader.offset == FIXED_LEN && FIXED_LEN <= |reader.bytes| <= MAX_MANIFEST_BYTES
    requires FixedError(reader.bytes).None? && FixedRead(reader.bytes, preamble, numbers)
    modifies reader`offset
    ensures r == Decode(reader.bytes)
  {
    hide FixedError, DecodeRefs, Valid, Number, AfterRefs, Decode, FromParts;
    ghost var bytes := reader.bytes;
    DecodeIsAfterRefs(bytes);
    var tool := reader.Take(numbers.toolLength);
    if tool.Err? {
      return Err(tool.error);
    }
    ghost var body := FIXED_LEN + numbers.toolLength;
    assert tool.value == bytes[FIXED_LEN..body] && reader.Rest() == bytes[body..];
    if numbers.refCount > |reader.Rest()| / MIN_REF_ENTRY_BYTES {
      return Err(Invalid("snapshot manifest ref count exceeds remaining input"));
    }
    var refs := ReadRefs(reader, numbers.refCount);
    if refs.Err? {
      return Err(refs.error);
    }
    PartsMatch(bytes, preamble, numbers, tool.value, refs.value);
    r := ReadAfterRefs(reader, preamble, numbers, tool.value, refs.value);
  }

  lemma PartsMatch(b: seq<byte>, preamble: Preamble, numbers: Numbers, tool: seq<byte>, refs: seq<PersistedRef>)
    requires FixedError(b).None?
    requires preamble.repository == b[10..26] && preamble.snapshotId == b[26..42]
    requires AlgorithmFromTag(b[42]) == Some(preamble.format)
    requires numbers.time == Number(b, 46, 8) && numbers.summary.objectsSeen == Number(b, 54, 8)
    requires numbers.summary.objectsWritten == Number(b, 62, 8) && numbers.summary.objectsDeduplicated == Number(b, 70, 8)
    requires numbers.summary.rawBytes == Number(b, 78, 8)
    ensures forall fields :: Manifest(preamble.repository, preamble.snapshotId, preamble.format, refs, numbers.summary,
                                      numbers.time, tool, fields) == FromParts(b, tool, refs, fields)
  {
    hide Number;
  }

  lemma OverMaximum(bytes: seq<byte>)
    requires |bytes| > MAX_MANIFEST_BYTES
    ensures Decode(bytes) == Err(Invalid("snapshot manifest exceeds the maximum size"))
  {
  }

  lemma BadFixedPart(bytes: seq<byte>)
    requires |bytes| <= MAX_MANIFEST_BYTES
    ensures FixedError(bytes).Some? ==> Decode(bytes) == Err(FixedError(bytes).value)
  {
    hide FixedError, DecodeRefs, DecodeFields, Valid, Number;
  }
}
