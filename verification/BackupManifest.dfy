/** Checkpoint manifests and the two orders their paths are sorted in (crates/reflink-forest-backup). */
module BackupManifest {
  import opened Bytes
  import opened Core
  import opened PathOrder

  const MANIFEST_MAGIC: seq<byte> := [82, 70, 66, 75, 77, 65, 78, 49]
  const HEADER_LEN := 16
  const DIGEST_LEN := 32
  const MIN_ENTRY_LEN := 45
  const MAX_BYTES := 64 * 1024 * 1024
  const MAX_ENTRIES := 1000000
  const MAX_PATH_BYTES := 1024 * 1024

  type Sha256 = s: seq<byte> | |s| == 32 witness Zeros(32)

  // The digest is a parameter: the codec is exact for any.
  type Digest = seq<byte> -> Sha256

  datatype BackupFile = BackupFile(path: seq<byte>, bytes: u64, sha256: Sha256)

  // ---------- Paths ----------

  predicate ValidPath(path: seq<byte>) {
    |path| <= MAX_PATH_BYTES && ValidNames(Split(path))
  }

  predicate Increasing(paths: seq<seq<byte>>) {
    forall i :: 0 < i < |paths| ==> Less(paths[i - 1], paths[i])
  }

  lemma {:induction false} IncreasingPairs(paths: seq<seq<byte>>, i: nat, j: nat)
    requires Increasing(paths) && i < j < |paths|
    ensures Less(paths[i], paths[j])
  {
    hide Less;
    if i < j - 1 {
      IncreasingPairs(paths, i, j - 1);
      LessTransitive(paths[i], paths[j - 1], paths[j]);
    }
  }

  ghost predicate SortedAsPaths(paths: seq<seq<byte>>) {
    forall i, j :: 0 <= i < j < |paths| ==> NamesLess(Split(paths[i]), Split(paths[j]))
  }

  // A list sorted as paths passes the encoder's byte order check iff no two of its paths clash.
  lemma AcceptedIffNoClash(paths: seq<seq<byte>>)
    requires SortedAsPaths(paths) && forall i :: 0 <= i < |paths| ==> ValidPath(paths[i])
    ensures Increasing(paths) <==> forall i, j :: 0 <= i < j < |paths| ==> !Clash(Split(paths[i]), Split(paths[j]))
  {
    hide Split, NamesLess, Clash, Less, Increasing;
    forall i, j | 0 <= i < j < |paths|
      ensures Less(paths[i], paths[j]) <==> !Clash(Split(paths[i]), Split(paths[j]))
      ensures Increasing(paths) ==> Less(paths[i], paths[j])
    {
      JoinSplit(paths[i]);
      JoinSplit(paths[j]);
      OrdersAgree(Split(paths[i]), Split(paths[j]));
      if Increasing(paths) {
        IncreasingPairs(paths, i, j);
      }
    }
    PairsIncrease(paths);
  }

  lemma PairsIncrease(paths: seq<seq<byte>>)
    ensures (forall i, j :: 0 <= i < j < |paths| ==> Less(paths[i], paths[j])) ==> Increasing(paths)
  {
  }

  // ---------- The codec ----------

  function EntryBytes(f: BackupFile): seq<byte> {
    BigEndian(|f.path|, 4) + f.path + (BigEndian(f.bytes, 8) + f.sha256)
  }

  function EntriesBytes(files: seq<BackupFile>): seq<byte> {
    if files == [] then [] else EntryBytes(files[0]) + EntriesBytes(files[1..])
  }

  function Paths(files: seq<BackupFile>): (paths: seq<seq<byte>>)
    ensures |paths| == |files|
  {
    seq(|files|, i requires 0 <= i < |files| => files[i].path)
  }

  predicate ValidPaths(files: seq<BackupFile>) {
    forall i :: 0 <= i < |files| ==> ValidPath(files[i].path)
  }

  function Payload(files: seq<BackupFile>): seq<byte> {
    MANIFEST_MAGIC + BigEndian(|files|, 8) + EntriesBytes(files)
  }

  function Encode(digest: Digest, files: seq<BackupFile>): Option<seq<byte>> {
    if |files| > MAX_ENTRIES || !ValidPaths(files) || !Increasing(Paths(files)) then None
    else
      var bytes := Payload(files) + digest(Payload(files));
      if |bytes| > MAX_BYTES then None else Some(bytes)
  }

  function ParseEntry(p: seq<byte>, offset: nat): (r: Option<(BackupFile, nat)>)
    ensures r.Some? ==> offset < r.value.1 <= |p|
  {
    Pow256Widths();
    if offset + 4 > |p| then None else
    var length := Number(p, offset, 4);
    var end: nat := offset + 4 + length;
    if length > MAX_PATH_BYTES || end + 40 > |p| || !ValidPath(p[offset + 4..end]) then None
    else Some((BackupFile(p[offset + 4..end], Number(p, end, 8), p[end + 8..end + 40]), end + 40))
  }

  function ParseEntries(p: seq<byte>, offset: nat, count: nat, previous: Option<seq<byte>>): Option<(seq<BackupFile>, nat)>
    decreases count
  {
    if count == 0 then Some(([], offset)) else
    var entry := ParseEntry(p, offset);
    if entry.None? then None else
    var (file, end) := entry.value;
    if previous.Some? && !Less(previous.value, file.path) then None else
    var rest := ParseEntries(p, end, count - 1, Some(file.path));
    if rest.None? then None else Some(([file] + rest.value.0, rest.value.1))
  }

  function Decode(digest: Digest, bytes: seq<byte>): Option<seq<BackupFile>> {
    if |bytes| < HEADER_LEN + DIGEST_LEN || |bytes| > MAX_BYTES then None else
    var p := bytes[..|bytes| - DIGEST_LEN];
    if digest(p) != bytes[|bytes| - DIGEST_LEN..] || p[..8] != MANIFEST_MAGIC then None else
    var count := Number(p, 8, 8);
    if count > MAX_ENTRIES || count > (|p| - HEADER_LEN) / MIN_ENTRY_LEN then None else
    var files := ParseEntries(p, HEADER_LEN, count, None);
    if files.None? || files.value.1 != |p| then None else Some(files.value.0)
  }

  // ---------- The codec is exact ----------

  lemma EntryRoundTrip(f: BackupFile, before: seq<byte>, after: seq<byte>)
    requires ValidPath(f.path)
    ensures ParseEntry(before + EntryBytes(f) + after, |before|) == Some((f, |before| + |EntryBytes(f)|))
  {
    hide BigEndian, FromBigEndian, Split, Pow256;
    var p, o, n := before + EntryBytes(f) + after, |before|, |f.path|;
    Pow256Widths();
    assert p[o..o + 4] == BigEndian(n, 4);
    assert p[o + 4..o + 4 + n] == f.path;
    assert p[o + 4 + n..o + 12 + n] == BigEndian(f.bytes, 8);
    assert p[o + 12 + n..o + 44 + n] == f.sha256;
    DecodeBigEndian(n, 4);
    DecodeBigEndian(f.bytes, 8);
  }

  lemma EntryCanonical(p: seq<byte>, offset: nat)
    requires ParseEntry(p, offset).Some?
    ensures var (f, end) := ParseEntry(p, offset).value;
            ValidPath(f.path) && offset < end <= |p| && p[offset..end] == EntryBytes(f)
  {
    hide BigEndian, FromBigEndian, Split, Pow256;
    var (f, end) := ParseEntry(p, offset).value;
    Pow256Widths();
    var m := offset + 4 + |f.path|;
    EncodeBigEndian(p[offset..offset + 4]);
    EncodeBigEndian(p[m..m + 8]);
    assert p[offset..end] == p[offset..offset + 4] + p[offset + 4..m] + (p[m..m + 8] + p[m + 8..end]);
  }

  // `files` may follow a file whose path is `previous`.
  predicate Follows(previous: Option<seq<byte>>, files: seq<BackupFile>)
    decreases files
  {
    files == [] || ((previous.None? || Less(previous.value, files[0].path)) && Follows(Some(files[0].path), files[1..]))
  }

  lemma {:induction false} FollowsIsIncreasing(previous: Option<seq<byte>>, files: seq<BackupFile>)
    ensures Follows(previous, files) <==>
            Increasing(Paths(files)) && (previous.Some? && files != [] ==> Less(previous.value, files[0].path))
    decreases files
  {
    hide Less;
    if files != [] {
      var rest := files[1..];
      FollowsIsIncreasing(Some(files[0].path), rest);
      assert forall i :: 0 <= i < |rest| ==> Paths(rest)[i] == Paths(files)[i + 1];
      if Increasing(Paths(rest)) && (rest != [] ==> Less(files[0].path, rest[0].path)) {
        forall i | 0 < i < |files|
          ensures Less(Paths(files)[i - 1], Paths(files)[i])
        {
          assert i > 1 ==> Paths(files)[i - 1] == Paths(rest)[i - 2];
          assert Paths(files)[i] == Paths(rest)[i - 1];
        }
      }
      if Increasing(Paths(files)) {
        forall i | 0 < i < |rest|
          ensures Less(Paths(rest)[i - 1], Paths(rest)[i])
        {
          assert Less(Paths(files)[i], Paths(files)[i + 1]);
        }
        assert rest != [] ==> Less(Paths(files)[0], Paths(files)[1]);
      }
    }
  }

  lemma {:induction false} EntriesRoundTrip(
    files: seq<BackupFile>, before: seq<byte>, after: seq<byte>, previous: Option<seq<byte>>)
    requires ValidPaths(files) && Follows(previous, files)
    ensures ParseEntries(before + EntriesBytes(files) + after, |before|, |files|, previous)
            == Some((files, |before| + |EntriesBytes(files)|))
  {
    hide EntryBytes, ParseEntry, ValidPath, Less;
    if files != [] {
      var first, rest := files[0], files[1..];
      var p := before + EntriesBytes(files) + after;
      assert p == before + EntryBytes(first) + (EntriesBytes(rest) + after);
      assert p == (before + EntryBytes(first)) + EntriesBytes(rest) + after;
      EntryRoundTrip(first, before, EntriesBytes(rest) + after);
      EntriesRoundTrip(rest, before + EntryBytes(first), after, Some(first.path));
      assert files == [first] + rest;
    }
  }

  lemma {:induction false} EntriesCanonical(p: seq<byte>, offset: nat, count: nat, previous: Option<seq<byte>>)
    requires ParseEntries(p, offset, count, previous).Some? && offset <= |p|
    ensures var (files, end) := ParseEntries(p, offset, count, previous).value;
            && |files| == count && ValidPaths(files) && Follows(previous, files)
            && offset <= end <= |p| && p[offset..end] == EntriesBytes(files)
    decreases count
  {
    hide EntryBytes, ParseEntry, ValidPath, Less;
    if count > 0 {
      var (file, middle) := ParseEntry(p, offset).value;
      EntryCanonical(p, offset);
      EntriesCanonical(p, middle, count - 1, Some(file.path));
      var (files, end) := ParseEntries(p, offset, count, previous).value;
      assert files[1..] == ParseEntries(p, middle, count - 1, Some(file.path)).value.0;
      assert p[offset..end] == p[offset..middle] + p[middle..end];
    }
  }

  lemma ValidPathIsNotEmpty(path: seq<byte>)
    requires ValidPath(path)
    ensures path != []
  {
    assert ValidName(Split(path)[0]);
  }

  lemma {:induction false} EntriesLength(files: seq<BackupFile>)
    requires ValidPaths(files)
    ensures |EntriesBytes(files)| >= MIN_ENTRY_LEN * |files|
  {
    hide BigEndian;
    if files != [] {
      EntriesLength(files[1..]);
      ValidPathIsNotEmpty(files[0].path);
    }
  }

  lemma DecodeUndoesEncode(digest: Digest, files: seq<BackupFile>)
    requires Encode(digest, files).Some?
    ensures Decode(digest, Encode(digest, files).value) == Some(files)
  {
    hide BigEndian, FromBigEndian, EntriesBytes, ParseEntries, Increasing, Pow256, ValidPaths;
    var bytes, p := Encode(digest, files).value, Payload(files);
    assert bytes[..|bytes| - DIGEST_LEN] == p && bytes[|bytes| - DIGEST_LEN..] == digest(p);
    assert p[..8] == MANIFEST_MAGIC && p[8..16] == BigEndian(|files|, 8);
    Pow256Widths();
    DecodeBigEndian(|files|, 8);
    FollowsIsIncreasing(None, files);
    EntriesLength(files);
    var before := MANIFEST_MAGIC + BigEndian(|files|, 8);
    EntriesRoundTrip(files, before, [], None);
    assert before + EntriesBytes(files) + [] == p;
  }

  lemma EncodeUndoesDecode(digest: Digest, bytes: seq<byte>)
    requires Decode(digest, bytes).Some?
    ensures Encode(digest, Decode(digest, bytes).value) == Some(bytes)
  {
    hide BigEndian, FromBigEndian, EntriesBytes, ParseEntries, Increasing, Pow256, ValidPaths, Follows;
    var files, p := Decode(digest, bytes).value, bytes[..|bytes| - DIGEST_LEN];
    var count := Number(p, 8, 8);
    EntriesCanonical(p, HEADER_LEN, count, None);
    FollowsIsIncreasing(None, files);
    EncodeBigEndian(p[8..16]);
    assert BigEndian(|files|, 8) == p[8..16] && p[16..|p|] == EntriesBytes(files);
    assert p == p[..8] + p[8..16] + p[16..|p|];
    assert Payload(files) == p;
    assert bytes == p + bytes[|bytes| - DIGEST_LEN..];
  }

  // ---------- The encoder and the decoder as they run ----------

  lemma EntriesFrom(files: seq<BackupFile>, i: nat)
    requires i < |files|
    ensures EntriesBytes(files[i..]) == EntryBytes(files[i]) + EntriesBytes(files[i + 1..])
  {
    hide EntryBytes;
    assert files[i..][1..] == files[i + 1..];
  }

  lemma NoEntries(files: seq<BackupFile>)
    ensures EntriesBytes(files[|files|..]) == []
  {
  }

  method EncodeManifest(digest: Digest, files: seq<BackupFile>) returns (result: Option<seq<byte>>)
    ensures result == Encode(digest, files)
  {
    hide BigEndian, Less, ValidPath, EntriesBytes;
    if |files| > MAX_ENTRIES {
      return None;
    }
    var bytes := MANIFEST_MAGIC + BigEndian(|files|, 8);
    var previous: Option<seq<byte>> := None;
    assert files[0..] == files;
    for i := 0 to |files|
      invariant bytes + EntriesBytes(files[i..]) == Payload(files)
      invariant previous == if i == 0 then None else Some(files[i - 1].path)
      invariant forall k :: 0 <= k < i ==> ValidPath(files[k].path)
      invariant forall k :: 0 < k < i ==> Less(Paths(files)[k - 1], Paths(files)[k])
    {
      var path := files[i].path;
      if !ValidPath(path) {
        return None;
      }
      if previous.Some? && !Less(previous.value, path) {
        assert Paths(files)[i - 1] == previous.value && Paths(files)[i] == path;
        return None;
      }
      previous := Some(path);
      EntriesFrom(files, i);
      bytes := bytes + BigEndian(|path|, 4);
      bytes := bytes + path;
      bytes := bytes + BigEndian(files[i].bytes, 8);
      bytes := bytes + files[i].sha256;
    }
    NoEntries(files);
    assert bytes == Payload(files);
    bytes := bytes + digest(bytes);
    return if |bytes| > MAX_BYTES then None else Some(bytes);
  }

  method DecodeManifest(digest: Digest, bytes: seq<byte>) returns (result: Option<seq<BackupFile>>)
    ensures result == Decode(digest, bytes)
  {
    hide FromBigEndian, ParseEntry, Less;
    if |bytes| < HEADER_LEN + DIGEST_LEN || |bytes| > MAX_BYTES {
      return None;
    }
    var p := bytes[..|bytes| - DIGEST_LEN];
    if digest(p) != bytes[|bytes| - DIGEST_LEN..] || p[..8] != MANIFEST_MAGIC {
      return None;
    }
    var count := Number(p, 8, 8);
    if count > MAX_ENTRIES || count > (|p| - HEADER_LEN) / MIN_ENTRY_LEN {
      return None;
    }
    var files: seq<BackupFile>, offset: nat, previous: Option<seq<byte>> := [], HEADER_LEN, None;
    ghost var whole := ParseEntries(p, HEADER_LEN, count, None);
    PrependNone(whole);
    for i := 0 to count
      invariant whole == Prepended(files, ParseEntries(p, offset, count - i, previous))
    {
      var entry := ParseEntry(p, offset);
      if entry.None? {
        return None;
      }
      var (file, end) := entry.value;
      if previous.Some? && !Less(previous.value, file.path) {
        return None;
      }
      PrependOne(files, file, ParseEntries(p, end, count - i - 1, Some(file.path)));
      files, offset, previous := files + [file], end, Some(file.path);
    }
    assert files + [] == files;
    return if offset != |p| then None else Some(files);
  }

  ghost function Prepended(files: seq<BackupFile>, rest: Option<(seq<BackupFile>, nat)>): Option<(seq<BackupFile>, nat)> {
    if rest.None? then None else Some((files + rest.value.0, rest.value.1))
  }

  lemma PrependNone(rest: Option<(seq<BackupFile>, nat)>)
    ensures Prepended([], rest) == rest
  {
    if rest.Some? {
      assert [] + rest.value.0 == rest.value.0;
    }
  }

  lemma PrependOne(files: seq<BackupFile>, file: BackupFile, rest: Option<(seq<BackupFile>, nat)>)
    ensures Prepended(files + [file], rest) == Prepended(files, Prepended([file], rest))
  {
    if rest.Some? {
      assert files + [file] + rest.value.0 == files + ([file] + rest.value.0);
    }
  }

  // ---------- A checkpoint's inventory ----------

  predicate BeforeAsPath(a: BackupFile, b: BackupFile) { NamesLess(Split(a.path), Split(b.path)) }

  ghost predicate SortedFiles(files: seq<BackupFile>) {
    forall i, j :: 0 <= i < j < |files| ==> BeforeAsPath(files[i], files[j])
  }

  ghost predicate DistinctPaths(files: seq<BackupFile>) {
    forall i, j :: 0 <= i < j < |files| ==> files[i].path != files[j].path
  }

  method Position(sorted: seq<BackupFile>, file: BackupFile) returns (k: nat)
    requires SortedFiles(sorted) && forall i :: 0 <= i < |sorted| ==> sorted[i].path != file.path
    ensures k <= |sorted|
    ensures forall i :: 0 <= i < k ==> BeforeAsPath(sorted[i], file)
    ensures forall i :: k <= i < |sorted| ==> BeforeAsPath(file, sorted[i])
  {
    hide NamesLess, Split;
    k := 0;
    while k < |sorted| && BeforeAsPath(sorted[k], file)
      invariant k <= |sorted|
      invariant forall i :: 0 <= i < k ==> BeforeAsPath(sorted[i], file)
    {
      k := k + 1;
    }
    forall i | k <= i < |sorted|
      ensures BeforeAsPath(file, sorted[i])
    {
      JoinSplit(file.path);
      JoinSplit(sorted[k].path);
      NamesLessTotal(Split(file.path), Split(sorted[k].path));
      if k < i {
        assert BeforeAsPath(sorted[k], sorted[i]);
        NamesLessTransitive(Split(file.path), Split(sorted[k].path), Split(sorted[i].path));
      }
    }
  }

  method SortFiles(files: seq<BackupFile>) returns (sorted: seq<BackupFile>)
    requires DistinctPaths(files)
    ensures SortedFiles(sorted) && |sorted| == |files| && forall f :: f in sorted <==> f in files
  {
    hide BeforeAsPath;
    sorted := [];
    for i := 0 to |files|
      invariant SortedFiles(sorted) && |sorted| == i
      invariant forall f :: f in sorted <==> f in files[..i]
    {
      forall k | 0 <= k < |sorted|
        ensures sorted[k].path != files[i].path
      {
        assert sorted[k] in files[..i];
      }
      var k := Position(sorted, files[i]);
      var before := sorted;
      sorted := sorted[..k] + [files[i]] + sorted[k..];
      assert files[..i + 1] == files[..i] + [files[i]];
      assert forall f :: f in sorted <==> f in before || f == files[i] by {
        assert before == before[..k] + before[k..];
      }
    }
    assert files[..|files|] == files;
  }

  // Two distinct files of a tree clash, whichever is listed first.
  ghost predicate AnyClash(files: seq<BackupFile>) {
    exists f, g :: f in files && g in files && Clash(Split(f.path), Split(g.path))
  }

  lemma SortedAcceptedIff(files: seq<BackupFile>)
    requires SortedFiles(files) && ValidPaths(files)
    ensures Increasing(Paths(files)) <==> !AnyClash(files)
  {
    hide Split, NamesLess, Clash, Increasing, ValidPath;
    AcceptedIffNoClash(Paths(files));
    assert forall i :: 0 <= i < |files| ==> Paths(files)[i] == files[i].path;
    forall i, j | 0 <= i < |files| && 0 <= j < |files| && Clash(Split(files[i].path), Split(files[j].path))
      ensures i < j
    {
      ClashIsOrdered(Split(files[i].path), Split(files[j].path));
      NamesLessIrreflexive(Split(files[i].path));
      if j < i {
        assert BeforeAsPath(files[j], files[i]);
        NamesLessTransitive(Split(files[i].path), Split(files[j].path), Split(files[i].path));
      }
    }
  }

  lemma SamePaths(files: seq<BackupFile>, sorted: seq<BackupFile>)
    requires forall f :: f in sorted <==> f in files
    ensures ValidPaths(sorted) <==> ValidPaths(files)
  {
    hide ValidPath;
    assert forall i :: 0 <= i < |sorted| ==> sorted[i] in files;
    assert forall i :: 0 <= i < |files| ==> files[i] in sorted;
  }

  // A checkpoint of a tree writes its manifest exactly when every path is valid, the manifest fits
  // and no two files clash; what it writes reads back as the sorted inventory.
  method CheckpointManifest(digest: Digest, files: seq<BackupFile>) returns (result: Option<seq<byte>>, sorted: seq<BackupFile>)
    requires DistinctPaths(files)
    ensures |sorted| == |files| && forall f :: f in sorted <==> f in files
    ensures result.Some? <==>
              && ValidPaths(files) && |files| <= MAX_ENTRIES && |Payload(sorted)| + DIGEST_LEN <= MAX_BYTES && !AnyClash(files)
    ensures result.Some? ==> Decode(digest, result.value) == Some(sorted)
  {
    hide Payload, Increasing, ValidPath, SortedFiles, Decode;
    sorted := SortFiles(files);
    result := EncodeManifest(digest, sorted);
    SamePaths(files, sorted);
    if ValidPaths(sorted) {
      SortedAcceptedIff(sorted);
    }
    assert AnyClash(sorted) == AnyClash(files);
    if result.Some? {
      DecodeUndoesEncode(digest, sorted);
    }
  }

  const FOO: seq<byte> := [102, 111, 111]
  const FOO_TXT: seq<byte> := [102, 111, 111, 46, 116, 120, 116]
  const INNER: seq<byte> := [120]

  lemma FooClashes()
    ensures ValidNames([FOO, INNER]) && ValidNames([FOO_TXT]) && Clash([FOO, INNER], [FOO_TXT])
  {
    assert FOO < FOO_TXT;
  }

  // A directory beside a file named after it: "foo/x" and "foo.txt".
  lemma DirectoryBesideDottedFile(x: BackupFile, y: BackupFile)
    requires x.path == FOO + [SLASH] + INNER && y.path == FOO_TXT
    ensures ValidPath(x.path) && ValidPath(y.path) && AnyClash([x, y])
  {
    hide Split, ValidName, Clash;
    FooClashes();
    SplitName(FOO, INNER);
    SplitName(INNER, []);
    SplitName(FOO_TXT, []);
    assert Split(x.path) == [FOO, INNER] && Split(y.path) == [FOO_TXT];
    assert x in [x, y] && y in [x, y];
  }
}
