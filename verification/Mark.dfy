/** The GC mark phase (crates/reflink-forest-maintenance). */
module Mark {
  import opened Bytes
  import opened Core
  import opened RecordFormat
  import opened Catalog
  import Git
  import SnapshotManifest

  // SHA-1, SHA-256 and Zstd are parameters: every theorem holds for all of them.
  datatype Hashes = Hashes(
    contentId: (ObjectKind, seq<byte>) -> ContentId,
    gitOid: (HashAlgorithm, ObjectKind, seq<byte>) -> Oid,
    unzstd: seq<byte> -> Option<seq<byte>>)

  datatype CodecError =
    | Io
    | RawLengthMismatch(expected: u64, actual: u64)
    | ContentMismatch

  // Decodes a stored payload and checks it against the record's declared length and ContentId.
  function DecodeObjectPayload(h: Hashes, record: ObjectRecord): Result<seq<byte>, CodecError> {
    var decoded := if record.codec == Raw then Some(record.payload) else h.unzstd(record.payload);
    if decoded.None? || |decoded.value| > record.rawLength then Err(Io)
    else if |decoded.value| < record.rawLength then Err(RawLengthMismatch(record.rawLength, |decoded.value|))
    else if h.contentId(record.kind, decoded.value) != record.contentId then Err(ContentMismatch)
    else Ok(decoded.value)
  }

  // Which bytes a payload stands for: itself, or what decompression makes of it.
  function Unpacked(h: Hashes, codec: Codec, payload: seq<byte>): Option<seq<byte>> {
    match codec
    case Raw => Some(payload)
    case Zstd => h.unzstd(payload)
  }

  // A payload decodes exactly to bytes of the declared length and hash; each way to fail is reported as itself.
  lemma PayloadDecodesExactly(h: Hashes, record: ObjectRecord)
    ensures var decoded, plain := DecodeObjectPayload(h, record), Unpacked(h, record.codec, record.payload);
            && (forall raw :: decoded == Ok(raw) <==>
                  plain == Some(raw) && |raw| == record.rawLength && h.contentId(record.kind, raw) == record.contentId)
            && (decoded == Err(Io) <==> plain.None? || |plain.value| > record.rawLength)
            && (decoded.Err? && decoded.error.RawLengthMismatch? <==> plain.Some? && |plain.value| < record.rawLength)
            && (decoded.Err? && decoded.error.RawLengthMismatch? ==>
                  decoded.error == RawLengthMismatch(record.rawLength, |plain.value|))
  {
  }

  // An object stored plain or compressed decodes to its bytes, whatever the compressor.
  lemma StoredObjectDecodes(h: Hashes, kind: ObjectKind, raw: seq<byte>, packed: seq<byte>, plain: ObjectRecord, zstd: ObjectRecord)
    requires |raw| <= U64_MAX && h.unzstd(packed) == Some(raw)
    requires plain.kind == zstd.kind == kind && plain.rawLength == zstd.rawLength == |raw|
    requires plain.contentId == zstd.contentId == h.contentId(kind, raw)
    requires plain.codec == Raw && plain.payload == raw && zstd.codec == Zstd && zstd.payload == packed
    ensures DecodeObjectPayload(h, plain) == DecodeObjectPayload(h, zstd) == Ok(raw)
  {
  }

  // A native object ID in one repository.
  datatype Ref = Ref(repository: Id16, oid: Oid)

  datatype MarkLimits = MarkLimits(maxSnapshotRoots: nat, maxObjectReferences: nat, maxObjects: nat)

  datatype MarkError =
    | CatalogFailed
    | NoCurrentGeneration
    | TooManySnapshotRoots
    | TooManyObjectReferences
    | TooManyObjects
    | ManifestFailed
    | ManifestIdentity
    | MissingAlias(r: Ref)
    | MissingLocation(id: ContentId)
    | LocationOutsideCurrentGeneration(id: ContentId)
    | ReadFailed
    | RecordContentIdMismatch(expected: ContentId, actual: ContentId)
    | PayloadLengthMismatch(id: ContentId, expectedLength: u64, actualLength: u64)
    | PayloadContentIdMismatch(id: ContentId)
    | NativeOidMismatch(expectedOid: Oid, actualOid: Oid)
    | InvalidGitObject

  // A `&mut` reader may answer the n-th call any way it likes.
  type Reader = (nat, ContentId, ObjectLocation) -> Option<ObjectRecord>

  type Manifests = (Id16, Id16) -> Option<SnapshotManifest.Manifest>

  // ---------- The object graph of the catalog ----------

  predicate Aliased(c: State, r: Ref) {
    (r.repository, r.oid) in c.aliases
  }

  function Alias(c: State, r: Ref): ContentId
    requires Aliased(c, r)
  {
    c.aliases[(r.repository, r.oid)]
  }

  function Children(oid: Oid, kind: ObjectKind, raw: seq<byte>): seq<Oid> {
    var references := Git.ReferencedOids(Git.GitObject(oid, kind, raw));
    if references.Ok? then references.value else []
  }

  // The bytes `raw` of kind `kind` are the object that `r` names.
  predicate Names(c: State, h: Hashes, r: Ref, kind: ObjectKind, raw: seq<byte>) {
    Aliased(c, r) && h.contentId(kind, raw) == Alias(c, r)
  }

  ghost predicate Edge(c: State, h: Hashes, a: Ref, b: Ref) {
    a.repository == b.repository &&
    exists kind, raw :: Names(c, h, a, kind, raw) && b.oid in Children(a.oid, kind, raw)
  }

  ghost predicate IsPath(c: State, h: Hashes, roots: set<Ref>, p: seq<Ref>) {
    p != [] && p[0] in roots && forall i :: 0 <= i < |p| - 1 ==> Edge(c, h, p[i], p[i + 1])
  }

  ghost predicate Reachable(c: State, h: Hashes, roots: set<Ref>, r: Ref) {
    exists p :: IsPath(c, h, roots, p) && p[|p| - 1] == r
  }

  lemma RootReachable(c: State, h: Hashes, roots: set<Ref>, r: Ref)
    requires r in roots
    ensures Reachable(c, h, roots, r)
  {
    assert IsPath(c, h, roots, [r]);
  }

  lemma ChildReachable(c: State, h: Hashes, roots: set<Ref>, a: Ref, b: Ref)
    requires Reachable(c, h, roots, a) && Edge(c, h, a, b)
    ensures Reachable(c, h, roots, b)
  {
    hide Edge;
    var p :| IsPath(c, h, roots, p) && p[|p| - 1] == a;
    assert IsPath(c, h, roots, p + [b]);
  }

  // ---------- What a walk keeps ----------

  // How an ID came to be marked: the reference that reached it first and the object read there.
  datatype Visit = Visit(r: Ref, kind: ObjectKind, raw: seq<byte>)

  ghost predicate Marks(c: State, h: Hashes, id: ContentId, v: Visit) {
    && Names(c, h, v.r, v.kind, v.raw) && Alias(c, v.r) == id
    && h.gitOid(v.r.oid.algorithm, v.kind, v.raw) == v.r.oid
    && Git.ReferencedOids(Git.GitObject(v.r.oid, v.kind, v.raw)).Ok?
  }

  // `known` are the references queued so far, `first` how each marked ID was reached.
  ghost predicate Walking(
    c: State, h: Hashes, roots: set<Ref>, generation: u32,
    known: set<Ref>, visited: set<Ref>, locations: map<ContentId, ObjectLocation>, first: map<ContentId, Visit>)
  {
    && first.Keys == locations.Keys
    && roots <= known && visited <= known
    && (forall r :: r in known ==> Reachable(c, h, roots, r))
    && (forall r :: r in visited ==> Aliased(c, r) && Alias(c, r) in locations)
    && (forall id :: id in locations ==> InGeneration(c, id, locations[id], generation))
    && (forall id :: id in first ==> Followed(c, h, known, id, first[id]))
  }

  // The object that marked `id` has all its children queued, in its own repository.
  ghost predicate Followed(c: State, h: Hashes, known: set<Ref>, id: ContentId, v: Visit) {
    && v.r in known && Marks(c, h, id, v)
    && forall child :: child in Children(v.r.oid, v.kind, v.raw) ==> Ref(v.r.repository, child) in known
  }

  predicate InGeneration(c: State, id: ContentId, location: ObjectLocation, generation: u32) {
    id in c.locations && c.locations[id] == location && location.generation == generation
  }

  // Queue and visited set together hold the known references.
  ghost predicate Frontier(pending: seq<Ref>, visited: set<Ref>, known: set<Ref>) {
    forall r :: r in known <==> r in pending || r in visited
  }

  lemma WalkStarts(c: State, h: Hashes, generation: u32, roots: set<Ref>)
    ensures Walking(c, h, roots, generation, roots, {}, map[], map[])
  {
    forall r | r in roots
      ensures Reachable(c, h, roots, r)
    {
      RootReachable(c, h, roots, r);
    }
  }

  lemma FrontierPops(pending: seq<Ref>, visited: set<Ref>, known: set<Ref>)
    requires pending != [] && Frontier(pending, visited, known)
    ensures pending[0] in known
    ensures Frontier(pending[1..], visited + {pending[0]}, known)
  {
    assert pending == [pending[0]] + pending[1..];
  }

  ghost function ChildRefs(repository: Id16, oids: seq<Oid>): set<Ref> {
    set o | o in oids :: Ref(repository, o)
  }

  lemma FrontierGrows(
    pending: seq<Ref>, queued: seq<Ref>, visited: set<Ref>, known: set<Ref>, repository: Id16, oids: seq<Oid>)
    requires Frontier(pending, visited, known)
    requires forall r :: r in queued <==> r in pending || (r.repository == repository && r.oid in oids)
    ensures Frontier(queued, visited, known + ChildRefs(repository, oids))
  {
  }

  // The reference leads to an ID already marked: its children are not looked at.
  lemma WalkRevisits(
    c: State, h: Hashes, roots: set<Ref>, generation: u32,
    known: set<Ref>, visited: set<Ref>, locations: map<ContentId, ObjectLocation>, first: map<ContentId, Visit>, r: Ref)
    requires Walking(c, h, roots, generation, known, visited, locations, first)
    requires r in known && Aliased(c, r) && Alias(c, r) in locations
    ensures Walking(c, h, roots, generation, known, visited + {r}, locations, first)
  {
    hide Reachable, Followed, InGeneration;
  }

  lemma WalkMarks(
    c: State, h: Hashes, roots: set<Ref>, generation: u32,
    known: set<Ref>, visited: set<Ref>, locations: map<ContentId, ObjectLocation>, first: map<ContentId, Visit>,
    v: Visit, id: ContentId, location: ObjectLocation, queued: set<Ref>)
    requires Walking(c, h, roots, generation, known, visited, locations, first)
    requires v.r in known && Marks(c, h, id, v) && InGeneration(c, id, location, generation)
    requires forall r :: r in queued <==> r.repository == v.r.repository && r.oid in Children(v.r.oid, v.kind, v.raw)
    ensures Walking(c, h, roots, generation, known + queued, visited + {v.r}, locations[id := location], first[id := v])
  {
    hide Reachable, InGeneration, Followed;
    QueuedReachable(c, h, roots, v, queued);
    NowFollowed(c, h, known, v, id, queued);
    forall x | x in first
      ensures Followed(c, h, known + queued, x, first[x])
    {
      StillFollowed(c, h, known, queued, x, first[x]);
    }
  }

  lemma QueuedReachable(c: State, h: Hashes, roots: set<Ref>, v: Visit, queued: set<Ref>)
    requires Reachable(c, h, roots, v.r) && Names(c, h, v.r, v.kind, v.raw)
    requires forall r :: r in queued ==> r.repository == v.r.repository && r.oid in Children(v.r.oid, v.kind, v.raw)
    ensures forall r :: r in queued ==> Reachable(c, h, roots, r)
  {
    hide Reachable, Children;
    forall r | r in queued
      ensures Reachable(c, h, roots, r)
    {
      assert Edge(c, h, v.r, r);
      ChildReachable(c, h, roots, v.r, r);
    }
  }

  lemma NowFollowed(c: State, h: Hashes, known: set<Ref>, v: Visit, id: ContentId, queued: set<Ref>)
    requires v.r in known && Marks(c, h, id, v)
    requires forall r :: r in queued <==> r.repository == v.r.repository && r.oid in Children(v.r.oid, v.kind, v.raw)
    ensures Followed(c, h, known + queued, id, v)
  {
    hide Children, Marks;
  }

  lemma StillFollowed(c: State, h: Hashes, known: set<Ref>, more: set<Ref>, id: ContentId, v: Visit)
    requires Followed(c, h, known, id, v)
    ensures Followed(c, h, known + more, id, v)
  {
    hide Children, Marks;
  }

  // ---------- What a finished walk guarantees ----------

  // Every root is marked; every marked ID was read through some reachable reference, and the
  // children of the object found there are marked in that reference's repository.
  ghost predicate Complete(c: State, h: Hashes, roots: set<Ref>, ids: set<ContentId>) {
    && (forall r :: r in roots ==> Aliased(c, r) && Alias(c, r) in ids)
    && (forall id :: id in ids ==> exists v :: Closed(c, h, roots, ids, id, v))
  }

  ghost predicate Closed(c: State, h: Hashes, roots: set<Ref>, ids: set<ContentId>, id: ContentId, v: Visit) {
    && Reachable(c, h, roots, v.r) && Marks(c, h, id, v)
    && forall child :: child in Children(v.r.oid, v.kind, v.raw) ==>
         Aliased(c, Ref(v.r.repository, child)) && Alias(c, Ref(v.r.repository, child)) in ids
  }

  lemma WalkEnds(
    c: State, h: Hashes, roots: set<Ref>, generation: u32,
    visited: set<Ref>, locations: map<ContentId, ObjectLocation>, first: map<ContentId, Visit>)
    requires Walking(c, h, roots, generation, visited, visited, locations, first)
    ensures Complete(c, h, roots, locations.Keys)
    ensures forall id :: id in locations ==> InGeneration(c, id, locations[id], generation)
  {
    hide Reachable, Children, Marks, InGeneration;
    forall id | id in locations.Keys
      ensures exists v :: Closed(c, h, roots, locations.Keys, id, v)
    {
      assert Followed(c, h, visited, id, first[id]);
      assert Closed(c, h, roots, locations.Keys, id, first[id]);
    }
  }

  // ---------- The order of retained references ----------

  // By repository, then algorithm, then the bytes of the object ID.
  predicate RefLess(a: Ref, b: Ref) {
    || Less(a.repository, b.repository)
    || (a.repository == b.repository &&
        (|| AlgorithmTag(a.oid.algorithm) < AlgorithmTag(b.oid.algorithm)
         || (a.oid.algorithm == b.oid.algorithm && Less(a.oid.bytes, b.oid.bytes))))
  }

  lemma RefTotal(a: Ref, b: Ref)
    ensures a == b || RefLess(a, b) || RefLess(b, a)
  {
    LessTotal(a.repository, b.repository);
    LessTotal(a.oid.bytes, b.oid.bytes);
  }

  lemma RefTransitive(a: Ref, b: Ref, c: Ref)
    requires RefLess(a, b) && RefLess(b, c)
    ensures RefLess(a, c)
  {
    hide Less;
    if Less(a.repository, b.repository) && Less(b.repository, c.repository) {
      LessTransitive(a.repository, b.repository, c.repository);
    }
    if Less(a.oid.bytes, b.oid.bytes) && Less(b.oid.bytes, c.oid.bytes) {
      LessTransitive(a.oid.bytes, b.oid.bytes, c.oid.bytes);
    }
  }

  lemma RefIrreflexive(a: Ref)
    ensures !RefLess(a, a)
  {
    LessIrreflexive(a.repository);
    LessIrreflexive(a.oid.bytes);
  }

  predicate AtMost(a: Ref, b: Ref) { !RefLess(b, a) }

  lemma AtMostTransitive(a: Ref, b: Ref, c: Ref)
    requires AtMost(a, b) && AtMost(b, c)
    ensures AtMost(a, c)
  {
    hide RefLess;
    RefTotal(a, b);
    if RefLess(c, a) && a != b {
      RefTransitive(c, a, b);
    }
  }

  lemma AtMostBoth(a: Ref, b: Ref)
    requires AtMost(a, b) && AtMost(b, a)
    ensures a == b
  {
    RefTotal(a, b);
  }

  predicate RefsSorted(s: seq<Ref>) {
    forall i, j :: 0 <= i < j < |s| ==> AtMost(s[i], s[j])
  }

  function InsertRef(s: seq<Ref>, r: Ref): (t: seq<Ref>)
    ensures multiset(t) == multiset(s) + multiset{r}
  {
    if s == [] || AtMost(r, s[0]) then [r] + s
    else assert s == [s[0]] + s[1..]; [s[0]] + InsertRef(s[1..], r)
  }

  function SortedRefs(refs: seq<Ref>): (s: seq<Ref>)
    ensures multiset(s) == multiset(refs)
  {
    if refs == [] then [] else assert refs == [refs[0]] + refs[1..]; InsertRef(SortedRefs(refs[1..]), refs[0])
  }

  lemma {:induction false} InsertKeepsSorted(s: seq<Ref>, r: Ref)
    requires RefsSorted(s)
    ensures RefsSorted(InsertRef(s, r))
  {
    hide RefLess, AtMost;
    var t := InsertRef(s, r);
    if s == [] || AtMost(r, s[0]) {
      forall i, j | 0 <= i < j < |t|
        ensures AtMost(t[i], t[j])
      {
        if i == 0 && j > 1 {
          AtMostTransitive(r, s[0], s[j - 1]);
        }
      }
    } else {
      InsertKeepsSorted(s[1..], r);
      assert AtMost(s[0], r) by {
        OtherWay(r, s[0]);
      }
      forall j | 0 < j < |t|
        ensures AtMost(t[0], t[j])
      {
        var x := t[j];
        assert x in multiset(InsertRef(s[1..], r)) by {
          assert x == InsertRef(s[1..], r)[j - 1];
        }
        if x != r {
          assert x in s[1..];
        }
      }
    }
  }

  lemma OtherWay(a: Ref, b: Ref)
    requires !AtMost(a, b)
    ensures AtMost(b, a)
  {
    if RefLess(a, b) {
      RefTransitive(a, b, a);
      RefIrreflexive(a);
    }
  }

  lemma {:induction false} SortedRefsAreSorted(refs: seq<Ref>)
    ensures RefsSorted(SortedRefs(refs))
  {
    if refs != [] {
      SortedRefsAreSorted(refs[1..]);
      InsertKeepsSorted(SortedRefs(refs[1..]), refs[0]);
    }
  }

  // By repository, then by the tag of the hash algorithm, then by object ID.
  lemma SortedBy(refs: seq<Ref>, i: nat, j: nat)
    requires i < j < |SortedRefs(refs)|
    ensures var a, b := SortedRefs(refs)[i], SortedRefs(refs)[j];
            || a == b || Less(a.repository, b.repository)
            || (a.repository == b.repository && a.oid.algorithm == Sha1 && b.oid.algorithm == Sha256)
            || (a.repository == b.repository && a.oid.algorithm == b.oid.algorithm && Less(a.oid.bytes, b.oid.bytes))
  {
    hide Less;
    SortedRefsAreSorted(refs);
    var a, b := SortedRefs(refs)[i], SortedRefs(refs)[j];
    assert AtMost(a, b);
    RefTotal(a, b);
  }

  // Sorting forgets the order the references were given in.
  lemma {:induction false} SortedIsUnique(a: seq<Ref>, b: seq<Ref>)
    requires RefsSorted(a) && RefsSorted(b) && multiset(a) == multiset(b)
    ensures a == b
  {
    hide AtMost, RefsSorted;
    assert |multiset(a)| == |a| && |multiset(b)| == |b|;
    if a != [] {
      HeadIsLeast(a, b[0]);
      HeadIsLeast(b, a[0]);
      AtMostBoth(a[0], b[0]);
      Unheaded(a);
      Unheaded(b);
      TailIsSorted(a);
      TailIsSorted(b);
      SortedIsUnique(a[1..], b[1..]);
      assert a == [a[0]] + a[1..] && b == [b[0]] + b[1..];
    }
  }

  lemma Unheaded(s: seq<Ref>)
    requires s != []
    ensures multiset(s[1..]) == multiset(s) - multiset{s[0]}
  {
    assert s == [s[0]] + s[1..];
  }

  lemma TailIsSorted(s: seq<Ref>)
    requires s != [] && RefsSorted(s)
    ensures RefsSorted(s[1..])
  {
  }

  lemma HeadIsLeast(s: seq<Ref>, r: Ref)
    requires s != [] && RefsSorted(s) && r in multiset(s)
    ensures AtMost(s[0], r)
  {
    var i :| 0 <= i < |s| && s[i] == r;
    RefIrreflexive(r);
  }

  // ---------- The sorted result ----------

  type Pair = (ContentId, ObjectLocation)

  function Ids(pairs: seq<Pair>): set<ContentId> {
    set i | 0 <= i < |pairs| :: pairs[i].0
  }

  predicate Ascending(pairs: seq<Pair>) {
    forall i, j :: 0 <= i < j < |pairs| ==> Less(pairs[i].0, pairs[j].0)
  }

  predicate Lists(pairs: seq<Pair>, m: map<ContentId, ObjectLocation>) {
    && (forall i :: 0 <= i < |pairs| ==> pairs[i].0 in m && m[pairs[i].0] == pairs[i].1)
    && (forall id :: id in m ==> exists i :: 0 <= i < |pairs| && pairs[i].0 == id)
  }

  lemma InsertedAscending(pairs: seq<Pair>, k: nat, p: Pair)
    requires Ascending(pairs) && k <= |pairs|
    requires forall i :: 0 <= i < k ==> Less(pairs[i].0, p.0)
    requires forall i :: k <= i < |pairs| ==> Less(p.0, pairs[i].0)
    ensures Ascending(pairs[..k] + [p] + pairs[k..])
  {
    hide Less;
    var r := pairs[..k] + [p] + pairs[k..];
    forall i, j | 0 <= i < j < |r|
      ensures Less(r[i].0, r[j].0)
    {
      assert r[i] == if i < k then pairs[i] else if i == k then p else pairs[i - 1];
      assert r[j] == if j < k then pairs[j] else if j == k then p else pairs[j - 1];
    }
  }

  lemma InsertedLists(pairs: seq<Pair>, k: nat, p: Pair, m: map<ContentId, ObjectLocation>)
    requires Lists(pairs, m) && k <= |pairs| && p.0 !in m
    ensures Lists(pairs[..k] + [p] + pairs[k..], m[p.0 := p.1])
  {
    var r, grown := pairs[..k] + [p] + pairs[k..], m[p.0 := p.1];
    forall i | 0 <= i < |r|
      ensures r[i].0 in grown && grown[r[i].0] == r[i].1
    {
      if i < k {
        assert r[i] == pairs[i];
      } else if i > k {
        assert r[i] == pairs[i - 1];
      }
    }
    forall id | id in grown
      ensures exists i :: 0 <= i < |r| && r[i].0 == id
    {
      InsertedFinds(pairs, k, p, m, id);
    }
  }

  lemma InsertedFinds(pairs: seq<Pair>, k: nat, p: Pair, m: map<ContentId, ObjectLocation>, id: ContentId)
    requires Lists(pairs, m) && k <= |pairs| && (id == p.0 || id in m)
    ensures var r := pairs[..k] + [p] + pairs[k..]; exists i :: 0 <= i < |r| && r[i].0 == id
  {
    var r := pairs[..k] + [p] + pairs[k..];
    if id == p.0 {
      assert r[k] == p;
    } else {
      var i :| 0 <= i < |pairs| && pairs[i].0 == id;
      var j := if i < k then i else i + 1;
      assert r[j] == pairs[i];
    }
  }

  method InsertPair(pairs: seq<Pair>, p: Pair, ghost m: map<ContentId, ObjectLocation>) returns (r: seq<Pair>)
    requires Ascending(pairs) && Lists(pairs, m) && p.0 !in m
    ensures Ascending(r) && Lists(r, m[p.0 := p.1])
  {
    hide Less;
    var k := 0;
    while k < |pairs| && Less(pairs[k].0, p.0)
      invariant 0 <= k <= |pairs|
      invariant forall i :: 0 <= i < k ==> Less(pairs[i].0, p.0)
    {
      k := k + 1;
    }
    forall i | k <= i < |pairs|
      ensures Less(p.0, pairs[i].0)
    {
      LessTotal(pairs[k].0, p.0);
      if k < i {
        LessTransitive(p.0, pairs[k].0, pairs[i].0);
      }
    }
    InsertedAscending(pairs, k, p);
    InsertedLists(pairs, k, p, m);
    r := pairs[..k] + [p] + pairs[k..];
  }

  // ---------- The walk ----------

  // What the walk has queued, seen and marked.
  datatype Front = Front(queued: nat, pending: seq<Ref>, visited: set<Ref>, locations: map<ContentId, ObjectLocation>)

  function RefsTo(repository: Id16, oids: seq<Oid>): (refs: seq<Ref>)
    ensures |refs| == |oids|
    ensures forall r :: r in refs <==> r.repository == repository && r.oid in oids
  {
    if oids == [] then []
    else
      var n := |oids| - 1;
      assert oids == oids[..n] + [oids[n]];
      RefsTo(repository, oids[..n]) + [Ref(repository, oids[n])]
  }

  class MarkWalk {
    const limits: MarkLimits
    var referencesQueued: nat
    var pending: seq<Ref>
    var visited: set<Ref>
    var locations: map<ContentId, ObjectLocation>

    function View(): Front
      reads this
    {
      Front(referencesQueued, pending, visited, locations)
    }

    constructor (limits: MarkLimits)
      ensures this.limits == limits && View() == Front(0, [], {}, map[])
    {
      this.limits := limits;
      referencesQueued, pending, visited, locations := 0, [], {}, map[];
    }

    method Queue(r: Ref) returns (result: Result<(), MarkError>)
      modifies this`referencesQueued, this`pending
      ensures referencesQueued == old(referencesQueued) + 1
      ensures result == if referencesQueued > limits.maxObjectReferences then Err(TooManyObjectReferences) else Ok(())
      ensures pending == if result.Ok? then old(pending) + [r] else old(pending)
    {
      referencesQueued := referencesQueued + 1;
      if referencesQueued > limits.maxObjectReferences {
        return Err(TooManyObjectReferences);
      }
      pending := pending + [r];
      return Ok(());
    }

    method InsertLocation(id: ContentId, location: ObjectLocation) returns (result: Result<bool, MarkError>)
      modifies this`locations
      ensures id in old(locations) ==> result == Ok(false) && locations == old(locations)
      ensures id !in old(locations) && |old(locations)| >= limits.maxObjects ==>
                result == Err(TooManyObjects) && locations == old(locations)
      ensures id !in old(locations) && |old(locations)| < limits.maxObjects ==>
                result == Ok(true) && locations == old(locations)[id := location]
    {
      if id in locations {
        return Ok(false);
      }
      if |locations| >= limits.maxObjects {
        return Err(TooManyObjects);
      }
      locations := locations[id := location];
      return Ok(true);
    }

    method IntoSortedLocations() returns (pairs: seq<Pair>)
      ensures Ascending(pairs) && Lists(pairs, locations)
    {
      pairs := [];
      var rest := locations.Keys;
      ghost var done: map<ContentId, ObjectLocation> := map[];
      while rest != {}
        invariant rest <= locations.Keys
        invariant done == map id | id in locations && id !in rest :: locations[id]
        invariant Ascending(pairs) && Lists(pairs, done)
        decreases |rest|
      {
        var id :| id in rest;
        rest := rest - {id};
        pairs := InsertPair(pairs, (id, locations[id]), done);
        done := done[id := locations[id]];
      }
      assert done == locations;
    }

    // Queues one repository's references in order, as long as the limit allows.
    method QueueAll(repository: Id16, oids: seq<Oid>) returns (result: Result<(), MarkError>)
      requires referencesQueued <= limits.maxObjectReferences
      modifies this`referencesQueued, this`pending
      ensures result == if old(referencesQueued) + |oids| > limits.maxObjectReferences then Err(TooManyObjectReferences) else Ok(())
      ensures result.Ok? ==>
                pending == old(pending) + RefsTo(repository, oids) && referencesQueued == old(referencesQueued) + |oids|
    {
      for i := 0 to |oids|
        invariant pending == old(pending) + RefsTo(repository, oids[..i])
        invariant referencesQueued == old(referencesQueued) + i <= limits.maxObjectReferences
      {
        assert oids[..i + 1][..i] == oids[..i];
        var queued := Queue(Ref(repository, oids[i]));
        if queued.Err? {
          return queued;
        }
      }
      assert oids[..|oids|] == oids;
      return Ok(());
    }
  }

  // ---------- The mark phase ----------

  // Targets of every Ready snapshot's refs, and the retained references.
  ghost function RootRefs(c: State, manifests: Manifests, retained: seq<Ref>): set<Ref> {
    SnapshotRefs(c, manifests) + set r | r in retained
  }

  ghost function SnapshotRefs(c: State, manifests: Manifests): set<Ref> {
    set key, i | && key in c.snapshots && c.snapshots[key] == Ready && manifests(key.0, key.1).Some?
                 && 0 <= i < |manifests(key.0, key.1).value.refs|
      :: Ref(key.0, manifests(key.0, key.1).value.refs[i].target)
  }

  // A manifest that may seed the walk for its catalog key.
  predicate GoodManifest(manifests: Manifests, repository: Id16, snapshot: Id16) {
    && manifests(repository, snapshot).Some?
    && SnapshotManifest.Valid(manifests(repository, snapshot).value)
    && manifests(repository, snapshot).value.repository == repository
    && manifests(repository, snapshot).value.snapshotId == snapshot
  }

  ghost predicate MarkSet(c: State, h: Hashes, roots: set<Ref>, generation: u32, pairs: seq<Pair>) {
    && Ascending(pairs)
    && (forall i :: 0 <= i < |pairs| ==> InGeneration(c, pairs[i].0, pairs[i].1, generation))
    && Complete(c, h, roots, Ids(pairs))
  }

  function Targets(m: SnapshotManifest.Manifest): seq<Oid> {
    seq(|m.refs|, i requires 0 <= i < |m.refs| => m.refs[i].target)
  }

  ghost function RefsUpTo(manifests: Manifests, roots: seq<GcRoot>): set<Ref> {
    set i, k | && 0 <= i < |roots| && roots[i].RepositorySnapshot?
               && manifests(roots[i].repository, roots[i].snapshot).Some?
               && 0 <= k < |manifests(roots[i].repository, roots[i].snapshot).value.refs|
      :: Ref(roots[i].repository, manifests(roots[i].repository, roots[i].snapshot).value.refs[k].target)
  }

  lemma RefsUpToNext(manifests: Manifests, roots: seq<GcRoot>, root: GcRoot)
    ensures forall r :: r in RefsUpTo(manifests, roots + [root]) <==>
              r in RefsUpTo(manifests, roots) ||
              (&& root.RepositorySnapshot? && manifests(root.repository, root.snapshot).Some?
               && r.repository == root.repository && r.oid in Targets(manifests(root.repository, root.snapshot).value))
  {
    var all := roots + [root];
    assert forall i :: 0 <= i < |roots| ==> all[i] == roots[i];
    forall r
      ensures r in RefsUpTo(manifests, all) <==>
              r in RefsUpTo(manifests, roots) ||
              (&& root.RepositorySnapshot? && manifests(root.repository, root.snapshot).Some?
               && r.repository == root.repository && r.oid in Targets(manifests(root.repository, root.snapshot).value))
    {
      if root.RepositorySnapshot? && manifests(root.repository, root.snapshot).Some? {
        var m := manifests(root.repository, root.snapshot).value;
        if r.repository == root.repository && r.oid in Targets(m) {
          var k :| 0 <= k < |Targets(m)| && Targets(m)[k] == r.oid;
          assert all[|roots|] == root && m.refs[k].target == r.oid;
        }
        if r in RefsUpTo(manifests, all) && r !in RefsUpTo(manifests, roots) {
          var i, k :| && 0 <= i < |all| && all[i].RepositorySnapshot?
                      && manifests(all[i].repository, all[i].snapshot).Some?
                      && 0 <= k < |manifests(all[i].repository, all[i].snapshot).value.refs|
                      && r == Ref(all[i].repository, manifests(all[i].repository, all[i].snapshot).value.refs[k].target);
          assert i == |roots|;
          assert Targets(m)[k] == r.oid;
        }
      }
    }
  }

  function SnapshotCount(roots: seq<GcRoot>): nat {
    if roots == [] then 0
    else SnapshotCount(roots[..|roots| - 1]) + if roots[|roots| - 1].RepositorySnapshot? then 1 else 0
  }

  // How many references the manifests of these roots hold.
  function SeedCount(manifests: Manifests, roots: seq<GcRoot>): nat {
    if roots == [] then 0
    else
      var root := roots[|roots| - 1];
      SeedCount(manifests, roots[..|roots| - 1]) +
      if root.RepositorySnapshot? && manifests(root.repository, root.snapshot).Some?
      then |manifests(root.repository, root.snapshot).value.refs| else 0
  }

  lemma {:induction false} CountsGrow(manifests: Manifests, roots: seq<GcRoot>, i: nat)
    requires i <= |roots|
    ensures SnapshotCount(roots[..i]) <= SnapshotCount(roots) && SeedCount(manifests, roots[..i]) <= SeedCount(manifests, roots)
    decreases |roots| - i
  {
    if i < |roots| {
      CountsGrow(manifests, roots, i + 1);
      assert roots[..i + 1][..i] == roots[..i];
    } else {
      assert roots[..i] == roots;
    }
  }

  // The references of every Ready snapshot, in the order of the roots, failing closed on any
  // unusable manifest.
  function Seeded(limits: MarkLimits, manifests: Manifests, roots: seq<GcRoot>): Result<seq<Ref>, MarkError> {
    if roots == [] then Ok([])
    else
      var before, root := Seeded(limits, manifests, roots[..|roots| - 1]), roots[|roots| - 1];
      if before.Err? || !root.RepositorySnapshot? then before
      else if SnapshotCount(roots) > limits.maxSnapshotRoots then Err(TooManySnapshotRoots)
      else
        var loaded := manifests(root.repository, root.snapshot);
        if loaded.None? || !SnapshotManifest.Valid(loaded.value) then Err(ManifestFailed)
        else if loaded.value.repository != root.repository || loaded.value.snapshotId != root.snapshot then
          Err(ManifestIdentity)
        else if |before.value| + |loaded.value.refs| > limits.maxObjectReferences then Err(TooManyObjectReferences)
        else Ok(before.value + RefsTo(root.repository, Targets(loaded.value)))
  }

  lemma {:induction false} SeededFacts(limits: MarkLimits, manifests: Manifests, roots: seq<GcRoot>)
    ensures var seeds := Seeded(limits, manifests, roots);
            && (seeds.Ok? ==>
                  && |seeds.value| == SeedCount(manifests, roots) && |seeds.value| <= limits.maxObjectReferences
                  && (forall r :: r in seeds.value <==> r in RefsUpTo(manifests, roots))
                  && forall i :: 0 <= i < |roots| && roots[i].RepositorySnapshot? ==>
                       GoodManifest(manifests, roots[i].repository, roots[i].snapshot))
            && (Seedable(limits, manifests, roots) <==> seeds.Ok?)
  {
    hide RefsUpTo, SnapshotManifest.Valid;
    if roots == [] {
      NoRefs(manifests);
    } else {
      var init, root := roots[..|roots| - 1], roots[|roots| - 1];
      SeededFacts(limits, manifests, init);
      RefsUpToNext(manifests, init, root);
      assert init + [root] == roots;
      CountsGrow(manifests, roots, |roots| - 1);
    }
  }

  // Each way the manifests can stop a mark says what is wrong with them.
  lemma {:induction false} SeedErrorMeans(limits: MarkLimits, manifests: Manifests, roots: seq<GcRoot>)
    requires Seeded(limits, manifests, roots).Err?
    ensures match Seeded(limits, manifests, roots).error
            case TooManySnapshotRoots => SnapshotCount(roots) > limits.maxSnapshotRoots
            case TooManyObjectReferences => SeedCount(manifests, roots) > limits.maxObjectReferences
            case ManifestFailed =>
              exists i :: 0 <= i < |roots| && roots[i].RepositorySnapshot?
                          && (var m := manifests(roots[i].repository, roots[i].snapshot); m.None? || !SnapshotManifest.Valid(m.value))
            case ManifestIdentity =>
              exists i :: 0 <= i < |roots| && roots[i].RepositorySnapshot?
                          && (var m := manifests(roots[i].repository, roots[i].snapshot);
                              m.Some? && (m.value.repository != roots[i].repository || m.value.snapshotId != roots[i].snapshot))
            case _ => false
  {
    hide SnapshotManifest.Valid, RefsTo;
    var n := |roots| - 1;
    var init := roots[..n];
    CountsGrow(manifests, roots, n);
    if Seeded(limits, manifests, init).Err? {
      SeedErrorMeans(limits, manifests, init);
      assert forall i :: 0 <= i < n ==> init[i] == roots[i];
    } else {
      SeededFacts(limits, manifests, init);
    }
  }

  lemma {:induction false} StaysUnseeded(limits: MarkLimits, manifests: Manifests, roots: seq<GcRoot>, n: nat)
    requires n <= |roots| && Seeded(limits, manifests, roots[..n]).Err?
    ensures Seeded(limits, manifests, roots) == Seeded(limits, manifests, roots[..n])
    decreases |roots|
  {
    if n == |roots| {
      assert roots[..n] == roots;
    } else {
      var init := roots[..|roots| - 1];
      assert init[..n] == roots[..n];
      StaysUnseeded(limits, manifests, init, n);
    }
  }

  method SeedSnapshots(walk: MarkWalk, roots: seq<GcRoot>, manifests: Manifests) returns (result: Result<(), MarkError>)
    requires walk.View() == Front(0, [], {}, map[])
    modifies walk`referencesQueued, walk`pending
    ensures Seeded(walk.limits, manifests, roots).Err? ==> result == Err(Seeded(walk.limits, manifests, roots).error)
    ensures Seeded(walk.limits, manifests, roots).Ok? ==>
              var seeds := Seeded(walk.limits, manifests, roots).value;
              result == Ok(()) && walk.View() == Front(|seeds|, seeds, {}, map[])
  {
    hide SnapshotManifest.Valid, RefsTo;
    var snapshotRoots := 0;
    for i := 0 to |roots|
      invariant snapshotRoots == SnapshotCount(roots[..i])
      invariant Seeded(walk.limits, manifests, roots[..i]) == Ok(walk.pending)
      invariant walk.referencesQueued == |walk.pending| <= walk.limits.maxObjectReferences
    {
      var root := roots[i];
      assert roots[..i + 1][..i] == roots[..i];
      if Seeded(walk.limits, manifests, roots[..i + 1]).Err? {
        StaysUnseeded(walk.limits, manifests, roots, i + 1);
      }
      if root.RepositorySnapshot? {
        snapshotRoots := snapshotRoots + 1;
        if snapshotRoots > walk.limits.maxSnapshotRoots {
          return Err(TooManySnapshotRoots);
        }
        var loaded := manifests(root.repository, root.snapshot);
        if loaded.None? {
          return Err(ManifestFailed);
        }
        var problem := SnapshotManifest.Validate(loaded.value);
        if problem.Some? {
          return Err(ManifestFailed);
        }
        if loaded.value.repository != root.repository || loaded.value.snapshotId != root.snapshot {
          return Err(ManifestIdentity);
        }
        var queued := walk.QueueAll(root.repository, Targets(loaded.value));
        if queued.Err? {
          return queued;
        }
      }
    }
    assert roots[..|roots|] == roots;
    return Ok(());
  }

  // Every manifest is usable, and they are few and small enough.
  predicate Seedable(limits: MarkLimits, manifests: Manifests, roots: seq<GcRoot>) {
    && SnapshotCount(roots) <= limits.maxSnapshotRoots && SeedCount(manifests, roots) <= limits.maxObjectReferences
    && forall i :: 0 <= i < |roots| && roots[i].RepositorySnapshot? ==>
         GoodManifest(manifests, roots[i].repository, roots[i].snapshot)
  }

  lemma NoRefs(manifests: Manifests)
    ensures RefsUpTo(manifests, []) == {}
  {
  }

  lemma EnumeratedRefs(c: State, roots: seq<GcRoot>, manifests: Manifests)
    requires EnumeratesRoots(c, roots)
    ensures RefsUpTo(manifests, roots) == SnapshotRefs(c, manifests)
  {
    forall r | r in RefsUpTo(manifests, roots)
      ensures r in SnapshotRefs(c, manifests)
    {
      var i, k :| && 0 <= i < |roots| && roots[i].RepositorySnapshot?
                  && manifests(roots[i].repository, roots[i].snapshot).Some?
                  && 0 <= k < |manifests(roots[i].repository, roots[i].snapshot).value.refs|
                  && r == Ref(roots[i].repository, manifests(roots[i].repository, roots[i].snapshot).value.refs[k].target);
      assert RepositorySnapshot(roots[i].repository, roots[i].snapshot) in roots;
      var key := (roots[i].repository, roots[i].snapshot);
      assert key in c.snapshots;
    }
    forall r | r in SnapshotRefs(c, manifests)
      ensures r in RefsUpTo(manifests, roots)
    {
      var key, k :| && key in c.snapshots && c.snapshots[key] == Ready && manifests(key.0, key.1).Some?
                    && 0 <= k < |manifests(key.0, key.1).value.refs|
                    && r == Ref(key.0, manifests(key.0, key.1).value.refs[k].target);
      assert RepositorySnapshot(key.0, key.1) in roots;
      var i :| 0 <= i < |roots| && roots[i] == RepositorySnapshot(key.0, key.1);
    }
  }

  function MarkCodecError(id: ContentId, error: CodecError): MarkError {
    match error
    case Io => ReadFailed
    case RawLengthMismatch(expected, actual) => PayloadLengthMismatch(id, expected, actual)
    case ContentMismatch => PayloadContentIdMismatch(id)
  }

  // Reads and checks one referenced object, one check after another.
  function ReadObject(
    c: State, h: Hashes, generation: u32, r: Ref, reader: Reader, call: nat
  ): (result: Result<(Visit, ObjectLocation), MarkError>)
    ensures result.Ok? ==>
              var (v, location) := result.value;
              && v.r == r && Names(c, h, r, v.kind, v.raw) && h.gitOid(r.oid.algorithm, v.kind, v.raw) == r.oid
              && InGeneration(c, Alias(c, r), location, generation)
  {
    if !Aliased(c, r) then Err(MissingAlias(r)) else
    var id := Alias(c, r);
    if id !in c.locations then Err(MissingLocation(id)) else
    var location := c.locations[id];
    if location.generation != generation then Err(LocationOutsideCurrentGeneration(id)) else
    var read := reader(call, id, location);
    if read.None? then Err(ReadFailed)
    else if read.value.contentId != id then Err(RecordContentIdMismatch(id, read.value.contentId)) else
    var raw := DecodeObjectPayload(h, read.value);
    if raw.Err? then Err(MarkCodecError(id, raw.error)) else
    var actual := h.gitOid(r.oid.algorithm, read.value.kind, raw.value);
    if actual != r.oid then Err(NativeOidMismatch(r.oid, actual))
    else Ok((Visit(r, read.value.kind, raw.value), location))
  }

  // An object that is stored in the generation, plain or compressed, under its content and native
  // IDs is read back as itself.
  lemma StoredObjectIsRead(
    c: State, h: Hashes, generation: u32, r: Ref, reader: Reader, call: nat, kind: ObjectKind, raw: seq<byte>)
    requires Names(c, h, r, kind, raw) && h.gitOid(r.oid.algorithm, kind, raw) == r.oid
    requires Alias(c, r) in c.locations && c.locations[Alias(c, r)].generation == generation
    requires var record := reader(call, Alias(c, r), c.locations[Alias(c, r)]);
             && record.Some? && record.value.kind == kind && record.value.rawLength == |raw|
             && record.value.contentId == Alias(c, r)
             && Unpacked(h, record.value.codec, record.value.payload) == Some(raw)
    ensures ReadObject(c, h, generation, r, reader, call) == Ok((Visit(r, kind, raw), c.locations[Alias(c, r)]))
  {
    PayloadDecodesExactly(h, reader(call, Alias(c, r), c.locations[Alias(c, r)]).value);
  }

  // Each way a read can fail says what is wrong with the reference, its location or its record.
  lemma ReadErrorMeans(c: State, h: Hashes, generation: u32, r: Ref, reader: Reader, call: nat)
    requires ReadObject(c, h, generation, r, reader, call).Err?
    ensures match ReadObject(c, h, generation, r, reader, call).error
            case MissingAlias(missing) => missing == r && !Aliased(c, r)
            case MissingLocation(id) => Aliased(c, r) && id == Alias(c, r) && id !in c.locations
            case LocationOutsideCurrentGeneration(id) =>
              Aliased(c, r) && id == Alias(c, r) && id in c.locations && c.locations[id].generation != generation
            case error =>
              && Aliased(c, r) && Alias(c, r) in c.locations && c.locations[Alias(c, r)].generation == generation
              && RecordFails(h, r, Alias(c, r), reader(call, Alias(c, r), c.locations[Alias(c, r)]), error)
  {
    if Aliased(c, r) && Alias(c, r) in c.locations {
      var record := reader(call, Alias(c, r), c.locations[Alias(c, r)]);
      if record.Some? {
        PayloadDecodesExactly(h, record.value);
      }
    }
  }

  predicate RecordFails(h: Hashes, r: Ref, id: ContentId, record: Option<ObjectRecord>, error: MarkError) {
    if record.None? then error == ReadFailed
    else
      var plain := Unpacked(h, record.value.codec, record.value.payload);
      match error
      case ReadFailed => plain.None? || |plain.value| > record.value.rawLength
      case RecordContentIdMismatch(expected, actual) => expected == id && actual == record.value.contentId != id
      case PayloadLengthMismatch(at, expected, actual) =>
        at == id && expected == record.value.rawLength && plain.Some? && actual == |plain.value| < expected
      case PayloadContentIdMismatch(at) => at == id && plain.Some? && h.contentId(record.value.kind, plain.value) != id
      case NativeOidMismatch(expected, actual) =>
        expected == r.oid && plain.Some? && actual == h.gitOid(r.oid.algorithm, record.value.kind, plain.value) != r.oid
      case _ => false
  }

  // Everything reachable reads back well, whatever call reads it, and has at most `most` children.
  ghost predicate Sound(c: State, h: Hashes, roots: set<Ref>, generation: u32, reader: Reader, most: nat) {
    forall r, n :: Reachable(c, h, roots, r) ==>
      var read := ReadObject(c, h, generation, r, reader, n);
      && read.Ok?
      && var v := read.value.0;
         var children := Git.ReferencedOids(Git.GitObject(r.oid, v.kind, v.raw));
         children.Ok? && |children.value| <= most
  }

  // A store with nothing to complain about: usable manifests, sound objects, and limits with room
  // for every object and every reference.
  ghost predicate Healthy(
    c: State, h: Hashes, roots: seq<GcRoot>, manifests: Manifests, reader: Reader, retained: seq<Ref>,
    limits: MarkLimits, most: nat)
  {
    && c.current.Some? && Seedable(limits, manifests, roots) && |c.locations| <= limits.maxObjects
    && Sound(c, h, RootRefs(c, manifests, retained), c.current.value, reader, most)
    && Budget(SeedCount(manifests, roots) + |retained|, most, |c.locations|) <= limits.maxObjectReferences
  }

  lemma ReadsSoundly(c: State, h: Hashes, roots: set<Ref>, generation: u32, reader: Reader, most: nat, r: Ref, n: nat)
    requires Reachable(c, h, roots, r)
    ensures Sound(c, h, roots, generation, reader, most) ==>
              var read := ReadObject(c, h, generation, r, reader, n);
              && read.Ok?
              && var v := read.value.0;
                 var children := Git.ReferencedOids(Git.GitObject(r.oid, v.kind, v.raw));
                 children.Ok? && |children.value| <= most
  {
    hide Reachable, ReadObject;
  }

  // References queued at most after `marked` objects.
  ghost function Budget(seeds: nat, most: nat, marked: nat): nat { seeds + most * marked }

  // A new mark leaves room in both limits.
  lemma MarkHasRoom(
    c: State, locations: map<ContentId, ObjectLocation>, id: ContentId, generation: u32, most: nat, queued: nat, seeds: nat)
    requires forall x :: x in locations ==> InGeneration(c, x, locations[x], generation)
    requires id in c.locations && id !in locations && queued <= Budget(seeds, most, |locations|)
    ensures |locations| < |c.locations|
    ensures queued + most <= Budget(seeds, most, |c.locations|)
    ensures queued + most <= Budget(seeds, most, |locations| + 1)
  {
    hide Budget;
    assert locations.Keys + {id} <= c.locations.Keys;
    SubsetSize(locations.Keys + {id}, c.locations.Keys);
    assert |locations.Keys + {id}| == |locations| + 1;
    BudgetGrows(seeds, most, |locations|, |locations|);
    BudgetGrows(seeds, most, |locations| + 1, |c.locations|);
  }

  lemma BudgetGrows(seeds: nat, most: nat, a: nat, b: nat)
    requires a <= b
    ensures Budget(seeds, most, a) <= Budget(seeds, most, b)
    ensures Budget(seeds, most, a + 1) == Budget(seeds, most, a) + most
  {
    Scaled(most, a, b);
    Scaled(most, a, a + 1);
  }

  lemma SubsetSize(a: set<ContentId>, b: set<ContentId>)
    requires a <= b
    ensures |a| <= |b|
  {
    assert b == a + (b - a);
  }

  lemma Scaled(k: nat, a: nat, b: nat)
    requires a <= b
    ensures k * a <= k * b && k * (a + 1) == k * a + k
  {
  }

  // Every Ready snapshot's targets, then the retained references in their sorted order.
  function Started(limits: MarkLimits, manifests: Manifests, roots: seq<GcRoot>, retained: seq<Ref>)
    : (start: Result<Front, MarkError>)
    ensures start.Ok? ==> start.value.queued <= limits.maxObjectReferences
  {
    var seeds := Seeded(limits, manifests, roots);
    if seeds.Err? then Err(seeds.error)
    else if |seeds.value| + |retained| > limits.maxObjectReferences then Err(TooManyObjectReferences)
    else Ok(Front(|seeds.value| + |retained|, seeds.value + SortedRefs(retained), {}, map[]))
  }

  lemma SortedSize(refs: seq<Ref>)
    ensures |SortedRefs(refs)| == |refs| && forall r :: r in SortedRefs(refs) <==> r in refs
  {
    assert |multiset(SortedRefs(refs))| == |multiset(refs)|;
    assert forall r :: r in SortedRefs(refs) <==> r in multiset(SortedRefs(refs));
    assert forall r :: r in refs <==> r in multiset(refs);
  }

  lemma StartedFacts(c: State, limits: MarkLimits, manifests: Manifests, roots: seq<GcRoot>, retained: seq<Ref>)
    requires EnumeratesRoots(c, roots)
    ensures var start := Started(limits, manifests, roots, retained);
            && (start.Ok? ==>
                  && start.value.queued == SeedCount(manifests, roots) + |retained|
                  && start.value.visited == {} && start.value.locations == map[]
                  && (forall r :: r in start.value.pending <==> r in RootRefs(c, manifests, retained))
                  && forall key :: key in c.snapshots && c.snapshots[key] == Ready ==> GoodManifest(manifests, key.0, key.1))
            && (Seedable(limits, manifests, roots) && SeedCount(manifests, roots) + |retained| <= limits.maxObjectReferences ==>
                  start.Ok?)
  {
    hide RefsUpTo, SnapshotRefs, EnumeratesRoots, GoodManifest, Seedable, SeedCount, Seeded;
    SeededFacts(limits, manifests, roots);
    EnumeratedRefs(c, roots, manifests);
    SortedSize(retained);
    if Seeded(limits, manifests, roots).Ok? {
      ReadyAreGood(c, roots, manifests);
    }
  }

  method SeedWalk(roots: seq<GcRoot>, manifests: Manifests, retained: seq<Ref>, limits: MarkLimits)
      returns (result: Result<MarkWalk, MarkError>)
    ensures Started(limits, manifests, roots, retained).Err? ==>
              result == Err(Started(limits, manifests, roots, retained).error)
    ensures Started(limits, manifests, roots, retained).Ok? ==>
              && result.Ok? && fresh(result.value) && result.value.limits == limits
              && result.value.View() == Started(limits, manifests, roots, retained).value
  {
    hide Seeded, SortedRefs;
    var walk := new MarkWalk(limits);
    var seeded := SeedSnapshots(walk, roots, manifests);
    if seeded.Err? {
      return Err(seeded.error);
    }
    if |retained| > limits.maxObjectReferences {
      return Err(TooManyObjectReferences);
    }
    ghost var seeds := walk.pending;
    var sorted := SortedRefs(retained);
    SortedSize(retained);
    SeededFacts(limits, manifests, roots);
    for i := 0 to |sorted|
      invariant walk.View() == Front(|seeds| + i, seeds + sorted[..i], {}, map[])
      invariant |seeds| + i <= limits.maxObjectReferences && walk.limits == limits && fresh(walk)
    {
      var queued := walk.Queue(sorted[i]);
      if queued.Err? {
        return Err(queued.error);
      }
      assert sorted[..i + 1] == sorted[..i] + [sorted[i]];
    }
    assert sorted[..|sorted|] == sorted;
    return Ok(walk);
  }

  // The limits leave room for everything still to come.
  ghost predicate Roomy(c: State, limits: MarkLimits, most: nat, seeds: nat) {
    |c.locations| <= limits.maxObjects && Budget(seeds, most, |c.locations|) <= limits.maxObjectReferences
  }

  // What visiting one popped reference makes of the walk: its object is read and, if it is new,
  // marked, and its children queued.
  function Visited(
    c: State, h: Hashes, generation: u32, reader: Reader, limits: MarkLimits, call: nat, s: Front, r: Ref
  ): (result: Result<Front, MarkError>)
    requires s.queued <= limits.maxObjectReferences
    ensures result.Ok? ==>
              && result.value.queued <= limits.maxObjectReferences
              && result.value.queued - |result.value.pending| == s.queued - |s.pending|
  {
    var read := ReadObject(c, h, generation, r, reader, call);
    if read.Err? then Err(read.error)
    else
      var (v, location) := read.value;
      var id, seen := Alias(c, r), s.visited + {r};
      if id in s.locations then Ok(s.(visited := seen))
      else if |s.locations| >= limits.maxObjects then Err(TooManyObjects)
      else
        var children := Git.ReferencedOids(Git.GitObject(r.oid, v.kind, v.raw));
        if children.Err? then Err(InvalidGitObject)
        else if s.queued + |children.value| > limits.maxObjectReferences then Err(TooManyObjectReferences)
        else
          Ok(Front(s.queued + |children.value|, s.pending + RefsTo(r.repository, children.value), seen,
                   s.locations[id := location]))
  }

  // Each way a visit can fail: a read that fails, too many objects or references, or an object
  // whose references cannot be parsed.
  lemma VisitErrorMeans(
    c: State, h: Hashes, generation: u32, reader: Reader, limits: MarkLimits, call: nat, s: Front, r: Ref)
    requires s.queued <= limits.maxObjectReferences && Visited(c, h, generation, reader, limits, call, s, r).Err?
    ensures var error, read := Visited(c, h, generation, reader, limits, call, s, r).error,
                               ReadObject(c, h, generation, r, reader, call);
            && (read.Err? ==> error == read.error)
            && (read.Ok? ==>
                  var children := Git.ReferencedOids(Git.GitObject(r.oid, read.value.0.kind, read.value.0.raw));
                  && Alias(c, r) !in s.locations
                  && (error == TooManyObjects <==> |s.locations| >= limits.maxObjects)
                  && (error == InvalidGitObject <==> |s.locations| < limits.maxObjects && children.Err?)
                  && (error == TooManyObjectReferences <==>
                        |s.locations| < limits.maxObjects && children.Ok?
                        && s.queued + |children.value| > limits.maxObjectReferences))
  {
    hide ReadObject, Git.ReferencedOids, RefsTo;
  }

  // The whole walk from here on.
  function Walked(
    c: State, h: Hashes, generation: u32, reader: Reader, limits: MarkLimits, s: Front, call: nat
  ): Result<map<ContentId, ObjectLocation>, MarkError>
    requires s.queued <= limits.maxObjectReferences
    decreases limits.maxObjectReferences - s.queued + |s.pending|
  {
    if s.pending == [] then Ok(s.locations)
    else
      var r, popped := s.pending[0], s.(pending := s.pending[1..]);
      if r in s.visited then Walked(c, h, generation, reader, limits, popped, call)
      else
        var next := Visited(c, h, generation, reader, limits, call, popped, r);
        if next.Err? then Err(next.error) else Walked(c, h, generation, reader, limits, next.value, call + 1)
  }

  // A walk that ends has marked no more objects than it may.
  lemma {:induction false} WalkedWithinLimits(
    c: State, h: Hashes, generation: u32, reader: Reader, limits: MarkLimits, s: Front, call: nat)
    requires s.queued <= limits.maxObjectReferences && |s.locations| <= limits.maxObjects
    ensures var walked := Walked(c, h, generation, reader, limits, s, call);
            walked.Ok? ==> |walked.value| <= limits.maxObjects
    decreases limits.maxObjectReferences - s.queued + |s.pending|
  {
    hide ReadObject, Git.ReferencedOids, RefsTo;
    if s.pending != [] {
      var r, popped := s.pending[0], s.(pending := s.pending[1..]);
      if r in s.visited {
        WalkedWithinLimits(c, h, generation, reader, limits, popped, call);
      } else {
        var next := Visited(c, h, generation, reader, limits, call, popped, r);
        if next.Ok? {
          WalkedWithinLimits(c, h, generation, reader, limits, next.value, call + 1);
        }
      }
    }
  }

  // The mark phase as a function of everything it is given: what is marked, and where.
  function MarkRun(
    c: State, roots: Option<seq<GcRoot>>, manifests: Manifests, reader: Reader, h: Hashes, retained: seq<Ref>,
    limits: MarkLimits): Result<map<ContentId, ObjectLocation>, MarkError>
  {
    if c.current.None? then Err(NoCurrentGeneration)
    else if roots.None? then Err(CatalogFailed)
    else
      var start := Started(limits, manifests, roots.value, retained);
      if start.Err? then Err(start.error) else Walked(c, h, c.current.value, reader, limits, start.value, 0)
  }

  lemma NothingToMark(
    c: State, roots: Option<seq<GcRoot>>, manifests: Manifests, reader: Reader, h: Hashes, retained: seq<Ref>,
    limits: MarkLimits)
    requires c.current.None?
    ensures MarkRun(c, roots, manifests, reader, h, retained, limits) == Err(NoCurrentGeneration)
  {
  }

  // A mark that succeeds had a current generation, usable manifests within the limits, and no
  // more objects and seeds than it may have.
  lemma MarkedWithinLimits(
    c: State, roots: Option<seq<GcRoot>>, manifests: Manifests, reader: Reader, h: Hashes, retained: seq<Ref>,
    limits: MarkLimits)
    requires MarkRun(c, roots, manifests, reader, h, retained, limits).Ok?
    ensures c.current.Some? && roots.Some? && Seedable(limits, manifests, roots.value)
    ensures SeedCount(manifests, roots.value) + |retained| <= limits.maxObjectReferences
    ensures |MarkRun(c, roots, manifests, reader, h, retained, limits).value| <= limits.maxObjects
  {
    hide Walked, Seedable, Seeded, SeedCount;
    SeededFacts(limits, manifests, roots.value);
    WalkedWithinLimits(c, h, c.current.value, reader, limits, Started(limits, manifests, roots.value, retained).value, 0);
  }

  // The order in which the retained references are given makes no difference.
  lemma RetainedOrderIsIrrelevant(
    c: State, roots: Option<seq<GcRoot>>, manifests: Manifests, reader: Reader, h: Hashes, retained: seq<Ref>,
    shuffled: seq<Ref>, limits: MarkLimits)
    requires multiset(retained) == multiset(shuffled)
    ensures MarkRun(c, roots, manifests, reader, h, retained, limits)
            == MarkRun(c, roots, manifests, reader, h, shuffled, limits)
  {
    hide Walked, Seeded;
    SortedRefsAreSorted(retained);
    SortedRefsAreSorted(shuffled);
    SortedIsUnique(SortedRefs(retained), SortedRefs(shuffled));
    assert |multiset(retained)| == |retained| && |multiset(shuffled)| == |shuffled|;
  }

  method VisitReference(
    walk: MarkWalk, c: State, h: Hashes, generation: u32, reader: Reader, call: nat, r: Ref)
      returns (result: Result<(), MarkError>)
    requires walk.referencesQueued <= walk.limits.maxObjectReferences
    modifies walk
    ensures var visited := Visited(c, h, generation, reader, walk.limits, call, old(walk.View()), r);
            && (visited.Err? ==> result == Err(visited.error))
            && (visited.Ok? ==> result == Ok(()) && walk.View() == visited.value)
  {
    hide ReadObject, Git.ReferencedOids, RefsTo;
    walk.visited := walk.visited + {r};
    var read := ReadObject(c, h, generation, r, reader, call);
    if read.Err? {
      return Err(read.error);
    }
    var (v, location) := read.value;
    var inserted := walk.InsertLocation(Alias(c, r), location);
    if inserted.Err? {
      return Err(inserted.error);
    }
    if !inserted.value {
      return Ok(());
    }
    var children := Git.ReferencedOids(Git.GitObject(r.oid, v.kind, v.raw));
    if children.Err? {
      return Err(InvalidGitObject);
    }
    var queued := walk.QueueAll(r.repository, children.value);
    if queued.Err? {
      return Err(queued.error);
    }
    return Ok(());
  }

  lemma VisitKeepsWalking(
    c: State, h: Hashes, roots: set<Ref>, generation: u32, reader: Reader, limits: MarkLimits, call: nat, s: Front, r: Ref,
    known: set<Ref>, first: map<ContentId, Visit>)
      returns (grown: set<Ref>, visits: map<ContentId, Visit>)
    requires Walking(c, h, roots, generation, known, s.visited, s.locations, first)
    requires r in known && Frontier(s.pending, s.visited + {r}, known) && s.queued <= limits.maxObjectReferences
    requires Visited(c, h, generation, reader, limits, call, s, r).Ok?
    ensures var next := Visited(c, h, generation, reader, limits, call, s, r).value;
            && Walking(c, h, roots, generation, grown, next.visited, next.locations, visits)
            && Frontier(next.pending, next.visited, grown)
  {
    hide Walking, ReadObject, Frontier, Git.ReferencedOids, RefsTo;
    var (v, location) := ReadObject(c, h, generation, r, reader, call).value;
    var id := Alias(c, r);
    if id in s.locations {
      WalkRevisits(c, h, roots, generation, known, s.visited, s.locations, first, r);
      grown, visits := known, first;
    } else {
      var children := Git.ReferencedOids(Git.GitObject(r.oid, v.kind, v.raw)).value;
      var more := ChildRefs(r.repository, children);
      FrontierGrows(s.pending, s.pending + RefsTo(r.repository, children), s.visited + {r}, known, r.repository, children);
      WalkMarks(c, h, roots, generation, known, s.visited, s.locations, first, v, id, location, more);
      grown, visits := known + more, first[id := v];
    }
  }

  // On a sound store with room in the limits a visit succeeds and leaves room.
  lemma VisitSucceeds(
    c: State, h: Hashes, roots: set<Ref>, generation: u32, reader: Reader, limits: MarkLimits, call: nat, s: Front, r: Ref,
    known: set<Ref>, first: map<ContentId, Visit>, most: nat, seeds: nat)
    requires Walking(c, h, roots, generation, known, s.visited, s.locations, first) && r in known
    requires s.queued <= limits.maxObjectReferences
    requires Sound(c, h, roots, generation, reader, most) && Roomy(c, limits, most, seeds)
    requires s.queued <= Budget(seeds, most, |s.locations|)
    ensures var next := Visited(c, h, generation, reader, limits, call, s, r);
            next.Ok? && next.value.queued <= Budget(seeds, most, |next.value.locations|)
  {
    hide Walking, Sound, ReadObject, Budget, Reachable, Git.ReferencedOids, RefsTo;
    KnownIsReachable(c, h, roots, generation, known, s.visited, s.locations, first, r);
    ReadsSoundly(c, h, roots, generation, reader, most, r, call);
    var id := Alias(c, r);
    if id !in s.locations {
      MarkHasRoom(c, s.locations, id, generation, most, s.queued, seeds);
    }
  }

  // Pops and visits until nothing is pending.
  method Drain(
    walk: MarkWalk, c: State, h: Hashes, generation: u32, reader: Reader,
    ghost roots: set<Ref>, ghost most: nat, ghost seeds: nat)
      returns (result: Result<(), MarkError>)
    requires walk.referencesQueued <= walk.limits.maxObjectReferences
    requires walk.visited == {} && walk.locations == map[] && forall r :: r in walk.pending <==> r in roots
    modifies walk
    ensures var run := Walked(c, h, generation, reader, walk.limits, old(walk.View()), 0);
            (run.Err? ==> result == Err(run.error)) && (run.Ok? ==> result == Ok(()) && walk.locations == run.value)
    ensures result.Ok? ==>
              && Complete(c, h, roots, walk.locations.Keys)
              && forall id :: id in walk.locations ==> InGeneration(c, id, walk.locations[id], generation)
    ensures (&& Sound(c, h, roots, generation, reader, most) && Roomy(c, walk.limits, most, seeds)
             && old(walk.referencesQueued) <= Budget(seeds, most, 0)) ==> result.Ok?
  {
    hide Walking, Complete, Sound, Visited, Frontier, Budget, InGeneration, Roomy;
    ghost var start, limits := walk.View(), walk.limits;
    ghost var healthy := Sound(c, h, roots, generation, reader, most) && Roomy(c, limits, most, seeds)
                         && walk.referencesQueued <= Budget(seeds, most, 0);
    ghost var known, first: map<ContentId, Visit> := roots, map[];
    WalkStarts(c, h, generation, roots);
    StartsAtFrontier(start, roots);
    var calls := 0;
    while walk.pending != []
      invariant walk.referencesQueued <= limits.maxObjectReferences
      invariant Walked(c, h, generation, reader, limits, start, 0)
                == Walked(c, h, generation, reader, limits, walk.View(), calls)
      invariant Frontier(walk.pending, walk.visited, known)
      invariant Walking(c, h, roots, generation, known, walk.visited, walk.locations, first)
      invariant healthy ==> walk.referencesQueued <= Budget(seeds, most, |walk.locations|)
      decreases limits.maxObjectReferences - walk.referencesQueued + |walk.pending|
    {
      var r := walk.pending[0];
      FrontierPops(walk.pending, walk.visited, known);
      walk.pending := walk.pending[1..];
      if r in walk.visited {
        assert walk.visited + {r} == walk.visited;
      } else {
        ghost var s := walk.View();
        if healthy {
          VisitSucceeds(c, h, roots, generation, reader, limits, calls, s, r, known, first, most, seeds);
        }
        var visited := VisitReference(walk, c, h, generation, reader, calls, r);
        if visited.Err? {
          return visited;
        }
        known, first := VisitKeepsWalking(c, h, roots, generation, reader, limits, calls, s, r, known, first);
        calls := calls + 1;
      }
    }
    AllVisited(walk.visited, known);
    WalkEnds(c, h, roots, generation, walk.visited, walk.locations, first);
    return Ok(());
  }

  method CompletedMarkSet(
    c: State, roots: Option<seq<GcRoot>>, manifests: Manifests, reader: Reader, h: Hashes, retained: seq<Ref>,
    limits: MarkLimits) returns (result: Result<seq<Pair>, MarkError>)
    requires roots.Some? ==> EnumeratesRoots(c, roots.value)
    // The result is the run's, listed in order.
    ensures var run := MarkRun(c, roots, manifests, reader, h, retained, limits);
            && (run.Err? ==> result == Err(run.error))
            && (run.Ok? ==> result.Ok? && Ascending(result.value) && Lists(result.value, run.value))
    ensures result.Ok? ==> c.current.Some? && MarkSet(c, h, RootRefs(c, manifests, retained), c.current.value, result.value)
    ensures result.Ok? ==>
              forall key :: key in c.snapshots && c.snapshots[key] == Ready ==> GoodManifest(manifests, key.0, key.1)
    // A healthy store is always marked.
    ensures roots.Some? && (exists most :: Healthy(c, h, roots.value, manifests, reader, retained, limits, most)) ==> result.Ok?
  {
    hide RootRefs, EnumeratesRoots, GoodManifest, Complete, Sound, Seedable, SeedCount, Started, Budget, InGeneration, Roomy,
      Walked;
    if c.current.None? {
      return Err(NoCurrentGeneration);
    }
    if roots.None? {
      return Err(CatalogFailed);
    }
    var generation := c.current.value;
    ghost var most: nat :| (exists m :: Healthy(c, h, roots.value, manifests, reader, retained, limits, m))
                           ==> Healthy(c, h, roots.value, manifests, reader, retained, limits, most);
    ghost var seeds := SeedCount(manifests, roots.value) + |retained|;
    HealthyHasSeeds(c, h, roots.value, manifests, reader, retained, limits, most);
    StartedFacts(c, limits, manifests, roots.value, retained);
    var seeded := SeedWalk(roots.value, manifests, retained, limits);
    if seeded.Err? {
      return Err(seeded.error);
    }
    var walk := seeded.value;
    ghost var rootRefs := RootRefs(c, manifests, retained);
    var drained := Drain(walk, c, h, generation, reader, rootRefs, most, seeds);
    if drained.Err? {
      return Err(drained.error);
    }
    var pairs := walk.IntoSortedLocations();
    MarkSetFromWalk(c, h, rootRefs, generation, walk.locations, pairs);
    return Ok(pairs);
  }

  lemma StartsAtFrontier(start: Front, roots: set<Ref>)
    requires start.visited == {} && forall r :: r in start.pending <==> r in roots
    ensures Frontier(start.pending, start.visited, roots)
  {
  }

  lemma AllVisited(visited: set<Ref>, known: set<Ref>)
    requires Frontier([], visited, known)
    ensures known == visited
  {
  }

  lemma HealthyHasSeeds(
    c: State, h: Hashes, roots: seq<GcRoot>, manifests: Manifests, reader: Reader, retained: seq<Ref>,
    limits: MarkLimits, most: nat)
    requires c.current.Some?
    ensures Healthy(c, h, roots, manifests, reader, retained, limits, most) ==>
              && Seedable(limits, manifests, roots)
              && SeedCount(manifests, roots) + |retained| <= limits.maxObjectReferences
              && Roomy(c, limits, most, SeedCount(manifests, roots) + |retained|)
              && Sound(c, h, RootRefs(c, manifests, retained), c.current.value, reader, most)
    ensures Budget(SeedCount(manifests, roots) + |retained|, most, 0) == SeedCount(manifests, roots) + |retained|
  {
    hide Sound, Seedable, SeedCount, RootRefs;
    assert most * |c.locations| >= 0;
  }

  lemma KnownIsReachable(
    c: State, h: Hashes, roots: set<Ref>, generation: u32,
    known: set<Ref>, visited: set<Ref>, locations: map<ContentId, ObjectLocation>, first: map<ContentId, Visit>, r: Ref)
    requires Walking(c, h, roots, generation, known, visited, locations, first) && r in known
    ensures Reachable(c, h, roots, r)
    ensures forall id :: id in locations ==> InGeneration(c, id, locations[id], generation)
  {
    hide Reachable, Followed;
  }

  lemma ReadyAreGood(c: State, roots: seq<GcRoot>, manifests: Manifests)
    requires EnumeratesRoots(c, roots)
    requires forall i :: 0 <= i < |roots| && roots[i].RepositorySnapshot? ==>
               GoodManifest(manifests, roots[i].repository, roots[i].snapshot)
    ensures forall key :: key in c.snapshots && c.snapshots[key] == Ready ==> GoodManifest(manifests, key.0, key.1)
  {
    hide GoodManifest;
    forall key | key in c.snapshots && c.snapshots[key] == Ready
      ensures GoodManifest(manifests, key.0, key.1)
    {
      assert RepositorySnapshot(key.0, key.1) in roots;
      var i :| 0 <= i < |roots| && roots[i] == RepositorySnapshot(key.0, key.1);
    }
  }

  lemma MarkSetFromWalk(
    c: State, h: Hashes, roots: set<Ref>, generation: u32, locations: map<ContentId, ObjectLocation>, pairs: seq<Pair>)
    requires Complete(c, h, roots, locations.Keys) && Ascending(pairs) && Lists(pairs, locations)
    requires forall id :: id in locations ==> InGeneration(c, id, locations[id], generation)
    ensures MarkSet(c, h, roots, generation, pairs)
  {
    hide Complete, InGeneration;
    assert Ids(pairs) == locations.Keys;
  }

  // ---------- Coverage ----------

  // No stored ID is the hash of two different objects.
  ghost predicate UniqueContents(c: State, h: Hashes) {
    forall id, k, raw, k', raw' ::
      id in c.locations && h.contentId(k, raw) == id && h.contentId(k', raw') == id ==> k == k' && raw == raw'
  }

  // References that the roots reach agree on what an object ID stands for.
  ghost predicate ConsistentAliases(c: State, h: Hashes, roots: set<Ref>) {
    forall r, r' ::
      && Reachable(c, h, roots, r) && Reachable(c, h, roots, r')
      && Aliased(c, r) && Aliased(c, r') && r.oid == r'.oid
      ==> Alias(c, r) == Alias(c, r')
  }

  // An object with references is not reached under two hash algorithms, which would read them differently.
  ghost predicate ReadAlike(c: State, h: Hashes, roots: set<Ref>) {
    forall r, r', kind, raw ::
      && Reachable(c, h, roots, r) && Reachable(c, h, roots, r')
      && Names(c, h, r, kind, raw) && Names(c, h, r', kind, raw) && kind != Blob
      ==> r.oid.algorithm == r'.oid.algorithm
  }

  ghost predicate Agreeing(c: State, h: Hashes, roots: set<Ref>) {
    ConsistentAliases(c, h, roots) && ReadAlike(c, h, roots)
  }

  // Every alias that the roots reach names an object that hashes to both of its identities.
  ghost predicate TruthfulAliases(c: State, h: Hashes, roots: set<Ref>) {
    forall r :: Reachable(c, h, roots, r) && Aliased(c, r) ==>
      exists kind, raw :: Names(c, h, r, kind, raw) && h.gitOid(r.oid.algorithm, kind, raw) == r.oid
  }

  // No object ID in use is the native hash of two different objects.
  ghost predicate UniqueOids(c: State, h: Hashes) {
    forall r, k, raw, k', raw' ::
      && Aliased(c, r)
      && h.gitOid(r.oid.algorithm, k, raw) == r.oid && h.gitOid(r.oid.algorithm, k', raw') == r.oid
      ==> k == k' && raw == raw'
  }

  lemma TruthfulAliasesAgree(c: State, h: Hashes, roots: set<Ref>)
    requires TruthfulAliases(c, h, roots) && UniqueOids(c, h)
    ensures ConsistentAliases(c, h, roots)
  {
    hide Reachable;
    forall r, r' | && Reachable(c, h, roots, r) && Reachable(c, h, roots, r')
                   && Aliased(c, r) && Aliased(c, r') && r.oid == r'.oid
      ensures Alias(c, r) == Alias(c, r')
    {
      var kind, raw :| Names(c, h, r, kind, raw) && h.gitOid(r.oid.algorithm, kind, raw) == r.oid;
      var kind', raw' :| Names(c, h, r', kind', raw') && h.gitOid(r'.oid.algorithm, kind', raw') == r'.oid;
      assert kind == kind' && raw == raw';
    }
  }

  // References depend on the hash algorithm, not on the object ID, and a blob has none.
  lemma ChildrenByAlgorithm(a: Oid, b: Oid, kind: ObjectKind, raw: seq<byte>)
    requires a.algorithm == b.algorithm || kind == Blob
    ensures Children(a, kind, raw) == Children(b, kind, raw)
  {
    var x, y := Git.GitObject(a, kind, raw), Git.GitObject(b, kind, raw);
    match kind {
      case Commit => assert Git.CommitReferences(x) == Git.CommitReferences(y);
      case Tag => assert Git.TagReferences(x) == Git.TagReferences(y);
      case Tree =>
      case Blob =>
    }
  }

  // One step of coverage: a marked object's child, looked up in any repository, is marked.
  lemma ChildCovered(c: State, h: Hashes, roots: set<Ref>, ids: set<ContentId>, a: Ref, b: Ref)
    requires Complete(c, h, roots, ids) && ids <= c.locations.Keys
    requires UniqueContents(c, h) && Agreeing(c, h, roots)
    requires Reachable(c, h, roots, a) && Edge(c, h, a, b) && Alias(c, a) in ids && Aliased(c, b)
    ensures Alias(c, b) in ids
  {
    hide Reachable, Children;
    var kind, raw :| Names(c, h, a, kind, raw) && b.oid in Children(a.oid, kind, raw);
    var v :| Closed(c, h, roots, ids, Alias(c, a), v);
    assert v.kind == kind && v.raw == raw && Names(c, h, v.r, kind, raw);
    ChildrenByAlgorithm(a.oid, v.r.oid, kind, raw);
    var sibling := Ref(v.r.repository, b.oid);
    assert Aliased(c, sibling) && Alias(c, sibling) in ids;
    assert Edge(c, h, v.r, sibling);
    ChildReachable(c, h, roots, a, b);
    ChildReachable(c, h, roots, v.r, sibling);
  }

  // Everything reachable from the roots, in every repository, is marked.
  lemma {:induction false} PathCovered(
    c: State, h: Hashes, roots: set<Ref>, ids: set<ContentId>, p: seq<Ref>)
    requires Complete(c, h, roots, ids) && ids <= c.locations.Keys
    requires UniqueContents(c, h) && Agreeing(c, h, roots)
    requires IsPath(c, h, roots, p) && Aliased(c, p[|p| - 1])
    ensures Alias(c, p[|p| - 1]) in ids
    decreases |p|
  {
    hide Complete, Children, UniqueContents, Agreeing;
    if |p| == 1 {
      RootMarked(c, h, roots, ids, p[0]);
    } else {
      var init := p[..|p| - 1];
      assert Edge(c, h, p[|p| - 2], p[|p| - 1]);
      PathCovered(c, h, roots, ids, init);
      assert IsPath(c, h, roots, init) && init[|init| - 1] == p[|p| - 2];
      ChildCovered(c, h, roots, ids, p[|p| - 2], p[|p| - 1]);
    }
  }

  lemma RootMarked(c: State, h: Hashes, roots: set<Ref>, ids: set<ContentId>, r: Ref)
    requires Complete(c, h, roots, ids) && r in roots
    ensures Aliased(c, r) && Alias(c, r) in ids
  {
  }

  lemma MarkCoversReachable(
    c: State, h: Hashes, roots: set<Ref>, generation: u32, pairs: seq<Pair>, r: Ref)
    requires MarkSet(c, h, roots, generation, pairs)
    requires UniqueContents(c, h) && Agreeing(c, h, roots)
    requires Reachable(c, h, roots, r) && Aliased(c, r)
    ensures exists i :: 0 <= i < |pairs| && pairs[i].0 == Alias(c, r)
  {
    hide Complete, UniqueContents, Agreeing, Edge;
    var ids := Ids(pairs);
    var p :| IsPath(c, h, roots, p) && p[|p| - 1] == r;
    PathCovered(c, h, roots, ids, p);
  }

  // A child of a reachable object is reachable, and its object is marked: through the repository
  // that was walked, and through every other that aliases it.
  lemma ChildMarked(
    c: State, h: Hashes, roots: set<Ref>, generation: u32, pairs: seq<Pair>, r: Ref, kind: ObjectKind, raw: seq<byte>,
    child: Oid)
    requires MarkSet(c, h, roots, generation, pairs) && UniqueContents(c, h) && Agreeing(c, h, roots)
    requires Reachable(c, h, roots, r) && Names(c, h, r, kind, raw) && child in Children(r.oid, kind, raw)
    ensures MarkedAs(c, h, roots, Ids(pairs), r.repository, child)
  {
    hide Complete, UniqueContents, Agreeing, Reachable, Children;
    var b := Ref(r.repository, child);
    assert Edge(c, h, r, b);
    ChildReachable(c, h, roots, r, b);
    MarkCoversReachable(c, h, roots, generation, pairs, r);
    SiblingMarked(c, h, roots, Ids(pairs), r, kind, raw, child);
    if Aliased(c, b) {
      MarkCoversReachable(c, h, roots, generation, pairs, b);
    }
  }

  ghost predicate MarkedAs(c: State, h: Hashes, roots: set<Ref>, ids: set<ContentId>, repository: Id16, child: Oid) {
    && Reachable(c, h, roots, Ref(repository, child))
    && (Aliased(c, Ref(repository, child)) ==> Alias(c, Ref(repository, child)) in ids)
    && exists walked :: Aliased(c, Ref(walked, child)) && Alias(c, Ref(walked, child)) in ids
  }

  lemma SiblingMarked(
    c: State, h: Hashes, roots: set<Ref>, ids: set<ContentId>, r: Ref, kind: ObjectKind, raw: seq<byte>, child: Oid)
    requires Complete(c, h, roots, ids) && ids <= c.locations.Keys && UniqueContents(c, h) && Agreeing(c, h, roots)
    requires Reachable(c, h, roots, r) && Names(c, h, r, kind, raw) && child in Children(r.oid, kind, raw)
    requires Alias(c, r) in ids
    ensures exists walked :: Aliased(c, Ref(walked, child)) && Alias(c, Ref(walked, child)) in ids
  {
    hide Reachable, Children;
    var v :| Closed(c, h, roots, ids, Alias(c, r), v);
    assert v.kind == kind && v.raw == raw && Names(c, h, v.r, kind, raw);
    ChildrenByAlgorithm(r.oid, v.r.oid, kind, raw);
    assert Aliased(c, Ref(v.r.repository, child));
  }

  // So the target of a marked tag is marked, from the bytes as the tag was written, ...
  lemma TagTargetMarked(
    c: State, h: Hashes, roots: set<Ref>, generation: u32, pairs: seq<Pair>, r: Ref,
    target: Oid, others: seq<seq<byte>>, message: seq<byte>)
    requires MarkSet(c, h, roots, generation, pairs) && UniqueContents(c, h) && Agreeing(c, h, roots)
    requires Reachable(c, h, roots, r) && Git.TagHeaders(target, others, r.oid)
    requires Names(c, h, r, Tag, Git.TagText(target, others, message))
    ensures MarkedAs(c, h, roots, Ids(pairs), r.repository, target)
  {
    hide MarkSet, UniqueContents, Agreeing, Reachable, MarkedAs, Git.ReferencedOids, Git.TagText;
    Git.TagRefersToTarget(r.oid, target, others, message);
    ChildMarked(c, h, roots, generation, pairs, r, Tag, Git.TagText(target, others, message), target);
  }

  // ... the tree and every parent of a marked commit, ...
  lemma CommitMarkedWhole(
    c: State, h: Hashes, roots: set<Ref>, generation: u32, pairs: seq<Pair>, r: Ref,
    tree: Oid, parents: seq<Oid>, others: seq<seq<byte>>, message: seq<byte>)
    requires MarkSet(c, h, roots, generation, pairs) && UniqueContents(c, h) && Agreeing(c, h, roots)
    requires Reachable(c, h, roots, r) && Git.CommitHeaders(tree, parents, others, r.oid)
    requires Names(c, h, r, Commit, Git.CommitText(tree, parents, others, message))
    ensures MarkedAs(c, h, roots, Ids(pairs), r.repository, tree)
    ensures forall b :: b in parents ==> MarkedAs(c, h, roots, Ids(pairs), r.repository, b)
  {
    hide MarkSet, UniqueContents, Agreeing, Reachable, MarkedAs, Git.ReferencedOids, Git.CommitText;
    var raw := Git.CommitText(tree, parents, others, message);
    Git.CommitRefersToTreeAndParents(r.oid, tree, parents, others, message);
    ChildMarked(c, h, roots, generation, pairs, r, Commit, raw, tree);
    forall b | b in parents
      ensures MarkedAs(c, h, roots, Ids(pairs), r.repository, b)
    {
      ChildMarked(c, h, roots, generation, pairs, r, Commit, raw, b);
    }
  }

  // ... and every entry of a marked tree.
  lemma TreeMarkedWhole(
    c: State, h: Hashes, roots: set<Ref>, generation: u32, pairs: seq<Pair>, r: Ref, raws: seq<Git.RawEntry>, i: nat)
    requires MarkSet(c, h, roots, generation, pairs) && UniqueContents(c, h) && Agreeing(c, h, roots)
    requires Reachable(c, h, roots, r) && Git.AllWellFormed(r.oid.algorithm, raws) && i < |raws|
    requires Names(c, h, r, Tree, Git.WrittenAll(raws))
    ensures MarkedAs(c, h, roots, Ids(pairs), r.repository, GitOid(r.oid.algorithm, raws[i].oid))
  {
    hide MarkSet, UniqueContents, Agreeing, Reachable, MarkedAs, Git.ReferencedOids, Git.WrittenAll, Git.ParseMode;
    Git.TreeRefersToEntries(r.oid, raws);
    var references := Git.ReferencedOids(Git.GitObject(r.oid, Tree, Git.WrittenAll(raws))).value;
    assert references[i] in references;
    ChildMarked(c, h, roots, generation, pairs, r, Tree, Git.WrittenAll(raws), references[i]);
  }

  // ... and nothing else is.
  lemma MarkIsReachable(c: State, h: Hashes, roots: set<Ref>, generation: u32, pairs: seq<Pair>, i: nat)
    requires MarkSet(c, h, roots, generation, pairs) && i < |pairs|
    ensures exists r :: Reachable(c, h, roots, r) && Aliased(c, r) && Alias(c, r) == pairs[i].0
  {
    hide Reachable, Children;
    var ids := Ids(pairs);
    assert pairs[i].0 in ids;
    var v :| Closed(c, h, roots, ids, pairs[i].0, v);
    assert Aliased(c, v.r) && Alias(c, v.r) == pairs[i].0;
  }
}
