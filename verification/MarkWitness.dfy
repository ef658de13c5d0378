/** Concrete stores for the mark phase: one that it covers, and one where repositories disagree. */
module MarkWitness {
  import opened Bytes
  import opened Core
  import opened RecordFormat
  import opened Catalog
  import opened Mark
  import Git

  // ---------- The hypotheses can be met ----------

  const ONE_ID: ContentId := Zeros(32)
  const OTHER_ID: ContentId := seq(32, _ => 1)
  const ONE_OID: Oid := GitOid(Sha1, Zeros(20))

  function OneBlobHashes(): Hashes {
    Hashes((kind, raw) => if kind == Blob && raw == [] then ONE_ID else OTHER_ID, (_, _, _) => ONE_OID, _ => None)
  }

  function OneBlobCatalog(repository: Id16, location: ObjectLocation): State {
    State(map[ONE_ID := location], map[(repository, ONE_OID) := ONE_ID], map[], map[], map[], Some(location.generation))
  }

  // A store with one blob and one root meets every hypothesis of coverage.
  lemma CoverageApplies(repository: Id16, location: ObjectLocation)
    ensures var c, h, r := OneBlobCatalog(repository, location), OneBlobHashes(), Ref(repository, ONE_OID);
            && MarkSet(c, h, {r}, location.generation, [(ONE_ID, location)])
            && UniqueContents(c, h) && Agreeing(c, h, {r})
            && Reachable(c, h, {r}, r) && Aliased(c, r)
  {
    hide Reachable;
    var c, h, r := OneBlobCatalog(repository, location), OneBlobHashes(), Ref(repository, ONE_OID);
    RootReachable(c, h, {r}, r);
    assert ONE_ID[0] != OTHER_ID[0];
    var pairs: seq<Pair> := [(ONE_ID, location)];
    assert pairs[0].0 == ONE_ID;
    assert Ids(pairs) == {ONE_ID};
    BlobChildren(ONE_OID, []);
    assert Closed(c, h, {r}, {ONE_ID}, ONE_ID, Visit(r, Blob, []));
  }

  // ---------- Why agreement between repositories is needed ----------

  // A tree with one entry, mode 40000 and name "a", whose child is `leaf`.
  function TreeOf(leaf: Oid): seq<byte> {
    Git.Written(Git.RawEntry([52, 48, 48, 48, 48], [97], leaf.bytes))
  }

  lemma TreeChildren(tree: Oid, leaf: Oid)
    requires tree.algorithm == leaf.algorithm
    ensures Children(tree, Tree, TreeOf(leaf)) == [leaf]
    ensures Git.ReferencedOids(Git.GitObject(tree, Tree, TreeOf(leaf))).Ok?
  {
    hide Git.ParseMode;
    var raw := Git.RawEntry([52, 48, 48, 48, 48], [97], leaf.bytes);
    Git.TreeModes();
    assert Git.WellFormed(leaf.algorithm, raw);
    Git.WrittenTreeParses(leaf.algorithm, [raw]);
    assert Git.WrittenAll([raw]) == TreeOf(leaf);
    assert Git.OidsOf(Git.MeaningAll(leaf.algorithm, [raw])) == [leaf];
  }

  // Content IDs t, x and y stand for the tree and two blobs; both repositories alias the tree,
  // but `b` maps the child's object ID to the other blob.
  datatype Skip = Skip(
    a: Id16, b: Id16, leaf: Oid, tree: Oid, t: ContentId, x: ContentId, y: ContentId, other: ContentId)
  {
    ghost predicate Valid() {
      && Less(a, b) && a != b && leaf != tree && leaf.algorithm == tree.algorithm
      && t != x && t != y && x != y && other != t && other != x && other != y
    }

    function Digests(): Hashes {
      Hashes(
        (kind: ObjectKind, raw: seq<byte>) =>
          if kind == Tree && raw == TreeOf(leaf) then t
          else if kind == Blob && raw == [1] then x
          else if kind == Blob && raw == [2] then y
          else other,
        (algorithm: HashAlgorithm, kind: ObjectKind, raw: seq<byte>) => if kind == Tree then tree else leaf,
        (payload: seq<byte>) => None)
    }

    function At(n: nat): ObjectLocation
      requires n < 3
    {
      ObjectLocation(1, 1, 64 + 256 * n, 256, 0, 0, Blob, Raw, 0, 0)
    }

    function Index(): State {
      State(
        map[t := At(0), x := At(1), y := At(2)],
        map[(a, tree) := t, (b, tree) := t, (a, leaf) := x, (b, leaf) := y],
        map[], map[], map[], Some(1))
    }

    function Record(kind: ObjectKind, id: ContentId, oid: Oid, raw: seq<byte>): Option<ObjectRecord> {
      if |raw| <= U64_MAX then Some(ObjectRecord(kind, Raw, 0, |raw|, id, oid, raw)) else None
    }

    // A store with one record at each location, whoever asks.
    function Serves(): Reader {
      (call: nat, id: ContentId, location: ObjectLocation) =>
        if location == At(0) then Record(Tree, t, tree, TreeOf(leaf))
        else if location == At(1) then Record(Blob, x, leaf, [1])
        else if location == At(2) then Record(Blob, y, leaf, [2])
        else None
    }

    // Given in the other order, which the sort undoes.
    function Retained(): seq<Ref> { [Ref(b, tree), Ref(a, tree)] }
  }

  lemma SkipSorted(k: Skip)
    requires k.Valid()
    ensures SortedRefs(k.Retained()) == [Ref(k.a, k.tree), Ref(k.b, k.tree)]
  {
    hide Less;
    var ra, rb := Ref(k.a, k.tree), Ref(k.b, k.tree);
    assert k.Retained()[1..] == [ra] && [ra][1..] == [];
    assert SortedRefs([ra]) == [ra];
    assert !AtMost(rb, ra);
    assert InsertRef([ra], rb) == [ra] + InsertRef([], rb);
  }

  lemma SkipReads(k: Skip, r: Ref, call: nat)
    requires k.Valid()
    ensures var c, h := k.Index(), k.Digests();
            && (r == Ref(k.a, k.tree) || r == Ref(k.b, k.tree) ==>
                  ReadObject(c, h, 1, r, k.Serves(), call) == Ok((Visit(r, Tree, TreeOf(k.leaf)), k.At(0))))
            && (r == Ref(k.a, k.leaf) ==> ReadObject(c, h, 1, r, k.Serves(), call) == Ok((Visit(r, Blob, [1]), k.At(1))))
  {
    hide TreeOf;
    TreeLength(k.leaf);
  }

  lemma TreeLength(leaf: Oid)
    ensures |TreeOf(leaf)| <= 100
  {
  }

  // The walk's fronts: at the start, and after each of its three reads.
  function SkipFront(k: Skip, n: nat): Front {
    var ra, rb, rl := Ref(k.a, k.tree), Ref(k.b, k.tree), Ref(k.a, k.leaf);
    if n == 0 then Front(2, [ra, rb], {}, map[])
    else if n == 1 then Front(3, [rb, rl], {ra}, map[k.t := k.At(0)])
    else if n == 2 then Front(3, [rl], {ra, rb}, map[k.t := k.At(0)])
    else Front(3, [], {ra, rb, rl}, map[k.t := k.At(0), k.x := k.At(1)])
  }

  lemma SkipFirst(k: Skip, limits: MarkLimits)
    requires k.Valid() && limits.maxObjectReferences >= 3 && limits.maxObjects >= 2
    ensures Visited(k.Index(), k.Digests(), 1, k.Serves(), limits, 0, SkipFront(k, 0).(pending := [Ref(k.b, k.tree)]),
                    Ref(k.a, k.tree)) == Ok(SkipFront(k, 1))
  {
    hide ReadObject, Git.ReferencedOids, TreeOf, RefsTo, Visited;
    var s, ra, rb := SkipFront(k, 0).(pending := [Ref(k.b, k.tree)]), Ref(k.a, k.tree), Ref(k.b, k.tree);
    SkipReads(k, ra, 0);
    TreeChildren(k.tree, k.leaf);
    OneRef(k.a, k.leaf);
    VisitNew(k.Index(), k.Digests(), 1, k.Serves(), limits, 0, s, ra, [k.leaf]);
    assert {} + {ra} == {ra} && [rb] + [Ref(k.a, k.leaf)] == [rb, Ref(k.a, k.leaf)];
  }

  lemma SkipSecond(k: Skip, limits: MarkLimits)
    requires k.Valid() && limits.maxObjectReferences >= 3 && limits.maxObjects >= 2
    ensures Visited(k.Index(), k.Digests(), 1, k.Serves(), limits, 1, SkipFront(k, 1).(pending := [Ref(k.a, k.leaf)]),
                    Ref(k.b, k.tree)) == Ok(SkipFront(k, 2))
  {
    hide ReadObject, Git.ReferencedOids, TreeOf, RefsTo, Visited;
    var s, ra, rb := SkipFront(k, 1).(pending := [Ref(k.a, k.leaf)]), Ref(k.a, k.tree), Ref(k.b, k.tree);
    SkipReads(k, rb, 1);
    VisitOld(k.Index(), k.Digests(), 1, k.Serves(), limits, 1, s, rb);
    assert {ra} + {rb} == {ra, rb};
  }

  lemma SkipThird(k: Skip, limits: MarkLimits)
    requires k.Valid() && limits.maxObjectReferences >= 3 && limits.maxObjects >= 2
    ensures Visited(k.Index(), k.Digests(), 1, k.Serves(), limits, 2, SkipFront(k, 2).(pending := []), Ref(k.a, k.leaf))
            == Ok(SkipFront(k, 3))
  {
    hide ReadObject, Git.ReferencedOids, TreeOf, RefsTo, Visited;
    var s, ra, rb, rl := SkipFront(k, 2).(pending := []), Ref(k.a, k.tree), Ref(k.b, k.tree), Ref(k.a, k.leaf);
    SkipReads(k, rl, 2);
    BlobChildren(k.leaf, [1]);
    NoRef(k.a);
    VisitNew(k.Index(), k.Digests(), 1, k.Serves(), limits, 2, s, rl, []);
    assert {ra, rb} + {rl} == {ra, rb, rl};
  }

  lemma SkipWalks(k: Skip, limits: MarkLimits)
    requires k.Valid() && limits.maxObjectReferences >= 3 && limits.maxObjects >= 2
    ensures Walked(k.Index(), k.Digests(), 1, k.Serves(), limits, SkipFront(k, 0), 0) == Ok(SkipFront(k, 3).locations)
  {
    hide Walked, Visited;
    var c, h := k.Index(), k.Digests();
    SkipFirst(k, limits);
    SkipSecond(k, limits);
    SkipThird(k, limits);
    assert SkipFront(k, 0).pending[1..] == [Ref(k.b, k.tree)] && SkipFront(k, 1).pending[1..] == [Ref(k.a, k.leaf)];
    assert SkipFront(k, 2).pending[1..] == [];
    WalkedNext(c, h, 1, k.Serves(), limits, SkipFront(k, 0), 0, SkipFront(k, 1));
    WalkedNext(c, h, 1, k.Serves(), limits, SkipFront(k, 1), 1, SkipFront(k, 2));
    WalkedNext(c, h, 1, k.Serves(), limits, SkipFront(k, 2), 2, SkipFront(k, 3));
    WalkedOut(c, h, 1, k.Serves(), limits, SkipFront(k, 3), 3);
  }

  lemma VisitNew(
    c: State, h: Hashes, generation: u32, reader: Reader, limits: MarkLimits, call: nat, s: Front, r: Ref, children: seq<Oid>)
    requires s.queued + |children| <= limits.maxObjectReferences && |s.locations| < limits.maxObjects
    requires var read := ReadObject(c, h, generation, r, reader, call);
             && read.Ok? && Alias(c, r) !in s.locations
             && Git.ReferencedOids(Git.GitObject(r.oid, read.value.0.kind, read.value.0.raw)) == Ok(children)
    ensures Visited(c, h, generation, reader, limits, call, s, r)
            == Ok(Front(s.queued + |children|, s.pending + RefsTo(r.repository, children), s.visited + {r},
                        s.locations[Alias(c, r) := ReadObject(c, h, generation, r, reader, call).value.1]))
  {
    hide ReadObject, Git.ReferencedOids, RefsTo;
  }

  lemma VisitOld(
    c: State, h: Hashes, generation: u32, reader: Reader, limits: MarkLimits, call: nat, s: Front, r: Ref)
    requires s.queued <= limits.maxObjectReferences
    requires ReadObject(c, h, generation, r, reader, call).Ok? && Alias(c, r) in s.locations
    ensures Visited(c, h, generation, reader, limits, call, s, r) == Ok(s.(visited := s.visited + {r}))
  {
    hide ReadObject, Git.ReferencedOids, RefsTo;
  }

  lemma OneRef(repository: Id16, oid: Oid)
    ensures RefsTo(repository, [oid]) == [Ref(repository, oid)]
  {
    assert [oid][..0] == [];
  }

  lemma NoRef(repository: Id16)
    ensures RefsTo(repository, []) == []
  {
  }

  lemma WalkedNext(
    c: State, h: Hashes, generation: u32, reader: Reader, limits: MarkLimits, s: Front, call: nat, next: Front)
    requires s.queued <= limits.maxObjectReferences && s.pending != [] && s.pending[0] !in s.visited
    requires Visited(c, h, generation, reader, limits, call, s.(pending := s.pending[1..]), s.pending[0]) == Ok(next)
    ensures Walked(c, h, generation, reader, limits, s, call) == Walked(c, h, generation, reader, limits, next, call + 1)
  {
    hide Visited;
  }

  lemma WalkedOut(c: State, h: Hashes, generation: u32, reader: Reader, limits: MarkLimits, s: Front, call: nat)
    requires s.queued <= limits.maxObjectReferences && s.pending == []
    ensures Walked(c, h, generation, reader, limits, s, call) == Ok(s.locations)
  {
  }

  lemma SkipReaches(k: Skip, roots: set<Ref>)
    requires k.Valid() && Ref(k.b, k.tree) in roots
    ensures Reachable(k.Index(), k.Digests(), roots, Ref(k.b, k.leaf))
  {
    hide Children, TreeOf, Reachable;
    var c, h := k.Index(), k.Digests();
    TreeChildren(k.tree, k.leaf);
    assert Names(c, h, Ref(k.b, k.tree), Tree, TreeOf(k.leaf));
    assert Edge(c, h, Ref(k.b, k.tree), Ref(k.b, k.leaf));
    RootReachable(c, h, roots, Ref(k.b, k.tree));
    ChildReachable(c, h, roots, Ref(k.b, k.tree), Ref(k.b, k.leaf));
  }

  lemma SkipRuns(k: Skip, manifests: Manifests, limits: MarkLimits)
    requires k.Valid() && limits.maxObjectReferences >= 3 && limits.maxObjects >= 2
    ensures MarkRun(k.Index(), Some([]), manifests, k.Serves(), k.Digests(), k.Retained(), limits)
            == Ok(map[k.t := k.At(0), k.x := k.At(1)])
  {
    hide Walked, SortedRefs;
    SkipSorted(k);
    SkipWalks(k, limits);
    assert [] + SortedRefs(k.Retained()) == SortedRefs(k.Retained());
    assert Started(limits, manifests, [], k.Retained()) == Ok(SkipFront(k, 0));
  }

  // Two repositories share a tree but disagree on its child. The walk marks the tree through the
  // repository that sorts first, never looks the child up in the second, and succeeds: the second
  // repository's child is stored, reachable and aliased but not marked.
  lemma DisagreeingRepositoryIsSkipped(k: Skip, manifests: Manifests, limits: MarkLimits)
    requires k.Valid() && limits.maxObjectReferences >= 3 && limits.maxObjects >= 2
    ensures var c, h, skipped := k.Index(), k.Digests(), Ref(k.b, k.leaf);
            var roots, run := RootRefs(c, manifests, k.Retained()),
                              MarkRun(c, Some([]), manifests, k.Serves(), h, k.Retained(), limits);
            && EnumeratesRoots(c, []) && run.Ok? && run.value.Keys == {k.t, k.x}
            && UniqueContents(c, h) && ReadAlike(c, h, roots)
            && Reachable(c, h, roots, skipped) && Aliased(c, skipped)
            && Alias(c, skipped) in c.locations && Alias(c, skipped) !in run.value
  {
    hide Reachable, MarkRun, SnapshotRefs, UniqueContents, ReadAlike, EnumeratesRoots;
    var roots := RootRefs(k.Index(), manifests, k.Retained());
    assert Ref(k.b, k.tree) in k.Retained();
    SkipReaches(k, roots);
    SkipRuns(k, manifests, limits);
    SkipFacts(k, roots);
  }

  lemma SkipFacts(k: Skip, roots: set<Ref>)
    requires k.Valid()
    ensures EnumeratesRoots(k.Index(), []) && UniqueContents(k.Index(), k.Digests())
    ensures ReadAlike(k.Index(), k.Digests(), roots)
  {
    hide TreeOf, Less, Reachable;
  }

  lemma BlobChildren(oid: Oid, raw: seq<byte>)
    ensures Children(oid, Blob, raw) == [] && Git.ReferencedOids(Git.GitObject(oid, Blob, raw)).Ok?
  {
  }
}
