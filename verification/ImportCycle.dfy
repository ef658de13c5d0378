/** Imports between garbage collections (crates/reflink-forest-import, -store, -maintenance). */
module ImportCycle {
  import opened Bytes
  import opened Core
  import opened Catalog
  import opened Mark
  import opened Compaction
  import opened GcCycle

  // A Git object as the backend hands it over.
  datatype Object = Object(oid: Oid, kind: ObjectKind, raw: seq<byte>)

  function IdOf(h: Hashes, o: Object): ContentId { h.contentId(o.kind, o.raw) }

  // An object the catalog already locates gets only its alias.
  function IndexBatch(c: State, h: Hashes, repo: Id16, o: Object, place: ObjectLocation): seq<Operation> {
    if IdOf(h, o) in c.locations then [PutOidAlias(repo, o.oid, IdOf(h, o))]
    else [PutObjectLocation(IdOf(h, o), place), PutOidAlias(repo, o.oid, IdOf(h, o))]
  }

  // Every object in order, each in a batch of its own, up to the first conflict; `places` are
  // where the chunk writer would put them.
  function Imported(c: State, h: Hashes, repo: Id16, objects: seq<Object>, places: nat -> ObjectLocation)
    : (State, Result<(), CatalogError>)
  {
    if objects == [] then (c, Ok(()))
    else
      var n := |objects| - 1;
      var (before, done) := Imported(c, h, repo, objects[..n], places);
      if done.Err? then (before, done)
      else
        var staged := Staged(before, IndexBatch(before, h, repo, objects[n], places(n)));
        if staged.Err? then (before, Err(staged.error)) else (staged.value, Ok(()))
  }

  datatype Summary = Summary(seen: nat, written: nat, deduplicated: nat)

  // `commits` says which batches the backend writes. What is indexed is a prefix of the objects;
  // without a fault or a conflict it is all of them, each either written or deduplicated.
  method ImportObjects(
    catalog: CatalogStore, h: Hashes, repo: Id16, objects: seq<Object>, places: nat -> ObjectLocation, commits: nat -> bool)
      returns (result: Result<Summary, CatalogError>, ghost n: nat)
    modifies catalog
    ensures n <= |objects| && Imported(old(catalog.state), h, repo, objects[..n], places) == (catalog.state, Ok(()))
    ensures result.Ok? ==> n == |objects| && result.value.seen == n
                           && result.value.written + result.value.deduplicated == result.value.seen
                           && |catalog.state.locations| == |old(catalog.state).locations| + result.value.written
    ensures (forall k :: commits(k)) ==>
              (result.Ok? <==> Imported(old(catalog.state), h, repo, objects, places).1.Ok?)
  {
    hide Staged;
    var summary := Summary(0, 0, 0);
    n := 0;
    assert objects[..0] == [];
    for i := 0 to |objects|
      invariant n == i && Imported(old(catalog.state), h, repo, objects[..i], places) == (catalog.state, Ok(()))
      invariant summary.seen == i && summary.written + summary.deduplicated == i
      invariant |catalog.state.locations| == |old(catalog.state).locations| + summary.written
    {
      assert objects[..i + 1][..i] == objects[..i];
      var batch := IndexBatch(catalog.state, h, repo, objects[i], places(i));
      IndexFacts(catalog.state, h, repo, objects[i], places(i));
      ghost var before := catalog.state;
      var known := IdOf(h, objects[i]) in catalog.state.locations;
      if Staged(before, batch).Err? {
        StaysFailed(old(catalog.state), h, repo, objects, places, i + 1);
      }
      var committed := catalog.Commit(batch, commits(i));
      if committed.Err? {
        return Err(committed.error), n;
      }
      summary := if known then summary.(seen := summary.seen + 1, deduplicated := summary.deduplicated + 1)
                 else summary.(seen := summary.seen + 1, written := summary.written + 1);
      n := i + 1;
    }
    assert objects[..|objects|] == objects;
    return Ok(summary), n;
  }

  lemma {:induction false} StaysFailed(
    c: State, h: Hashes, repo: Id16, objects: seq<Object>, places: nat -> ObjectLocation, n: nat)
    requires n <= |objects| && Imported(c, h, repo, objects[..n], places).1.Err?
    ensures Imported(c, h, repo, objects, places).1.Err?
    decreases |objects|
  {
    if n == |objects| {
      assert objects[..n] == objects;
    } else {
      var init := objects[..|objects| - 1];
      assert init[..n] == objects[..n];
      StaysFailed(c, h, repo, init, places, n);
    }
  }

  // What one indexed object changes.
  lemma IndexFacts(c: State, h: Hashes, repo: Id16, o: Object, place: ObjectLocation)
    ensures var batch, id := IndexBatch(c, h, repo, o, place), IdOf(h, o);
            var staged := Staged(c, batch);
            staged.Ok? ==>
              var c' := staged.value;
              && c' == Apply(c, batch)
              && c' == c.(aliases := c.aliases[(repo, o.oid) := id],
                          locations := if id in c.locations then c.locations else c.locations[id := place])
              && (Aliased(c, Ref(repo, o.oid)) ==> Alias(c, Ref(repo, o.oid)) == id)
  {
    var id := IdOf(h, o);
    var put := PutOidAlias(repo, o.oid, id);
    if id in c.locations {
      OneStaged(c, put);
    } else {
      var moved := PutObjectLocation(id, place);
      OneStaged(c, moved);
      TwoStaged(c, moved, put);
    }
  }

  lemma OneStaged(c: State, op: Operation)
    ensures Staged(c, [op]) == StageOne(c, op) && Apply(c, [op]) == ApplyOne(c, op)
  {
    assert [op][..0] == [];
  }

  lemma TwoStaged(c: State, first: Operation, second: Operation)
    requires StageOne(c, first).Ok?
    ensures Staged(c, [first, second]) == StageOne(ApplyOne(c, first), second)
    ensures Apply(c, [first, second]) == ApplyOne(ApplyOne(c, first), second)
  {
    OneStaged(c, first);
    assert [first, second][..1] == [first];
  }

  // ---------- What an import leaves in the catalog ----------

  predicate Lists(objects: seq<Object>, oid: Oid) { exists i :: 0 <= i < |objects| && objects[i].oid == oid }

  ghost predicate AliasesGrown(c: State, c': State, h: Hashes, repo: Id16, objects: seq<Object>) {
    && (forall key :: key in c.aliases ==> key in c'.aliases && c'.aliases[key] == c.aliases[key])
    && (forall key :: key in c'.aliases && key !in c.aliases ==> key.0 == repo && Lists(objects, key.1))
    && (forall i :: 0 <= i < |objects| ==>
          (repo, objects[i].oid) in c'.aliases && c'.aliases[(repo, objects[i].oid)] == IdOf(h, objects[i]))
  }

  ghost predicate LocationsGrown(c: State, c': State, h: Hashes, objects: seq<Object>, generation: u32) {
    && (forall id :: id in c.locations ==> id in c'.locations && c'.locations[id] == c.locations[id])
    && (forall id :: id in c'.locations && id !in c.locations ==>
          c'.locations[id].generation == generation && exists i :: 0 <= i < |objects| && IdOf(h, objects[i]) == id)
    && (forall i :: 0 <= i < |objects| ==> IdOf(h, objects[i]) in c'.locations)
  }

  // Aliases and locations grow by the listed objects and by nothing else, and none changes.
  ghost predicate Grown(c: State, c': State, h: Hashes, repo: Id16, objects: seq<Object>, generation: u32) {
    && c'.snapshots == c.snapshots && c'.current == c.current
    && AliasesGrown(c, c', h, repo, objects) && LocationsGrown(c, c', h, objects, generation)
  }

  lemma AliasesGrowByOne(c: State, before: State, after: State, h: Hashes, repo: Id16, objects: seq<Object>, o: Object)
    requires AliasesGrown(c, before, h, repo, objects) && after.aliases == before.aliases[(repo, o.oid) := IdOf(h, o)]
    requires (repo, o.oid) in before.aliases ==> before.aliases[(repo, o.oid)] == IdOf(h, o)
    ensures AliasesGrown(c, after, h, repo, objects + [o])
  {
    hide IdOf;
    var all := objects + [o];
    assert all[|objects|] == o;
    forall key | key in after.aliases && key !in c.aliases
      ensures key.0 == repo && Lists(all, key.1)
    {
      if key in before.aliases {
        var i :| 0 <= i < |objects| && objects[i].oid == key.1;
        assert all[i].oid == key.1;
      }
    }
  }

  lemma LocationsGrowByOne(
    c: State, before: State, after: State, h: Hashes, objects: seq<Object>, o: Object, place: ObjectLocation)
    requires LocationsGrown(c, before, h, objects, place.generation)
    requires var id := IdOf(h, o);
             after.locations == if id in before.locations then before.locations else before.locations[id := place]
    ensures LocationsGrown(c, after, h, objects + [o], place.generation)
  {
    hide IdOf;
    var all := objects + [o];
    assert all[|objects|] == o;
    forall id | id in after.locations && id !in c.locations
      ensures exists i :: 0 <= i < |all| && IdOf(h, all[i]) == id
    {
      if id in before.locations {
        var i :| 0 <= i < |objects| && IdOf(h, objects[i]) == id;
        assert all[i] == objects[i];
      }
    }
  }

  lemma GrowsByOne(
    c: State, before: State, after: State, h: Hashes, repo: Id16, objects: seq<Object>, o: Object, place: ObjectLocation)
    requires Grown(c, before, h, repo, objects, place.generation)
    requires Staged(before, IndexBatch(before, h, repo, o, place)) == Ok(after)
    ensures Grown(c, after, h, repo, objects + [o], place.generation)
  {
    hide Staged, AliasesGrown, LocationsGrown, Apply;
    IndexFacts(before, h, repo, o, place);
    AliasesGrowByOne(c, before, after, h, repo, objects, o);
    LocationsGrowByOne(c, before, after, h, objects, o, place);
  }

  lemma {:induction false} ImportGrows(
    c: State, h: Hashes, repo: Id16, objects: seq<Object>, places: nat -> ObjectLocation, generation: u32)
    requires Imported(c, h, repo, objects, places).1.Ok?
    requires forall k :: 0 <= k < |objects| ==> places(k).generation == generation
    ensures Grown(c, Imported(c, h, repo, objects, places).0, h, repo, objects, generation)
  {
    hide Grown;
    if objects == [] {
      NothingGrown(c, h, repo, generation);
    } else {
      var n := |objects| - 1;
      ImportGrows(c, h, repo, objects[..n], places, generation);
      GrowsByOne(c, Imported(c, h, repo, objects[..n], places).0, Imported(c, h, repo, objects, places).0, h, repo,
                 objects[..n], objects[n], places(n));
      assert objects[..n] + [objects[n]] == objects;
    }
  }

  lemma NothingGrown(c: State, h: Hashes, repo: Id16, generation: u32)
    ensures Grown(c, c, h, repo, [], generation)
  {
  }

  // ---------- Located objects ----------

  ghost function Roots(c: State, manifests: Manifests): set<Ref> { SnapshotRefs(c, manifests) }

  // Every object reachable from a Ready snapshot lies in the current generation.
  ghost predicate Located(c: State, h: Hashes, manifests: Manifests) {
    && c.current.Some?
    && forall r :: Reachable(c, h, Roots(c, manifests), r) && Aliased(c, r) ==> Current(c, Alias(c, r))
  }

  predicate Current(c: State, id: ContentId) {
    c.current.Some? && id in c.locations && c.locations[id].generation == c.current.value
  }

  // A location that an earlier collection left behind.
  predicate Stale(c: State, id: ContentId) {
    id in c.locations && (c.current.None? || c.locations[id].generation != c.current.value)
  }

  // The objects are those reachable from the snapshot's references, in an order where each is a
  // reference's target or the child of an earlier one.
  ghost predicate Closure(h: Hashes, manifests: Manifests, repo: Id16, snapshot: Id16, objects: seq<Object>) {
    && manifests(repo, snapshot).Some?
    && var targets := Targets(manifests(repo, snapshot).value);
       && (forall t :: t in targets ==> Lists(objects, t))
       && (forall i, child :: 0 <= i < |objects| && child in ChildrenOf(objects[i]) ==> Lists(objects, child))
       && (forall i :: 0 <= i < |objects| ==>
             objects[i].oid in targets || exists j :: 0 <= j < i && objects[i].oid in ChildrenOf(objects[j]))
  }

  function ChildrenOf(o: Object): seq<Oid> { Children(o.oid, o.kind, o.raw) }

  // The catalog once the import is done and its snapshot is Ready.
  function ReadyWith(c: State, repo: Id16, snapshot: Id16): State {
    c.(snapshots := c.snapshots[(repo, snapshot) := Ready])
  }

  ghost predicate Imports(
    c: State, c': State, h: Hashes, manifests: Manifests, repo: Id16, snapshot: Id16, objects: seq<Object>)
  {
    && c.current.Some? && Closure(h, manifests, repo, snapshot, objects)
    && exists c1 :: Grown(c, c1, h, repo, objects, c.current.value) && c' == ReadyWith(c1, repo, snapshot)
  }

  lemma RootsGrow(c: State, c': State, manifests: Manifests, repo: Id16, snapshot: Id16, r: Ref)
    requires manifests(repo, snapshot).Some? && c'.snapshots == c.snapshots[(repo, snapshot) := Ready]
    ensures r in Roots(c', manifests) <==>
            r in Roots(c, manifests) || (r.repository == repo && r.oid in Targets(manifests(repo, snapshot).value))
  {
    var key, m := (repo, snapshot), manifests(repo, snapshot).value;
    if r.repository == repo && r.oid in Targets(m) {
      var i :| 0 <= i < |Targets(m)| && Targets(m)[i] == r.oid;
      assert m.refs[i].target == r.oid && key in c'.snapshots && c'.snapshots[key] == Ready;
    }
    if r in Roots(c', manifests) {
      var k, i :| && k in c'.snapshots && c'.snapshots[k] == Ready && manifests(k.0, k.1).Some?
                  && 0 <= i < |manifests(k.0, k.1).value.refs|
                  && r == Ref(k.0, manifests(k.0, k.1).value.refs[i].target);
      if k == key {
        assert Targets(m)[i] == r.oid;
      }
    }
  }

  // A child of a listed object is listed.
  lemma ListedChild(
    c': State, h: Hashes, repo: Id16, objects: seq<Object>, a: Ref, b: Ref, i: nat)
    requires i < |objects| && a == Ref(repo, objects[i].oid) && Edge(c', h, a, b)
    requires Alias(c', a) == IdOf(h, objects[i]) && Alias(c', a) in c'.locations && UniqueContents(c', h)
    requires forall child :: child in ChildrenOf(objects[i]) ==> Lists(objects, child)
    ensures b.repository == repo && Lists(objects, b.oid)
  {
    hide Children;
    var kind, raw :| Names(c', h, a, kind, raw) && b.oid in Children(a.oid, kind, raw);
    assert kind == objects[i].kind && raw == objects[i].raw;
  }

  ghost predicate Listed(repo: Id16, objects: seq<Object>, r: Ref) { r.repository == repo && Lists(objects, r.oid) }

  // Whatever the import makes reachable is listed.
  lemma {:induction false} ReachedOrListed(
    c: State, c': State, h: Hashes, manifests: Manifests, repo: Id16, snapshot: Id16, objects: seq<Object>,
    p: seq<Ref>)
    requires Imports(c, c', h, manifests, repo, snapshot, objects) && UniqueContents(c', h)
    requires IsPath(c', h, Roots(c', manifests), p)
    ensures Listed(repo, objects, p[|p| - 1]) || Reachable(c, h, Roots(c, manifests), p[|p| - 1])
    decreases |p|
  {
    hide Reachable, Edge, Children, Roots, UniqueContents, Closure;
    var last := p[|p| - 1];
    var c1 :| Grown(c, c1, h, repo, objects, c.current.value) && c' == ReadyWith(c1, repo, snapshot);
    ClosureLists(h, manifests, repo, snapshot, objects);
    if |p| == 1 {
      RootsGrow(c, c', manifests, repo, snapshot, last);
      if last in Roots(c, manifests) {
        RootReachable(c, h, Roots(c, manifests), last);
      }
    } else {
      var init, a := p[..|p| - 1], p[|p| - 2];
      assert Edge(c', h, a, last);
      ReachedOrListed(c, c', h, manifests, repo, snapshot, objects, init);
      StepReached(c, c1, c', h, manifests, repo, snapshot, objects, a, last);
    }
  }

  lemma StepReached(
    c: State, c1: State, c': State, h: Hashes, manifests: Manifests, repo: Id16, snapshot: Id16, objects: seq<Object>,
    a: Ref, b: Ref)
    requires c.current.Some? && Grown(c, c1, h, repo, objects, c.current.value) && c' == ReadyWith(c1, repo, snapshot)
    requires UniqueContents(c', h) && Edge(c', h, a, b)
    requires Listed(repo, objects, a) || Reachable(c, h, Roots(c, manifests), a)
    requires forall i, child :: 0 <= i < |objects| && child in ChildrenOf(objects[i]) ==> Lists(objects, child)
    ensures Listed(repo, objects, b) || Reachable(c, h, Roots(c, manifests), b)
  {
    hide Reachable, Children, Roots, UniqueContents;
    var kind, raw :| Names(c', h, a, kind, raw) && b.oid in Children(a.oid, kind, raw);
    if Aliased(c, a) && !Listed(repo, objects, a) {
      assert Names(c, h, a, kind, raw);
      assert Edge(c, h, a, b);
      ChildReachable(c, h, Roots(c, manifests), a, b);
    } else {
      assert Listed(repo, objects, a);
      var i :| 0 <= i < |objects| && objects[i].oid == a.oid;
      ListedChild(c', h, repo, objects, a, b, i);
    }
  }

  lemma ClosureLists(h: Hashes, manifests: Manifests, repo: Id16, snapshot: Id16, objects: seq<Object>)
    requires Closure(h, manifests, repo, snapshot, objects)
    ensures manifests(repo, snapshot).Some?
    ensures forall t :: t in Targets(manifests(repo, snapshot).value) ==> Lists(objects, t)
    ensures forall i, child :: 0 <= i < |objects| && child in ChildrenOf(objects[i]) ==> Lists(objects, child)
  {
    hide Children;
  }

  // ---------- An import keeps everything located exactly when it meets no stale ID ----------

  lemma FreshImportLocates(
    c: State, c': State, h: Hashes, manifests: Manifests, repo: Id16, snapshot: Id16, objects: seq<Object>)
    requires Imports(c, c', h, manifests, repo, snapshot, objects) && UniqueContents(c', h) && Located(c, h, manifests)
    requires forall i :: 0 <= i < |objects| ==> !Stale(c, IdOf(h, objects[i]))
    ensures Located(c', h, manifests)
  {
    hide Reachable, Roots, UniqueContents, Closure;
    forall r | Reachable(c', h, Roots(c', manifests), r) && Aliased(c', r)
      ensures Current(c', Alias(c', r))
    {
      var p := PathTo(c', h, Roots(c', manifests), r);
      ReachedOrListed(c, c', h, manifests, repo, snapshot, objects, p);
      var c1 :| Grown(c, c1, h, repo, objects, c.current.value) && c' == ReadyWith(c1, repo, snapshot);
      if Listed(repo, objects, r) {
        var i :| 0 <= i < |objects| && objects[i].oid == r.oid;
        assert Alias(c', r) == IdOf(h, objects[i]);
      } else {
        assert Aliased(c, r) && Current(c, Alias(c, r));
      }
    }
  }

  lemma PathTo(c: State, h: Hashes, roots: set<Ref>, r: Ref) returns (p: seq<Ref>)
    requires Reachable(c, h, roots, r)
    ensures IsPath(c, h, roots, p) && p[|p| - 1] == r
  {
    hide Edge;
    p :| IsPath(c, h, roots, p) && p[|p| - 1] == r;
  }

  // Every listed object is reachable once the snapshot is Ready.
  lemma {:induction false} ListedIsReachable(
    c: State, c': State, h: Hashes, manifests: Manifests, repo: Id16, snapshot: Id16, objects: seq<Object>, i: nat)
    requires Imports(c, c', h, manifests, repo, snapshot, objects) && i < |objects|
    ensures Reachable(c', h, Roots(c', manifests), Ref(repo, objects[i].oid))
    ensures Aliased(c', Ref(repo, objects[i].oid)) && Alias(c', Ref(repo, objects[i].oid)) == IdOf(h, objects[i])
    decreases i
  {
    hide Reachable, Roots, Children;
    var r, targets := Ref(repo, objects[i].oid), Targets(manifests(repo, snapshot).value);
    var c1 :| Grown(c, c1, h, repo, objects, c.current.value) && c' == ReadyWith(c1, repo, snapshot);
    if objects[i].oid in targets {
      RootsGrow(c, c', manifests, repo, snapshot, r);
      RootReachable(c', h, Roots(c', manifests), r);
    } else {
      var j :| 0 <= j < i && objects[i].oid in ChildrenOf(objects[j]);
      ListedIsReachable(c, c', h, manifests, repo, snapshot, objects, j);
      var a := Ref(repo, objects[j].oid);
      assert Names(c', h, a, objects[j].kind, objects[j].raw);
      assert Edge(c', h, a, r);
      ChildReachable(c', h, Roots(c', manifests), a, r);
    }
  }

  lemma ImportLocatesExactlyWhen(
    c: State, c': State, h: Hashes, manifests: Manifests, repo: Id16, snapshot: Id16, objects: seq<Object>)
    requires Imports(c, c', h, manifests, repo, snapshot, objects) && UniqueContents(c', h) && Located(c, h, manifests)
    ensures Located(c', h, manifests) <==> forall i :: 0 <= i < |objects| ==> !Stale(c, IdOf(h, objects[i]))
  {
    hide Reachable, Roots, UniqueContents, Closure;
    if forall i :: 0 <= i < |objects| ==> !Stale(c, IdOf(h, objects[i])) {
      FreshImportLocates(c, c', h, manifests, repo, snapshot, objects);
    } else {
      var i :| 0 <= i < |objects| && Stale(c, IdOf(h, objects[i]));
      ListedIsReachable(c, c', h, manifests, repo, snapshot, objects, i);
      var c1 :| Grown(c, c1, h, repo, objects, c.current.value) && c' == ReadyWith(c1, repo, snapshot);
      assert !Current(c', IdOf(h, objects[i]));
    }
  }

  // ---------- Collections ----------

  // A successful mark proves that everything is located, so a stale import stops every collection.
  lemma MarkProvesLocated(
    c: State, h: Hashes, manifests: Manifests, retained: seq<Ref>, pairs: seq<Pair>)
    requires c.current.Some? && UniqueContents(c, h) && Agreeing(c, h, RootRefs(c, manifests, retained))
    requires MarkSet(c, h, RootRefs(c, manifests, retained), c.current.value, pairs)
    ensures Located(c, h, manifests)
  {
    hide Reachable, UniqueContents, Agreeing, Complete, Ascending, SnapshotRefs;
    var roots := RootRefs(c, manifests, retained);
    forall r | Reachable(c, h, Roots(c, manifests), r) && Aliased(c, r)
      ensures Current(c, Alias(c, r))
    {
      MoreRoots(c, h, Roots(c, manifests), roots, r);
      MarkCoversReachable(c, h, roots, c.current.value, pairs, r);
      var i :| 0 <= i < |pairs| && pairs[i].0 == Alias(c, r);
      assert InGeneration(c, pairs[i].0, pairs[i].1, c.current.value);
    }
  }

  lemma MoreRoots(c: State, h: Hashes, few: set<Ref>, many: set<Ref>, r: Ref)
    requires few <= many && Reachable(c, h, few, r)
    ensures Reachable(c, h, many, r)
  {
    hide Edge;
    var p :| IsPath(c, h, few, p) && p[|p| - 1] == r;
    assert IsPath(c, h, many, p);
  }

  // A published collection leaves everything located in the new generation.
  lemma CollectionLocates(
    c: State, c': State, h: Hashes, manifests: Manifests, retained: seq<Ref>, store: Records, source: u32,
    live: seq<Pair>, shadow: seq<Pair>)
    requires Collected(c, c', h, RootRefs(c, manifests, retained), store, source, live, shadow)
    requires UniqueContents(c, h) && Agreeing(c, h, RootRefs(c, manifests, retained))
    ensures Located(c', h, manifests) && c'.current == Some(source + 1)
  {
    hide Reachable, UniqueContents, Agreeing, Complete, Ascending, MarkSet, Shadows, SnapshotRefs;
    var roots := RootRefs(c, manifests, retained);
    SameRoots(c, c', manifests);
    forall r | Reachable(c', h, Roots(c', manifests), r) && Aliased(c', r)
      ensures Current(c', Alias(c', r))
    {
      SameGraph(c, c', h, Roots(c, manifests), r);
      MoreRoots(c, h, Roots(c, manifests), roots, r);
      ReachableSurvives(c, c', h, roots, store, source, live, shadow, r);
    }
  }

  lemma SameRoots(c: State, c': State, manifests: Manifests)
    requires c'.snapshots == c.snapshots
    ensures Roots(c', manifests) == Roots(c, manifests)
  {
  }

  // A snapshot that is forgotten leaves fewer roots.
  lemma ForgettingLocates(c: State, h: Hashes, manifests: Manifests, key: (Id16, Id16))
    requires Located(c, h, manifests)
    ensures Located(c.(snapshots := c.snapshots - {key}), h, manifests)
  {
    hide Reachable;
    var c' := c.(snapshots := c.snapshots - {key});
    forall r | Reachable(c', h, Roots(c', manifests), r) && Aliased(c', r)
      ensures Current(c', Alias(c', r))
    {
      SameGraph(c, c', h, Roots(c', manifests), r);
      FewerRoots(c, c', manifests, key);
      MoreRoots(c, h, Roots(c', manifests), Roots(c, manifests), r);
      assert Current(c, Alias(c, r));
    }
  }

  lemma FewerRoots(c: State, c': State, manifests: Manifests, key: (Id16, Id16))
    requires c'.snapshots == c.snapshots - {key}
    ensures Roots(c', manifests) <= Roots(c, manifests)
  {
  }

  // ---------- Imports that stop half way ----------

  // Nothing that a Ready snapshot reaches is missing from its repository.
  ghost predicate Whole(c: State, h: Hashes, manifests: Manifests) {
    forall r :: Reachable(c, h, Roots(c, manifests), r) ==> Aliased(c, r)
  }

  // What a failed import leaves is what a shorter one would have left.
  lemma {:induction false} FailedImportIsPrefix(
    c: State, h: Hashes, repo: Id16, objects: seq<Object>, places: nat -> ObjectLocation) returns (n: nat)
    ensures n <= |objects|
    ensures Imported(c, h, repo, objects[..n], places) == (Imported(c, h, repo, objects, places).0, Ok(()))
  {
    if Imported(c, h, repo, objects, places).1.Ok? {
      n := |objects|;
      assert objects[..n] == objects;
    } else {
      var m := |objects| - 1;
      n := FailedImportIsPrefix(c, h, repo, objects[..m], places);
      assert objects[..m][..n] == objects[..n];
    }
  }

  // More aliases show no whole snapshot anything new.
  lemma {:induction false} GrowthReachesNothing(
    c: State, c': State, h: Hashes, manifests: Manifests, repo: Id16, objects: seq<Object>, generation: u32, p: seq<Ref>)
    requires Grown(c, c', h, repo, objects, generation) && Whole(c, h, manifests)
    requires IsPath(c', h, Roots(c', manifests), p)
    ensures Reachable(c, h, Roots(c, manifests), p[|p| - 1])
    decreases |p|
  {
    hide Reachable, Children, Roots;
    SameRoots(c, c', manifests);
    var last := p[|p| - 1];
    if |p| == 1 {
      RootReachable(c, h, Roots(c, manifests), last);
    } else {
      var a := p[|p| - 2];
      GrowthReachesNothing(c, c', h, manifests, repo, objects, generation, p[..|p| - 1]);
      assert Edge(c', h, a, last);
      var kind, raw :| Names(c', h, a, kind, raw) && last.oid in Children(a.oid, kind, raw);
      assert Names(c, h, a, kind, raw);
      assert Edge(c, h, a, last);
      ChildReachable(c, h, Roots(c, manifests), a, last);
    }
  }

  lemma GrowthKeeps(
    c: State, c': State, h: Hashes, manifests: Manifests, repo: Id16, objects: seq<Object>, generation: u32)
    requires Grown(c, c', h, repo, objects, generation) && Whole(c, h, manifests)
    ensures Whole(c', h, manifests) && (Located(c, h, manifests) ==> Located(c', h, manifests))
  {
    hide Reachable, Roots;
    forall r | Reachable(c', h, Roots(c', manifests), r)
      ensures Aliased(c', r) && (Located(c, h, manifests) ==> Current(c', Alias(c', r)))
    {
      var p := PathTo(c', h, Roots(c', manifests), r);
      GrowthReachesNothing(c, c', h, manifests, repo, objects, generation, p);
      assert Aliased(c, r);
    }
  }

  lemma ImportStaysWhole(
    c: State, c': State, h: Hashes, manifests: Manifests, repo: Id16, snapshot: Id16, objects: seq<Object>)
    requires Imports(c, c', h, manifests, repo, snapshot, objects) && UniqueContents(c', h) && Whole(c, h, manifests)
    ensures Whole(c', h, manifests)
  {
    hide Reachable, Roots, UniqueContents, Closure;
    forall r | Reachable(c', h, Roots(c', manifests), r)
      ensures Aliased(c', r)
    {
      var p := PathTo(c', h, Roots(c', manifests), r);
      ReachedOrListed(c, c', h, manifests, repo, snapshot, objects, p);
      var c1 :| Grown(c, c1, h, repo, objects, c.current.value) && c' == ReadyWith(c1, repo, snapshot);
      if Listed(repo, objects, r) {
        var i :| 0 <= i < |objects| && objects[i].oid == r.oid;
        assert (repo, objects[i].oid) in c1.aliases;
      }
    }
  }

  lemma SameAliasesStayWhole(c: State, c': State, h: Hashes, manifests: Manifests)
    requires c'.aliases == c.aliases && Roots(c', manifests) <= Roots(c, manifests) && Whole(c, h, manifests)
    ensures Whole(c', h, manifests)
  {
    hide Reachable, Roots;
    forall r | Reachable(c', h, Roots(c', manifests), r)
      ensures Aliased(c', r)
    {
      SameGraph(c, c', h, Roots(c', manifests), r);
      MoreRoots(c, h, Roots(c', manifests), Roots(c, manifests), r);
      assert Aliased(c, r);
    }
  }

  // ---------- Whole runs ----------

  // The catalog, and the generations whose directories exist.
  datatype World = World(catalog: State, directories: set<u32>)

  datatype Step =
    | Import(repo: Id16, objects: seq<Object>, places: nat -> ObjectLocation)
    | Publish(repo: Id16, snapshot: Id16, objects: seq<Object>)
    | Forget(repo: Id16, snapshot: Id16)
    | Collect(retained: seq<Ref>, store: Records, live: seq<Pair>, shadow: seq<Pair>)
    | Retire(generation: u32)

  ghost predicate Served(c: State, h: Hashes, manifests: Manifests) {
    Whole(c, h, manifests) && Located(c, h, manifests)
  }

  // The repository's aliases, as far as they go, stand for these objects.
  predicate TrueTo(c: State, h: Hashes, repo: Id16, objects: seq<Object>) {
    forall i :: 0 <= i < |objects| && Aliased(c, Ref(repo, objects[i].oid)) ==>
      Alias(c, Ref(repo, objects[i].oid)) == IdOf(h, objects[i])
  }

  // An import, a publication and a collection each have the catalog to themselves, in any order.
  // A publication does not look at what was imported.
  ghost predicate Next(h: Hashes, manifests: Manifests, w: World, step: Step, w': World) {
    && w.catalog.current.Some?
    && match step
       case Import(repo, objects, places) =>
         && (forall k :: 0 <= k < |objects| ==> places(k).generation == w.catalog.current.value)
         && w' == w.(catalog := Imported(w.catalog, h, repo, objects, places).0)
       case Publish(repo, snapshot, objects) =>
         && Closure(h, manifests, repo, snapshot, objects) && TrueTo(w.catalog, h, repo, objects)
         && w' == w.(catalog := ReadyWith(w.catalog, repo, snapshot))
       case Forget(repo, snapshot) =>
         w' == w.(catalog := w.catalog.(snapshots := w.catalog.snapshots - {(repo, snapshot)}))
       case Collect(retained, store, live, shadow) =>
         && Collected(w.catalog, w'.catalog, h, RootRefs(w.catalog, manifests, retained), store, w.catalog.current.value,
                      live, shadow)
         && w'.directories == w.directories + {w.catalog.current.value + 1}
       case Retire(generation) =>
         generation < w.catalog.current.value && w' == w.(directories := w.directories - {generation})
  }

  // Every published object was imported, and not to a location that a collection left behind since.
  ghost predicate Fresh(h: Hashes, w: World, step: Step) {
    step.Publish? ==>
      forall i :: 0 <= i < |step.objects| ==>
        Aliased(w.catalog, Ref(step.repo, step.objects[i].oid)) && Current(w.catalog, IdOf(h, step.objects[i]))
  }

  // Collected roots agree on their objects.
  ghost predicate Agreed(h: Hashes, manifests: Manifests, w: World, step: Step) {
    step.Collect? ==> Agreeing(w.catalog, h, RootRefs(w.catalog, manifests, step.retained))
  }

  lemma FreshPublicationServes(h: Hashes, manifests: Manifests, w: World, step: Step, w': World)
    requires Next(h, manifests, w, step, w') && step.Publish? && Fresh(h, w, step)
    requires UniqueContents(w'.catalog, h) && Served(w.catalog, h, manifests)
    ensures Served(w'.catalog, h, manifests)
  {
    hide Closure, Whole, Located, UniqueContents;
    assert Grown(w.catalog, w.catalog, h, step.repo, step.objects, w.catalog.current.value);
    ImportStaysWhole(w.catalog, w'.catalog, h, manifests, step.repo, step.snapshot, step.objects);
    FreshImportLocates(w.catalog, w'.catalog, h, manifests, step.repo, step.snapshot, step.objects);
  }

  // Where every snapshot is whole, each published object is reachable, so it has its alias.
  lemma {:induction false} PublishedIsReachable(
    c: State, c': State, h: Hashes, manifests: Manifests, repo: Id16, snapshot: Id16, objects: seq<Object>, i: nat)
    requires Closure(h, manifests, repo, snapshot, objects) && TrueTo(c, h, repo, objects) && i < |objects|
    requires c' == ReadyWith(c, repo, snapshot) && Whole(c', h, manifests)
    ensures Reachable(c', h, Roots(c', manifests), Ref(repo, objects[i].oid))
    ensures Aliased(c', Ref(repo, objects[i].oid)) && Alias(c', Ref(repo, objects[i].oid)) == IdOf(h, objects[i])
    decreases i
  {
    hide Reachable, Roots, Children;
    var r, targets := Ref(repo, objects[i].oid), Targets(manifests(repo, snapshot).value);
    if objects[i].oid in targets {
      RootsGrow(c, c', manifests, repo, snapshot, r);
      RootReachable(c', h, Roots(c', manifests), r);
    } else {
      var j :| 0 <= j < i && objects[i].oid in ChildrenOf(objects[j]);
      PublishedIsReachable(c, c', h, manifests, repo, snapshot, objects, j);
      var a := Ref(repo, objects[j].oid);
      assert Names(c', h, a, objects[j].kind, objects[j].raw);
      assert Edge(c', h, a, r);
      ChildReachable(c', h, Roots(c', manifests), a, r);
    }
    assert Aliased(c', r);
  }

  lemma PublicationServesExactlyWhen(h: Hashes, manifests: Manifests, w: World, step: Step, w': World)
    requires Next(h, manifests, w, step, w') && step.Publish?
    requires UniqueContents(w'.catalog, h) && Served(w.catalog, h, manifests)
    ensures Served(w'.catalog, h, manifests) <==> Fresh(h, w, step)
  {
    hide Closure, Whole, UniqueContents, Reachable, Roots;
    if Fresh(h, w, step) {
      FreshPublicationServes(h, manifests, w, step, w');
    } else if Whole(w'.catalog, h, manifests) {
      forall i | 0 <= i < |step.objects|
        ensures Aliased(w.catalog, Ref(step.repo, step.objects[i].oid))
        ensures Reachable(w'.catalog, h, Roots(w'.catalog, manifests), Ref(step.repo, step.objects[i].oid))
      {
        PublishedIsReachable(w.catalog, w'.catalog, h, manifests, step.repo, step.snapshot, step.objects, i);
      }
    }
  }

  // An import makes no ID stale and refreshes none: an object that it deduplicates stays where it was.
  lemma ImportKeepsStaleness(
    c: State, h: Hashes, repo: Id16, objects: seq<Object>, places: nat -> ObjectLocation, id: ContentId)
    requires c.current.Some? && forall k :: 0 <= k < |objects| ==> places(k).generation == c.current.value
    ensures Stale(Imported(c, h, repo, objects, places).0, id) <==> Stale(c, id)
  {
    hide Imported;
    var n := FailedImportIsPrefix(c, h, repo, objects, places);
    ImportGrows(c, h, repo, objects[..n], places, c.current.value);
  }

  // One step keeps every snapshot served exactly when it is fresh.
  lemma StepServesExactlyWhen(h: Hashes, manifests: Manifests, w: World, step: Step, w': World)
    requires Next(h, manifests, w, step, w') && Agreed(h, manifests, w, step)
    requires UniqueContents(w.catalog, h) && UniqueContents(w'.catalog, h) && Served(w.catalog, h, manifests)
    ensures Served(w'.catalog, h, manifests) <==> Fresh(h, w, step)
  {
    hide UniqueContents, Agreeing, Whole, Located, Closure, Collected, Imported, Roots;
    match step {
      case Import(repo, objects, places) =>
        var n := FailedImportIsPrefix(w.catalog, h, repo, objects, places);
        ImportGrows(w.catalog, h, repo, objects[..n], places, w.catalog.current.value);
        GrowthKeeps(w.catalog, w'.catalog, h, manifests, repo, objects[..n], w.catalog.current.value);
      case Publish(repo, snapshot, objects) =>
        PublicationServesExactlyWhen(h, manifests, w, step, w');
      case Forget(repo, snapshot) =>
        ForgettingLocates(w.catalog, h, manifests, (repo, snapshot));
        FewerRoots(w.catalog, w'.catalog, manifests, (repo, snapshot));
        SameAliasesStayWhole(w.catalog, w'.catalog, h, manifests);
      case Collect(retained, store, live, shadow) =>
        CollectionLocates(w.catalog, w'.catalog, h, manifests, retained, store, w.catalog.current.value, live, shadow);
        CollectionKeepsAliases(w.catalog, w'.catalog, h, manifests, retained, store, w.catalog.current.value, live, shadow);
        SameAliasesStayWhole(w.catalog, w'.catalog, h, manifests);
      case Retire(_) =>
    }
  }

  lemma CollectionKeepsAliases(
    c: State, c': State, h: Hashes, manifests: Manifests, retained: seq<Ref>, store: Records, source: u32,
    live: seq<Pair>, shadow: seq<Pair>)
    requires Collected(c, c', h, RootRefs(c, manifests, retained), store, source, live, shadow)
    ensures c'.aliases == c.aliases && Roots(c', manifests) == Roots(c, manifests)
  {
    hide MarkSet, Shadows;
    SameRoots(c, c', manifests);
  }

  ghost predicate IsRun(h: Hashes, manifests: Manifests, worlds: seq<World>, steps: seq<Step>) {
    && |worlds| == |steps| + 1 && Served(worlds[0].catalog, h, manifests)
    && (forall i :: 0 <= i < |worlds| ==> UniqueContents(worlds[i].catalog, h))
    && (forall i :: 0 <= i < |steps| ==>
          Next(h, manifests, worlds[i], steps[i], worlds[i + 1]) && Agreed(h, manifests, worlds[i], steps[i]))
  }

  lemma {:induction false} ServedUpTo(h: Hashes, manifests: Manifests, worlds: seq<World>, steps: seq<Step>, n: nat)
    requires IsRun(h, manifests, worlds, steps) && n <= |steps|
    requires forall i :: 0 <= i < n ==> Fresh(h, worlds[i], steps[i])
    ensures Served(worlds[n].catalog, h, manifests)
  {
    hide UniqueContents, Agreed, Served, Next, Fresh;
    if n > 0 {
      ServedUpTo(h, manifests, worlds, steps, n - 1);
      assert Next(h, manifests, worlds[n - 1], steps[n - 1], worlds[n - 1 + 1]);
      StepServesExactlyWhen(h, manifests, worlds[n - 1], steps[n - 1], worlds[n]);
    }
  }

  // Over whole runs of imports, publications, forgotten snapshots, collections and retirements:
  // everything a Ready snapshot reaches is known and in the current generation exactly as long as
  // every publication came after its objects' imports, with no collection leaving them behind.
  lemma RunServesExactlyWhen(h: Hashes, manifests: Manifests, worlds: seq<World>, steps: seq<Step>)
    requires IsRun(h, manifests, worlds, steps)
    ensures (forall n :: 0 <= n < |worlds| ==> Served(worlds[n].catalog, h, manifests))
            <==> forall i :: 0 <= i < |steps| ==> Fresh(h, worlds[i], steps[i])
  {
    hide UniqueContents, Agreed, Served, Next, Fresh;
    if forall i :: 0 <= i < |steps| ==> Fresh(h, worlds[i], steps[i]) {
      forall n | 0 <= n < |worlds|
        ensures Served(worlds[n].catalog, h, manifests)
      {
        ServedUpTo(h, manifests, worlds, steps, n);
      }
    } else {
      var i := FirstStale(h, worlds, steps, 0);
      ServedUpTo(h, manifests, worlds, steps, i);
      assert Next(h, manifests, worlds[i], steps[i], worlds[i + 1]);
      StepServesExactlyWhen(h, manifests, worlds[i], steps[i], worlds[i + 1]);
      assert !Served(worlds[i + 1].catalog, h, manifests);
    }
  }

  lemma {:induction false} FirstStale(h: Hashes, worlds: seq<World>, steps: seq<Step>, from: nat) returns (i: nat)
    requires |worlds| == |steps| + 1 && from <= |steps|
    requires forall k :: 0 <= k < from ==> Fresh(h, worlds[k], steps[k])
    requires exists k :: 0 <= k < |steps| && !Fresh(h, worlds[k], steps[k])
    ensures i < |steps| && !Fresh(h, worlds[i], steps[i])
    ensures forall k :: 0 <= k < i ==> Fresh(h, worlds[k], steps[k])
    decreases |steps| - from
  {
    hide Fresh;
    if from < |steps| && Fresh(h, worlds[from], steps[from]) {
      i := FirstStale(h, worlds, steps, from + 1);
    } else {
      i := from;
    }
  }

  // What is in the current generation is in a directory that exists: no retirement takes it away.
  lemma {:induction false} CurrentHasDirectory(
    h: Hashes, manifests: Manifests, worlds: seq<World>, steps: seq<Step>, n: nat)
    requires IsRun(h, manifests, worlds, steps) && n < |worlds|
    requires worlds[0].catalog.current.Some? && worlds[0].catalog.current.value in worlds[0].directories
    ensures worlds[n].catalog.current.Some? && worlds[n].catalog.current.value in worlds[n].directories
  {
    hide UniqueContents, Agreed, Served;
    if n > 0 {
      CurrentHasDirectory(h, manifests, worlds, steps, n - 1);
      assert Next(h, manifests, worlds[n - 1], steps[n - 1], worlds[n - 1 + 1]);
      NextKeepsDirectory(h, manifests, worlds[n - 1], steps[n - 1], worlds[n]);
    }
  }

  lemma NextKeepsDirectory(h: Hashes, manifests: Manifests, w: World, step: Step, w': World)
    requires Next(h, manifests, w, step, w') && w.catalog.current.value in w.directories
    ensures w'.catalog.current.Some? && w'.catalog.current.value in w'.directories
  {
    hide Closure, Imported, MarkSet, Shadows;
    if step.Import? {
      var n := FailedImportIsPrefix(w.catalog, h, step.repo, step.objects, step.places);
      ImportGrows(w.catalog, h, step.repo, step.objects[..n], step.places, w.catalog.current.value);
    }
  }

  lemma ReachableHasDirectory(
    h: Hashes, manifests: Manifests, worlds: seq<World>, steps: seq<Step>, n: nat, r: Ref)
    requires IsRun(h, manifests, worlds, steps) && n < |worlds|
    requires worlds[0].catalog.current.Some? && worlds[0].catalog.current.value in worlds[0].directories
    requires forall i :: 0 <= i < n ==> Fresh(h, worlds[i], steps[i])
    requires Reachable(worlds[n].catalog, h, Roots(worlds[n].catalog, manifests), r)
    ensures var c := worlds[n].catalog;
            Aliased(c, r) && Alias(c, r) in c.locations && c.locations[Alias(c, r)].generation in worlds[n].directories
  {
    hide UniqueContents, Agreed, Next, Fresh, Reachable, Roots;
    ServedUpTo(h, manifests, worlds, steps, n);
    CurrentHasDirectory(h, manifests, worlds, steps, n);
  }
}
