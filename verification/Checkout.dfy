/** Checkout plans and their materialization (crates/reflink-forest-checkout). */
module Checkout {
  import opened Bytes
  import opened Core
  import opened PathOrder

  // A relative path as tree names; the name rules are those of `PathOrder.ValidName`.
  type Path = seq<seq<byte>>

  datatype Limits = Limits(maxEntries: nat, maxComponents: nat, maxComponentBytes: nat, maxPathBytes: nat)

  datatype Mode = Regular | Executable | Symlink | Gitlink

  datatype PlannedObject = PlannedObject(mode: Mode, oid: Oid)

  datatype CheckoutError =
    | EmptyPath
    | AbsolutePath
    | EmptyComponent
    | NulByte
    | SlashInComponent
    | DotComponent
    | DotDotComponent
    | ComponentTooLong
    | PathTooLong
    | TooManyComponents
    | TooManyEntries
    | DuplicatePath
    | PathConflict

  // ---------- Paths ----------

  function NameError(name: seq<byte>, limits: Limits): Option<CheckoutError> {
    if name == [] then Some(EmptyComponent)
    else if 0 in name then Some(NulByte)
    else if SLASH in name then Some(SlashInComponent)
    else if name == [46] then Some(DotComponent)
    else if name == [46, 46] then Some(DotDotComponent)
    else if |name| > limits.maxComponentBytes then Some(ComponentTooLong)
    else None
  }

  function EncodedLength(path: Path): nat {
    if path == [] then 0 else |path[0]| + (if |path| == 1 then 0 else 1 + EncodedLength(path[1..]))
  }

  lemma {:induction false} EncodedLengthIsJoin(path: Path)
    ensures EncodedLength(path) == |Join(path)|
  {
    if |path| > 1 {
      EncodedLengthIsJoin(path[1..]);
    }
  }

  function ShapeError(path: Path, limits: Limits): Option<CheckoutError> {
    if path == [] then Some(EmptyPath)
    else if exists i :: 0 <= i < |path| && |path[i]| > limits.maxComponentBytes then Some(ComponentTooLong)
    else if |path| > limits.maxComponents then Some(TooManyComponents)
    else if EncodedLength(path) > limits.maxPathBytes then Some(PathTooLong)
    else None
  }

  // Valid names within the limits.
  predicate WellShaped(path: Path, limits: Limits) {
    ValidNames(path) && ShapeError(path, limits).None?
  }

  function FirstNameError(path: Path, limits: Limits): Option<CheckoutError> {
    if path == [] then None
    else if NameError(path[0], limits).Some? then NameError(path[0], limits)
    else FirstNameError(path[1..], limits)
  }

  function ParsePath(raw: seq<byte>, limits: Limits): Result<Path, CheckoutError> {
    if raw == [] then Err(EmptyPath)
    else if raw[0] == SLASH then Err(AbsolutePath)
    else if |raw| > limits.maxPathBytes then Err(PathTooLong)
    else
      var names := Split(raw);
      if |names| > limits.maxComponents then Err(TooManyComponents)
      else if FirstNameError(names, limits).Some? then Err(FirstNameError(names, limits).value)
      else Ok(names)
  }

  lemma {:induction false} NoNameError(path: Path, limits: Limits)
    ensures FirstNameError(path, limits).None? <==>
            ValidNames(path) && forall i :: 0 <= i < |path| ==> |path[i]| <= limits.maxComponentBytes
  {
    if path != [] {
      NoNameError(path[1..], limits);
      assert path == [path[0]] + path[1..];
      assert forall i :: 0 < i < |path| ==> path[i] == path[1..][i - 1];
    }
  }

  // What a refused path is told first.
  lemma ParseErrorMeans(raw: seq<byte>, limits: Limits)
    ensures ParsePath(raw, limits) == Err(EmptyPath) <==> raw == []
    ensures raw != [] ==> (ParsePath(raw, limits) == Err(AbsolutePath) <==> raw[0] == SLASH)
    ensures raw != [] && raw[0] != SLASH ==> (ParsePath(raw, limits) == Err(PathTooLong) <==> |raw| > limits.maxPathBytes)
  {
    hide Split;
    FirstNameErrors(Split(raw), limits);
  }

  lemma {:induction false} FirstNameErrors(path: Path, limits: Limits)
    ensures FirstNameError(path, limits).Some? ==> FirstNameError(path, limits).value !in {EmptyPath, AbsolutePath, PathTooLong}
  {
    if path != [] {
      FirstNameErrors(path[1..], limits);
    }
  }

  // Parsing accepts exactly the written forms of well-shaped paths, and reads back what was written.
  lemma ParseIsExact(raw: seq<byte>, limits: Limits)
    ensures ParsePath(raw, limits).Ok? ==> WellShaped(ParsePath(raw, limits).value, limits) && Join(ParsePath(raw, limits).value) == raw
  {
    hide Split, Join, ValidName, NameError;
    JoinSplit(raw);
    NoNameError(Split(raw), limits);
    EncodedLengthIsJoin(Split(raw));
  }

  lemma WrittenParses(path: Path, limits: Limits)
    requires WellShaped(path, limits)
    ensures ParsePath(Join(path), limits) == Ok(path)
  {
    hide Split, NameError, Join;
    SplitJoin(path);
    NoNameError(path, limits);
    EncodedLengthIsJoin(path);
    JoinFirst(path);
    assert ValidName(path[0]);
    assert Join(path)[0] == path[0][0];
  }

  // ---------- The builder ----------

  // Neither path is the other or a directory above it.
  predicate Apart(p: Path, q: Path) { !(p <= q) && !(q <= p) }

  ghost predicate Admits(limits: Limits, taken: set<Path>, path: Path) {
    && ShapeError(path, limits).None? && |taken| < limits.maxEntries
    && forall q :: q in taken ==> Apart(q, path)
  }

  // Which refusal an addition meets, exactly.
  ghost predicate Answers(
    limits: Limits, entries: map<Path, PlannedObject>, path: Path, result: Result<(), CheckoutError>)
  {
    var shaped, taken, full := ShapeError(path, limits).None?, path in entries, |entries| >= limits.maxEntries;
    && (ShapeError(path, limits).Some? ==> result == Err(ShapeError(path, limits).value))
    && (result == Err(DuplicatePath) <==> shaped && taken)
    && (result == Err(TooManyEntries) <==> shaped && !taken && full)
    && (result == Err(PathConflict) <==> shaped && !taken && !full && exists q :: q in entries && !Apart(q, path))
  }

  class PlanBuilder {
    const limits: Limits
    var entries: map<Path, PlannedObject>

    constructor (limits: Limits)
      ensures this.limits == limits && entries == map[]
    {
      this.limits, entries := limits, map[];
    }

    method AncestorTaken(path: Path) returns (found: bool)
      ensures found <==> exists q :: q in entries && q != [] && q < path
    {
      var end := 1;
      while end < |path|
        invariant 1 <= end
        invariant forall q :: q in entries && q != [] && q < path ==> end <= |q|
      {
        if path[..end] in entries {
          assert path[..end] < path;
          return true;
        }
        forall q: Path | q < path && |q| == end
          ensures q == path[..end]
        {
        }
        end := end + 1;
      }
      return false;
    }

    method DescendantTaken(path: Path) returns (found: bool)
      ensures found <==> exists q :: q in entries && path < q
    {
      var rest := entries.Keys;
      while rest != {}
        invariant rest <= entries.Keys
        invariant forall q :: q in entries && q !in rest ==> !(path < q)
        decreases |rest|
      {
        var q :| q in rest;
        if path < q {
          return true;
        }
        rest := rest - {q};
      }
      return false;
    }

    // The path is admitted exactly when it is apart from every planned one and within the limits.
    method Add(path: Path, object_: PlannedObject) returns (result: Result<(), CheckoutError>)
      requires [] !in entries
      modifies this`entries
      ensures result.Ok? <==> Admits(limits, old(entries.Keys), path)
      ensures entries == if result.Ok? then old(entries)[path := object_] else old(entries)
      ensures Answers(limits, old(entries), path, result)
      ensures [] !in entries
    {
      ShapeErrorMeans(path, limits);
      hide ShapeError;
      ShapedIsNotEmpty(path, limits);
      var shape := ShapeError(path, limits);
      if shape.Some? {
        return Err(shape.value);
      }
      if path in entries {
        return Err(DuplicatePath);
      }
      if |entries| + 1 > limits.maxEntries {
        return Err(TooManyEntries);
      }
      var above := AncestorTaken(path);
      if above {
        return Err(PathConflict);
      }
      var below := DescendantTaken(path);
      if below {
        return Err(PathConflict);
      }
      assert |entries| == |entries.Keys|;
      forall q | q in entries
        ensures Apart(q, path)
      {
        assert q <= path ==> q == path || q < path;
        assert path <= q ==> q == path || path < q;
      }
      entries := entries[path := object_];
      return Ok(());
    }
  }

  // Each refusal of a path or a name says what is wrong with it.
  lemma ShapeErrorMeans(path: Path, limits: Limits)
    ensures var error := ShapeError(path, limits);
            && (error.None? <==>
                  && path != [] && (forall i :: 0 <= i < |path| ==> |path[i]| <= limits.maxComponentBytes)
                  && |path| <= limits.maxComponents && EncodedLength(path) <= limits.maxPathBytes)
            && (error == Some(EmptyPath) <==> path == [])
            && (error == Some(ComponentTooLong) <==> exists i :: 0 <= i < |path| && |path[i]| > limits.maxComponentBytes)
            && (error == Some(TooManyComponents) ==> |path| > limits.maxComponents)
            && (error == Some(PathTooLong) ==> EncodedLength(path) > limits.maxPathBytes)
            && (error.Some? ==> error.value in {EmptyPath, ComponentTooLong, TooManyComponents, PathTooLong})
  {
  }

  lemma NameErrorMeans(name: seq<byte>, limits: Limits)
    ensures var error := NameError(name, limits);
            && (error == Some(EmptyComponent) <==> name == []) && (error == Some(NulByte) <==> 0 in name)
            && (error == Some(SlashInComponent) <==> SLASH in name && 0 !in name)
            && (error == Some(DotComponent) <==> name == [46]) && (error == Some(DotDotComponent) <==> name == [46, 46])
            && (error == Some(ComponentTooLong) ==> |name| > limits.maxComponentBytes)
  {
  }

  lemma ShapedIsNotEmpty(path: Path, limits: Limits)
    ensures ShapeError(path, limits).None? ==> path != []
  {
  }

  // ---------- Acceptance does not depend on order ----------

  // What a list of additions must satisfy, whatever its order.
  ghost predicate Acceptable(limits: Limits, paths: seq<Path>) {
    && |paths| <= limits.maxEntries
    && (forall p :: p in paths ==> ShapeError(p, limits).None? && multiset(paths)[p] == 1)
    && (forall p, q :: p in paths && q in paths && p != q ==> Apart(p, q))
  }

  lemma AcceptableIsOrderless(limits: Limits, a: seq<Path>, b: seq<Path>)
    requires multiset(a) == multiset(b)
    ensures Acceptable(limits, a) <==> Acceptable(limits, b)
  {
    assert |a| == |multiset(a)| && |b| == |multiset(b)|;
    assert forall p :: p in a <==> p in multiset(a);
    assert forall p :: p in b <==> p in multiset(b);
  }

  ghost function PathSet(paths: seq<Path>): set<Path> { set p | p in paths }

  lemma {:induction false} DistinctCount(paths: seq<Path>)
    requires forall p :: p in paths ==> multiset(paths)[p] == 1
    ensures |PathSet(paths)| == |paths|
  {
    if paths != [] {
      var n := |paths| - 1;
      var init, last := paths[..n], paths[n];
      assert paths == init + [last];
      assert multiset(paths)[last] == multiset(init)[last] + 1;
      assert last !in init;
      forall p | p in init
        ensures multiset(init)[p] == 1
      {
        assert p in paths && multiset(paths)[p] == multiset(init)[p];
      }
      DistinctCount(init);
      assert PathSet(paths) == PathSet(init) + {last};
    }
  }

  lemma AcceptableGrows(limits: Limits, paths: seq<Path>, p: Path)
    ensures Acceptable(limits, paths + [p]) <==> Acceptable(limits, paths) && Admits(limits, PathSet(paths), p)
  {
    hide ShapeError, Apart;
    var grown := paths + [p];
    assert forall q :: multiset(grown)[q] == multiset(paths)[q] + if q == p then 1 else 0;
    assert forall q :: q in grown <==> q in paths || q == p;
    if Acceptable(limits, paths) {
      DistinctCount(paths);
      if Admits(limits, PathSet(paths), p) {
        NotApartFromItself(p);
        ApartIsSymmetric();
      }
    }
    if Acceptable(limits, grown) {
      assert p in grown && multiset(paths)[p] == 0;
      assert p !in paths;
      forall q | q in paths
        ensures multiset(paths)[q] == 1
      {
        assert q in grown && multiset(grown)[q] == 1;
      }
      DistinctCount(paths);
      assert forall q :: q in PathSet(paths) ==> q in grown && q != p;
    }
  }

  lemma NotApartFromItself(p: Path)
    ensures !Apart(p, p)
  {
  }

  lemma ApartIsSymmetric()
    ensures forall p, q :: Apart(p, q) <==> Apart(q, p)
  {
  }

  // Adding a whole list succeeds exactly when it is acceptable, so in any order or in none.
  method AddAll(builder: PlanBuilder, adds: seq<(Path, PlannedObject)>) returns (result: Result<(), CheckoutError>)
    requires builder.entries == map[]
    modifies builder`entries
    ensures result.Ok? <==> Acceptable(builder.limits, AddedPaths(adds))
    ensures result.Ok? ==> builder.entries.Keys == PathSet(AddedPaths(adds))
    ensures result.Ok? ==> forall i :: 0 <= i < |adds| ==> adds[i].0 in builder.entries && builder.entries[adds[i].0] == adds[i].1
    ensures [] !in builder.entries
  {
    hide Acceptable, Admits, Answers, PathSet;
    ghost var paths := AddedPaths(adds);
    assert PathSet(paths[..0]) == {} by {
      NoPaths(paths);
    }
    assert Acceptable(builder.limits, []) by {
      NothingIsAcceptable(builder.limits);
    }
    for i := 0 to |adds|
      invariant [] !in builder.entries
      invariant Acceptable(builder.limits, paths[..i]) && builder.entries.Keys == PathSet(paths[..i])
      invariant forall k :: 0 <= k < i ==> adds[k].0 in builder.entries && builder.entries[adds[k].0] == adds[k].1
    {
      AcceptableGrows(builder.limits, paths[..i], paths[i]);
      assert paths[..i + 1] == paths[..i] + [paths[i]];
      AdmittedIsNew(builder.limits, PathSet(paths[..i]), paths[i]);
      PathSetGrows(paths, i);
      PrefixOfAcceptable(builder.limits, paths, i + 1);
      var added := builder.Add(adds[i].0, adds[i].1);
      if added.Err? {
        return added;
      }
    }
    assert paths[..|adds|] == paths;
    return Ok(());
  }

  function AddedPaths(adds: seq<(Path, PlannedObject)>): (paths: seq<Path>)
    ensures |paths| == |adds|
  {
    seq(|adds|, i requires 0 <= i < |adds| => adds[i].0)
  }

  lemma NoPaths(paths: seq<Path>)
    ensures PathSet(paths[..0]) == {}
  {
  }

  lemma PathSetGrows(paths: seq<Path>, i: nat)
    requires i < |paths|
    ensures PathSet(paths[..i + 1]) == PathSet(paths[..i]) + {paths[i]}
  {
    assert paths[..i + 1] == paths[..i] + [paths[i]];
  }

  lemma NothingIsAcceptable(limits: Limits)
    ensures Acceptable(limits, [])
  {
  }

  lemma AdmittedIsNew(limits: Limits, taken: set<Path>, path: Path)
    ensures Admits(limits, taken, path) ==> path !in taken
  {
    NotApartFromItself(path);
  }

  lemma {:induction false} PrefixOfAcceptable(limits: Limits, paths: seq<Path>, n: nat)
    requires n <= |paths|
    ensures Acceptable(limits, paths) ==> Acceptable(limits, paths[..n])
    decreases |paths| - n
  {
    hide Acceptable, Admits;
    if n < |paths| {
      PrefixOfAcceptable(limits, paths, n + 1);
      assert paths[..n + 1] == paths[..n] + [paths[n]];
      AcceptableGrows(limits, paths[..n], paths[n]);
    } else {
      assert paths[..n] == paths;
    }
  }

  // ---------- The finished plan ----------

  ghost predicate AscendingPaths(paths: seq<Path>) {
    forall i, j :: 0 <= i < j < |paths| ==> NamesLess(paths[i], paths[j])
  }

  method Position(sorted: seq<Path>, path: Path) returns (k: nat)
    requires AscendingPaths(sorted) && path !in sorted
    ensures k <= |sorted|
    ensures forall i :: 0 <= i < k ==> NamesLess(sorted[i], path)
    ensures forall i :: k <= i < |sorted| ==> NamesLess(path, sorted[i])
  {
    hide NamesLess;
    k := 0;
    while k < |sorted| && NamesLess(sorted[k], path)
      invariant k <= |sorted|
      invariant forall i :: 0 <= i < k ==> NamesLess(sorted[i], path)
    {
      k := k + 1;
    }
    forall i | k <= i < |sorted|
      ensures NamesLess(path, sorted[i])
    {
      NamesLessTotal(path, sorted[k]);
      if k < i {
        NamesLessTransitive(path, sorted[k], sorted[i]);
      }
    }
  }

  method SortPaths(paths: set<Path>) returns (sorted: seq<Path>)
    ensures AscendingPaths(sorted) && forall p :: p in sorted <==> p in paths
  {
    hide NamesLess;
    sorted := [];
    var rest := paths;
    while rest != {}
      invariant rest <= paths && AscendingPaths(sorted)
      invariant forall p :: p in sorted <==> p in paths && p !in rest
      decreases |rest|
    {
      var p :| p in rest;
      rest := rest - {p};
      var k := Position(sorted, p);
      sorted := sorted[..k] + [p] + sorted[k..];
    }
  }

  // `d` is a directory above some planned path.
  ghost predicate Above(d: Path, paths: set<Path>) {
    d != [] && exists q :: q in paths && d < q
  }

  method ParentPaths(path: Path) returns (parents: set<Path>)
    ensures forall d :: d in parents <==> d != [] && d < path
  {
    parents := {};
    var end := 1;
    while end < |path|
      invariant 1 <= end
      invariant forall d :: d in parents <==> d != [] && d < path && |d| < end
    {
      forall d: Path | d < path && |d| == end
        ensures d == path[..end]
      {
      }
      parents := parents + {path[..end]};
      end := end + 1;
    }
  }

  // The plan's directories are exactly the strict parents of its entries, in order; so are its entries.
  method Finish(entries: map<Path, PlannedObject>) returns (directories: seq<Path>, paths: seq<Path>)
    ensures AscendingPaths(directories) && forall d :: d in directories <==> Above(d, entries.Keys)
    ensures AscendingPaths(paths) && forall p :: p in paths <==> p in entries
  {
    hide NamesLess;
    var found: set<Path>, rest := {}, entries.Keys;
    while rest != {}
      invariant rest <= entries.Keys
      invariant forall d :: d in found <==> Above(d, entries.Keys - rest)
      decreases |rest|
    {
      var p :| p in rest;
      var parents := ParentPaths(p);
      assert entries.Keys - (rest - {p}) == (entries.Keys - rest) + {p};
      AboveGrows(entries.Keys - rest, p);
      rest := rest - {p};
      found := found + parents;
    }
    assert entries.Keys - {} == entries.Keys;
    directories := SortPaths(found);
    paths := SortPaths(entries.Keys);
  }

  lemma AboveGrows(paths: set<Path>, p: Path)
    ensures forall d :: Above(d, paths + {p}) <==> Above(d, paths) || (d != [] && d < p)
  {
    forall d: Path
      ensures Above(d, paths + {p}) <==> Above(d, paths) || (d != [] && d < p)
    {
      if d != [] && d < p {
        assert p in paths + {p};
      }
    }
  }

  // The documentation says entries are sorted by their raw bytes; they are sorted as paths,
  // which is the same exactly when no two entries clash.
  lemma RawOrderIffNoClash(paths: seq<Path>)
    requires AscendingPaths(paths) && forall p :: p in paths ==> p != [] && ValidNames(p)
    ensures (forall i, j :: 0 <= i < j < |paths| ==> Less(Join(paths[i]), Join(paths[j]))) <==>
            (forall i, j :: 0 <= i < j < |paths| ==> !Clash(paths[i], paths[j]))
  {
    hide NamesLess, Less, Join, Clash, ValidNames;
    forall i, j | 0 <= i < j < |paths|
      ensures Less(Join(paths[i]), Join(paths[j])) <==> !Clash(paths[i], paths[j])
    {
      assert paths[i] in paths && paths[j] in paths;
      OrdersAgree(paths[i], paths[j]);
    }
  }

  // ---------- Materialization ----------

  datatype Node = Folder | RegularFile(oid: Oid, executable: bool) | Link(target: seq<byte>)

  type Tree = map<Path, Node>

  datatype MaterializeError = CreationFailed | SourceFailed | GitlinkRejected | InvalidSymlinkTarget

  datatype Source = Source(hasBlob: Oid -> bool, link: Oid -> Option<seq<byte>>)

  // The host creates a name in an existing directory where nothing has that name yet.
  function Create(tree: Tree, path: Path, node: Node): Option<Tree> {
    if path == [] || path in tree then None
    else
      var parent := path[..|path| - 1];
      if parent != [] && (parent !in tree || tree[parent] != Folder) then None else Some(tree[path := node])
  }

  // A creation succeeds exactly on a free name in the root or in a directory, and adds only that name.
  lemma CreatesExactlyWhen(tree: Tree, path: Path, node: Node)
    ensures var created := Create(tree, path, node);
            && (created.Some? <==>
                  && path != [] && path !in tree
                  && (|path| == 1 || (path[..|path| - 1] in tree && tree[path[..|path| - 1]] == Folder)))
            && (created.Some? ==>
                  created.value.Keys == tree.Keys + {path} && created.value[path] == node
                  && forall p :: p in tree ==> created.value[p] == tree[p])
  {
    if |path| == 1 {
      assert path[..0] == [];
    }
  }

  function NodeFor(o: PlannedObject, source: Source, emptyGitlinks: bool): Result<Node, MaterializeError> {
    match o.mode
    case Regular => if source.hasBlob(o.oid) then Ok(RegularFile(o.oid, false)) else Err(SourceFailed)
    case Executable => if source.hasBlob(o.oid) then Ok(RegularFile(o.oid, true)) else Err(SourceFailed)
    case Symlink =>
      var target := source.link(o.oid);
      if target.None? then Err(SourceFailed) else if 0 in target.value then Err(InvalidSymlinkTarget) else Ok(Link(target.value))
    case Gitlink => if emptyGitlinks then Ok(Folder) else Err(GitlinkRejected)
  }

  // An entry that can be written, and what it must be on disk: a file with its blob, executable
  // exactly for mode 100755, a link with its target, or the empty directory of a gitlink.
  predicate Writable(o: PlannedObject, source: Source, emptyGitlinks: bool) {
    match o.mode
    case Regular => source.hasBlob(o.oid)
    case Executable => source.hasBlob(o.oid)
    case Symlink => source.link(o.oid).Some? && 0 !in source.link(o.oid).value
    case Gitlink => emptyGitlinks
  }

  predicate Represents(node: Node, o: PlannedObject, source: Source) {
    match o.mode
    case Regular => node.RegularFile? && node.oid == o.oid && !node.executable
    case Executable => node.RegularFile? && node.oid == o.oid && node.executable
    case Symlink => node.Link? && Some(node.target) == source.link(o.oid)
    case Gitlink => node == Folder
  }

  // Why an entry cannot be written.
  predicate Blames(error: MaterializeError, o: PlannedObject, source: Source, emptyGitlinks: bool) {
    match error
    case CreationFailed => false
    case SourceFailed =>
      ((o.mode == Regular || o.mode == Executable) && !source.hasBlob(o.oid)) || (o.mode == Symlink && source.link(o.oid).None?)
    case InvalidSymlinkTarget => o.mode == Symlink && source.link(o.oid).Some? && 0 in source.link(o.oid).value
    case GitlinkRejected => o.mode == Gitlink && !emptyGitlinks
  }

  lemma NodeMeans(o: PlannedObject, source: Source, emptyGitlinks: bool)
    ensures var node := NodeFor(o, source, emptyGitlinks);
            && (node.Ok? <==> Writable(o, source, emptyGitlinks))
            && (node.Ok? ==> Represents(node.value, o, source))
            && (node.Err? ==> Blames(node.error, o, source, emptyGitlinks))
  {
  }

  ghost predicate Antichain(paths: set<Path>) {
    forall p, q :: p in paths && q in paths && p != q ==> Apart(p, q)
  }

  lemma AcceptedIsAntichain(limits: Limits, paths: seq<Path>)
    requires Acceptable(limits, paths)
    ensures Antichain(PathSet(paths)) && [] !in PathSet(paths)
  {
    forall p | p in paths
      ensures p != []
    {
      ShapedIsNotEmpty(p, limits);
    }
  }

  // A parent directory sorts before its children, so it was created before them.
  lemma ParentComesFirst(directories: seq<Path>, paths: set<Path>, i: nat)
    requires AscendingPaths(directories) && (forall d :: d in directories <==> Above(d, paths)) && i < |directories|
    ensures var d := directories[i];
            && d != [] && d !in directories[..i]
            && (|d| > 1 ==> d[..|d| - 1] in directories[..i])
  {
    hide NamesLess;
    var d := directories[i];
    assert d in directories;
    NamesLessIrreflexive(d);
    if |d| > 1 {
      var parent := d[..|d| - 1];
      var q :| q in paths && d < q;
      assert parent < q;
      assert Above(parent, paths);
      var j :| 0 <= j < |directories| && directories[j] == parent;
      PrefixComesFirst(parent, d);
      if i < j {
        NamesLessTransitive(parent, d, parent);
        NamesLessIrreflexive(parent);
      }
      assert directories[..i][j] == parent;
    }
  }

  lemma {:induction false} PrefixComesFirst(p: Path, q: Path)
    requires p < q
    ensures NamesLess(p, q)
  {
    if p != [] {
      PrefixComesFirst(p[1..], q[1..]);
    }
  }

  // Creates the directories in order. `accepts` says which of the host's creations, counted from
  // zero, it performs.
  method CreateDirectories(directories: seq<Path>, ghost keys: set<Path>, accepts: nat -> bool) returns (tree: Option<Tree>)
    requires AscendingPaths(directories) && forall d :: d in directories <==> Above(d, keys)
    ensures tree.Some? <==> forall k :: 0 <= k < |directories| ==> accepts(k)
    ensures tree.Some? ==>
              (forall p :: p in tree.value <==> p in directories) && (forall p :: p in tree.value ==> tree.value[p] == Folder)
  {
    hide NamesLess;
    var built: Tree := map[];
    for i := 0 to |directories|
      invariant forall k :: 0 <= k < i ==> accepts(k)
      invariant forall p :: p in built <==> p in directories[..i]
      invariant forall p :: p in built ==> built[p] == Folder
    {
      ParentComesFirst(directories, keys, i);
      var created := Create(built, directories[i], Folder);
      if created.None? || !accepts(i) {
        return None;
      }
      built := created.value;
    }
    return Some(built);
  }

  // No parent is missing and no name is taken: a plan fails only for a reason of its own entries
  // or the host's.
  method Materialize(
    entries: map<Path, PlannedObject>, directories: seq<Path>, paths: seq<Path>, source: Source, emptyGitlinks: bool,
    accepts: nat -> bool)
      returns (result: Result<Tree, MaterializeError>)
    requires Antichain(entries.Keys) && [] !in entries
    requires AscendingPaths(directories) && forall d :: d in directories <==> Above(d, entries.Keys)
    requires AscendingPaths(paths) && forall p :: p in paths <==> p in entries
    ensures result.Ok? <==>
            && (forall p :: p in entries ==> Writable(entries[p], source, emptyGitlinks))
            && (forall k :: 0 <= k < |directories| + |paths| ==> accepts(k))
    ensures result == Err(CreationFailed) ==> exists k :: 0 <= k < |directories| + |paths| && !accepts(k)
    ensures result.Err? && result.error != CreationFailed ==>
              exists p :: p in entries && Blames(result.error, entries[p], source, emptyGitlinks)
    ensures result.Ok? ==>
              && (forall p :: p in result.value <==> p in entries || Above(p, entries.Keys))
              && (forall p :: p in entries ==> Represents(result.value[p], entries[p], source))
              && (forall p :: Above(p, entries.Keys) ==> result.value[p] == Folder)
  {
    hide NamesLess, NodeFor, Antichain, AscendingPaths, Above, Writable, Represents, Blames;
    var folders := CreateDirectories(directories, entries.Keys, accepts);
    if folders.None? {
      return Err(CreationFailed);
    }
    var tree := folders.value;
    for i := 0 to |paths|
      invariant forall k :: 0 <= k < |directories| + i ==> accepts(k)
      invariant forall p :: p in tree <==> p in directories || p in paths[..i]
      invariant forall p :: p in directories ==> tree[p] == Folder
      invariant forall p :: p in paths[..i] ==>
                  Writable(entries[p], source, emptyGitlinks) && Represents(tree[p], entries[p], source)
    {
      EntryHasRoom(entries.Keys, directories, paths, i);
      var node := NodeFor(entries[paths[i]], source, emptyGitlinks);
      NodeMeans(entries[paths[i]], source, emptyGitlinks);
      if node.Err? {
        assert paths[i] in entries;
        NoCreationFailure(node.error, entries[paths[i]], source, emptyGitlinks);
        return Err(node.error);
      }
      var created := Create(tree, paths[i], node.value);
      if created.None? || !accepts(|directories| + i) {
        return Err(CreationFailed);
      }
      tree := created.value;
    }
    return Ok(tree);
  }

  // From the list of paths to the finished tree: an acceptable list whose entries can be written,
  // on a host that performs every creation, and nothing else.
  method CheckOut(
    builder: PlanBuilder, adds: seq<(Path, PlannedObject)>, source: Source, emptyGitlinks: bool, accepts: nat -> bool)
      returns (planned: bool, result: Result<Tree, MaterializeError>)
    requires builder.entries == map[]
    modifies builder`entries
    ensures planned <==> Acceptable(builder.limits, AddedPaths(adds))
    ensures planned && (forall k :: accepts(k)) ==>
              && result != Err(CreationFailed)
              && (result.Ok? <==> forall i :: 0 <= i < |adds| ==> Writable(adds[i].1, source, emptyGitlinks))
    ensures planned && result.Ok? ==>
              && (forall i :: 0 <= i < |adds| ==>
                    adds[i].0 in result.value && Represents(result.value[adds[i].0], adds[i].1, source))
              && (forall p :: p in result.value ==> p in AddedPaths(adds) || Above(p, PathSet(AddedPaths(adds))))
  {
    hide Acceptable, Writable, Represents, Blames, NamesLess;
    var added := AddAll(builder, adds);
    if added.Err? {
      return false, Err(CreationFailed);
    }
    AcceptedIsAntichain(builder.limits, AddedPaths(adds));
    var directories, paths := Finish(builder.entries);
    planned := true;
    result := Materialize(builder.entries, directories, paths, source, emptyGitlinks, accepts);
    forall p | p in builder.entries
      ensures exists i :: 0 <= i < |adds| && adds[i].0 == p && adds[i].1 == builder.entries[p]
    {
      assert p in AddedPaths(adds);
      var i :| 0 <= i < |adds| && AddedPaths(adds)[i] == p;
      assert adds[i].0 == p;
    }
  }

  lemma NoCreationFailure(error: MaterializeError, o: PlannedObject, source: Source, emptyGitlinks: bool)
    requires Blames(error, o, source, emptyGitlinks)
    ensures error != CreationFailed
  {
  }

  lemma EntryHasRoom(keys: set<Path>, directories: seq<Path>, paths: seq<Path>, i: nat)
    requires Antichain(keys) && [] !in keys && i < |paths|
    requires forall d :: d in directories <==> Above(d, keys)
    requires AscendingPaths(paths) && forall p :: p in paths <==> p in keys
    ensures var p := paths[i];
            && p in keys && p != [] && p !in directories && p !in paths[..i]
            && (|p| > 1 ==> p[..|p| - 1] in directories)
  {
    hide NamesLess;
    var p := paths[i];
    assert p in paths;
    NamesLessIrreflexive(p);
    assert |p| > 1 ==> Above(p[..|p| - 1], keys);
  }
}
