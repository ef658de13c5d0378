/** The canonical byte stream behind a directory digest (crates/reflink-forest-backup). */
module DirectoryDigest {
  import opened Bytes

  // What a directory listing shows, in whatever order the host returns it.
  datatype Node = File(content: seq<byte>) | Directory(entries: seq<Entry>) | Special

  datatype Entry = Entry(name: seq<byte>, node: Node)

  const MAGIC: seq<byte> := [82, 70, 65, 85, 84, 68, 48, 49]
  const FILE: byte := 70
  const DIRECTORY: byte := 68
  const END: byte := 69

  const MAX_PATH_BYTES := 1024 * 1024

  datatype DigestError = VerificationFailed | InvalidColdTierLayout

  // A host never lists one name twice, and file lengths fit 64 bits.
  ghost predicate Listed(n: Node) {
    match n
    case File(content) => |content| <= U64_MAX
    case Special => true
    case Directory(entries) =>
      && (forall i, j :: 0 <= i < j < |entries| ==> entries[i].name != entries[j].name)
      && (forall i :: 0 <= i < |entries| ==> Listed(entries[i].node))
  }

  predicate Hashable(n: Node) {
    match n
    case File(_) => true
    case Special => false
    case Directory(entries) =>
      forall i :: 0 <= i < |entries| ==> |entries[i].name| <= MAX_PATH_BYTES && Hashable(entries[i].node)
  }

  // ---------- The stream of an ordered tree ----------

  function NameBytes(name: seq<byte>): seq<byte> { BigEndian(|name|, 4) + name }

  function KindByte(n: Node): byte {
    match n
    case File(_) => FILE
    case Directory(_) => DIRECTORY
    case Special => END
  }

  function EntryStream(e: Entry): seq<byte>
    decreases e
  {
    [KindByte(e.node)] + NameBytes(e.name) + NodeStream(e.node)
  }

  function NodeStream(n: Node): seq<byte>
    decreases n
  {
    match n
    case File(content) => BigEndian(|content|, 8) + content
    case Directory(entries) => ListStream(entries)
    case Special => []
  }

  // Each directory ends with its own marker.
  function ListStream(entries: seq<Entry>): seq<byte>
    decreases entries
  {
    if entries == [] then [END] else EntryStream(entries[0]) + ListStream(entries[1..])
  }

  ghost predicate Streamable(entries: seq<Entry>) {
    Listed(Directory(entries)) && Hashable(Directory(entries))
  }

  lemma StreamableParts(entries: seq<Entry>)
    requires Streamable(entries) && entries != []
    ensures Streamable(entries[1..])
    ensures |entries[0].name| <= MAX_PATH_BYTES && Listed(entries[0].node) && Hashable(entries[0].node)
    ensures entries[0].node.Directory? ==> Streamable(entries[0].node.entries)
  {
  }

  lemma PrefixSplits(a: seq<byte>, b: seq<byte>, ta: seq<byte>, tb: seq<byte>)
    requires |a| == |b| && a + ta == b + tb
    ensures a == b && ta == tb
  {
    assert (a + ta)[..|a|] == a && (b + tb)[..|a|] == b;
    assert (a + ta)[|a|..] == ta && (b + tb)[|a|..] == tb;
  }

  lemma BlockSplits(a: seq<byte>, b: seq<byte>, width: nat, ta: seq<byte>, tb: seq<byte>)
    requires |a| < Pow256(width) && |b| < Pow256(width)
    requires (BigEndian(|a|, width) + a) + ta == (BigEndian(|b|, width) + b) + tb
    ensures a == b && ta == tb
  {
    hide BigEndian, FromBigEndian, Pow256;
    assert BigEndian(|a|, width) + (a + ta) == (BigEndian(|a|, width) + a) + ta;
    assert BigEndian(|b|, width) + (b + tb) == (BigEndian(|b|, width) + b) + tb;
    PrefixSplits(BigEndian(|a|, width), BigEndian(|b|, width), a + ta, b + tb);
    DecodeBigEndian(|a|, width);
    DecodeBigEndian(|b|, width);
    PrefixSplits(a, b, ta, tb);
  }

  // No stream is a prefix of another, so a tree is read back from its stream in only one way.
  lemma {:induction false} EntryStreamSplits(a: Entry, b: Entry, ta: seq<byte>, tb: seq<byte>)
    requires |a.name| <= U32_MAX && |b.name| <= U32_MAX
    requires Listed(a.node) && Hashable(a.node) && Listed(b.node) && Hashable(b.node)
    requires EntryStream(a) + ta == EntryStream(b) + tb
    ensures a == b && ta == tb
    decreases a
  {
    hide BigEndian, Listed, Hashable, NodeStream, Pow256;
    Pow256Widths();
    var sa, sb := NodeStream(a.node) + ta, NodeStream(b.node) + tb;
    assert EntryStream(a) + ta == [KindByte(a.node)] + (NameBytes(a.name) + sa);
    assert EntryStream(b) + tb == [KindByte(b.node)] + (NameBytes(b.name) + sb);
    PrefixSplits([KindByte(a.node)], [KindByte(b.node)], NameBytes(a.name) + sa, NameBytes(b.name) + sb);
    BlockSplits(a.name, b.name, 4, sa, sb);
    NodeStreamSplits(a.node, b.node, ta, tb);
  }

  lemma {:induction false} NodeStreamSplits(a: Node, b: Node, ta: seq<byte>, tb: seq<byte>)
    requires Listed(a) && Hashable(a) && Listed(b) && Hashable(b) && KindByte(a) == KindByte(b)
    requires NodeStream(a) + ta == NodeStream(b) + tb
    ensures a == b && ta == tb
    decreases a
  {
    hide BigEndian, ListStream, Pow256;
    match a {
      case File(content) =>
        Pow256Widths();
        BlockSplits(content, b.content, 8, ta, tb);
      case Directory(entries) =>
        ListStreamSplits(entries, b.entries, ta, tb);
    }
  }

  lemma {:induction false} ListStreamSplits(a: seq<Entry>, b: seq<Entry>, ta: seq<byte>, tb: seq<byte>)
    requires Streamable(a) && Streamable(b)
    requires ListStream(a) + ta == ListStream(b) + tb
    ensures a == b && ta == tb
    decreases a
  {
    hide EntryStream, Streamable;
    FirstByte(a, ta);
    FirstByte(b, tb);
    if a == [] || b == [] {
      assert (ListStream(a) + ta)[1..] == ta && (ListStream(b) + tb)[1..] == tb;
    } else {
      StreamableParts(a);
      StreamableParts(b);
      assert EntryStream(a[0]) + (ListStream(a[1..]) + ta) == ListStream(a) + ta;
      assert EntryStream(b[0]) + (ListStream(b[1..]) + tb) == ListStream(b) + tb;
      EntryStreamSplits(a[0], b[0], ListStream(a[1..]) + ta, ListStream(b[1..]) + tb);
      ListStreamSplits(a[1..], b[1..], ta, tb);
      assert a == [a[0]] + a[1..] && b == [b[0]] + b[1..];
    }
  }

  lemma FirstByte(entries: seq<Entry>, tail: seq<byte>)
    requires Streamable(entries)
    ensures ListStream(entries) != []
    ensures (ListStream(entries) + tail)[0] == END <==> entries == []
  {
    if entries != [] {
      StreamableParts(entries);
    }
  }

  // ---------- Canonical order ----------

  function Insert(e: Entry, sorted: seq<Entry>): seq<Entry> {
    if sorted == [] || Less(e.name, sorted[0].name) then [e] + sorted
    else [sorted[0]] + Insert(e, sorted[1..])
  }

  function Sort(entries: seq<Entry>): seq<Entry> {
    if entries == [] then [] else Insert(entries[0], Sort(entries[1..]))
  }

  function Canonical(n: Node): Node
    decreases n
  {
    match n
    case Directory(entries) => Directory(CanonicalList(entries))
    case _ => n
  }

  function CanonicalEntry(e: Entry): Entry
    decreases e
  {
    Entry(e.name, Canonical(e.node))
  }

  function CanonicalList(entries: seq<Entry>): seq<Entry>
    decreases entries
  {
    if entries == [] then [] else Insert(CanonicalEntry(entries[0]), CanonicalList(entries[1..]))
  }

  // ---------- Meaning ----------

  // A tree without its listing order.
  datatype Content = FileOf(bytes: seq<byte>) | DirectoryOf(children: map<seq<byte>, Content>) | SpecialOf

  ghost function Meaning(n: Node): Content
    decreases n
  {
    match n
    case File(content) => FileOf(content)
    case Special => SpecialOf
    case Directory(entries) => DirectoryOf(MeaningList(entries))
  }

  ghost function MeaningList(entries: seq<Entry>): map<seq<byte>, Content>
    decreases entries
  {
    if entries == [] then map[] else MeaningList(entries[1..])[entries[0].name := Meaning(entries[0].node)]
  }

  ghost function Names(entries: seq<Entry>): set<seq<byte>> {
    if entries == [] then {} else {entries[0].name} + Names(entries[1..])
  }

  // Every directory of the tree is in order.
  ghost predicate Ordered(n: Node)
    decreases n
  {
    n.Directory? ==> OrderedList(n.entries)
  }

  ghost predicate OrderedList(entries: seq<Entry>)
    decreases entries
  {
    entries == []
    || ((forall n :: n in Names(entries[1..]) ==> Less(entries[0].name, n)) && Ordered(entries[0].node) && OrderedList(entries[1..]))
  }

  lemma {:induction false} MeaningKeys(entries: seq<Entry>)
    ensures MeaningList(entries).Keys == Names(entries)
  {
    hide Meaning;
    if entries != [] {
      MeaningKeys(entries[1..]);
    }
  }

  lemma ConsFacts(e: Entry, rest: seq<Entry>)
    ensures var r := [e] + rest;
            && r[1..] == rest && Names(r) == {e.name} + Names(rest)
            && MeaningList(r) == MeaningList(rest)[e.name := Meaning(e.node)]
  {
    assert ([e] + rest)[1..] == rest;
  }

  // Inserting a new name keeps the order and adds exactly that entry.
  lemma {:induction false} InsertFacts(e: Entry, sorted: seq<Entry>)
    requires OrderedList(sorted) && Ordered(e.node) && e.name !in Names(sorted)
    ensures var r := Insert(e, sorted);
            && OrderedList(r) && Names(r) == Names(sorted) + {e.name}
            && MeaningList(r) == MeaningList(sorted)[e.name := Meaning(e.node)]
  {
    hide Meaning, Less, Ordered;
    if sorted == [] || Less(e.name, sorted[0].name) {
      ConsFacts(e, sorted);
      forall n | n in Names(sorted)
        ensures Less(e.name, n)
      {
        if n != sorted[0].name {
          LessTransitive(e.name, sorted[0].name, n);
        }
      }
    } else {
      var first, rest := sorted[0], sorted[1..];
      InsertFacts(e, rest);
      ConsFacts(first, Insert(e, rest));
      LessTotal(e.name, first.name);
      assert MeaningList(rest)[e.name := Meaning(e.node)][first.name := Meaning(first.node)]
          == MeaningList(rest)[first.name := Meaning(first.node)][e.name := Meaning(e.node)];
    }
  }

  lemma DistinctNames(entries: seq<Entry>)
    requires Listed(Directory(entries)) && entries != []
    ensures entries[0].name !in Names(entries[1..]) && Listed(Directory(entries[1..])) && Listed(entries[0].node)
  {
    NamesAre(entries[1..]);
  }

  lemma {:induction false} NamesAre(entries: seq<Entry>)
    ensures forall n :: n in Names(entries) ==> exists i :: 0 <= i < |entries| && entries[i].name == n
  {
    if entries != [] {
      NamesAre(entries[1..]);
      forall n | n in Names(entries)
        ensures exists i :: 0 <= i < |entries| && entries[i].name == n
      {
        if n == entries[0].name {
        } else {
          assert n in Names(entries[1..]);
          var i :| 0 <= i < |entries[1..]| && entries[1..][i].name == n;
          assert entries[i + 1].name == n;
        }
      }
    }
  }

  // The canonical tree is in order and means the same.
  lemma {:induction false} CanonicalKeeps(n: Node)
    requires Listed(n)
    ensures Ordered(Canonical(n)) && Meaning(Canonical(n)) == Meaning(n)
    decreases n
  {
    if n.Directory? {
      CanonicalListKeeps(n.entries);
    }
  }

  lemma {:induction false} CanonicalListKeeps(entries: seq<Entry>)
    requires Listed(Directory(entries))
    ensures OrderedList(CanonicalList(entries)) && MeaningList(CanonicalList(entries)) == MeaningList(entries)
    ensures Names(CanonicalList(entries)) == Names(entries)
    decreases entries
  {
    hide Listed, Insert;
    if entries != [] {
      DistinctNames(entries);
      CanonicalKeeps(entries[0].node);
      CanonicalListKeeps(entries[1..]);
      InsertFacts(CanonicalEntry(entries[0]), CanonicalList(entries[1..]));
    }
  }

  // An ordered tree is determined by its meaning.
  lemma {:induction false} OrderedIsUnique(a: Node, b: Node)
    requires Ordered(a) && Ordered(b) && Meaning(a) == Meaning(b)
    ensures a == b
    decreases a
  {
    if a.Directory? {
      OrderedListIsUnique(a.entries, b.entries);
    }
  }

  lemma {:induction false} OrderedListIsUnique(a: seq<Entry>, b: seq<Entry>)
    requires OrderedList(a) && OrderedList(b) && MeaningList(a) == MeaningList(b)
    ensures a == b
    decreases a
  {
    hide Meaning, Ordered, Less;
    MeaningKeys(a);
    MeaningKeys(b);
    if a != [] && b != [] {
      FirstIsLeast(a, b);
      OrderedIsUnique(a[0].node, b[0].node);
      WithoutFirst(a);
      WithoutFirst(b);
      OrderedListIsUnique(a[1..], b[1..]);
      assert a == [a[0]] + a[1..] && b == [b[0]] + b[1..];
    }
  }

  lemma FirstIsLeast(a: seq<Entry>, b: seq<Entry>)
    requires a != [] && b != [] && OrderedList(a) && OrderedList(b) && MeaningList(a) == MeaningList(b)
    ensures a[0].name == b[0].name && Meaning(a[0].node) == Meaning(b[0].node)
  {
    hide Meaning, Ordered, Less;
    MeaningKeys(a);
    MeaningKeys(b);
    assert a[0].name in Names(b) && b[0].name in Names(a);
    if a[0].name != b[0].name {
      LessAsymmetric(a[0].name, b[0].name);
    }
  }

  lemma WithoutFirst(entries: seq<Entry>)
    requires entries != [] && OrderedList(entries)
    ensures MeaningList(entries[1..]) == MeaningList(entries) - {entries[0].name}
  {
    hide Meaning, Ordered, Less;
    MeaningKeys(entries[1..]);
    LessIrreflexive(entries[0].name);
  }

  // ---------- The digest's stream ----------

  function DigestStream(entries: seq<Entry>): seq<byte> { MAGIC + ListStream(CanonicalList(entries)) }

  lemma ExampleSorted(a: Entry, b: Entry)
    requires a == Entry([97], File([7])) && b == Entry([98], Directory([]))
    ensures CanonicalList([b, a]) == [a, b]
  {
    assert [b, a][1..] == [a] && [a][1..] == [];
    assert CanonicalList([]) == [];
    assert CanonicalList([a]) == [a];
    assert Less([97], [98]) && !Less([98], [97]);
    assert Insert(b, [a]) == [a] + Insert(b, []);
  }

  // A file "a" of one byte beside an empty directory "b", listed in the other order.
  lemma ExampleStream()
    ensures DigestStream([Entry([98], Directory([])), Entry([97], File([7]))])
            == [82, 70, 65, 85, 84, 68, 48, 49] + [70, 0, 0, 0, 1, 97] + [0, 0, 0, 0, 0, 0, 0, 1, 7] + [68, 0, 0, 0, 1, 98] + [69] + [69]
  {
    hide BigEndian, EntryStream, CanonicalList;
    var a, b := Entry([97], File([7])), Entry([98], Directory([]));
    ExampleSorted(a, b);
    ExampleEntries(a, b);
    assert [a, b][1..] == [b] && [b][1..] == [];
    assert ListStream([]) == [69];
    assert ListStream([b]) == EntryStream(b) + [69];
    assert ListStream([a, b]) == EntryStream(a) + ListStream([b]);
  }

  lemma ExampleEntries(a: Entry, b: Entry)
    requires a == Entry([97], File([7])) && b == Entry([98], Directory([]))
    ensures EntryStream(a) == [70, 0, 0, 0, 1, 97] + [0, 0, 0, 0, 0, 0, 0, 1, 7]
    ensures EntryStream(b) == [68, 0, 0, 0, 1, 98] + [69]
  {
    hide BigEndian;
    OneInBytes();
    assert NodeStream(b.node) == [69];
  }

  lemma OneInBytes()
    ensures BigEndian(1, 4) == [0, 0, 0, 1] && BigEndian(1, 8) == [0, 0, 0, 0, 0, 0, 0, 1]
  {
    assert BigEndian(0, 3) == [0, 0, 0];
    assert BigEndian(0, 5) == [0, 0] + BigEndian(0, 3);
    assert BigEndian(0, 7) == [0, 0] + BigEndian(0, 5);
  }


  // Two listings feed the digest the same bytes exactly when they are the same tree.
  lemma StreamIsMeaning(a: seq<Entry>, b: seq<Entry>)
    requires Streamable(a) && Streamable(b)
    ensures DigestStream(a) == DigestStream(b) <==> MeaningList(a) == MeaningList(b)
  {
    hide Listed, Hashable, ListStream, OrderedList, MeaningList, CanonicalList;
    CanonicalListKeeps(a);
    CanonicalListKeeps(b);
    if MeaningList(a) == MeaningList(b) {
      OrderedListIsUnique(CanonicalList(a), CanonicalList(b));
    }
    if DigestStream(a) == DigestStream(b) {
      CanonicalStreamable(a);
      CanonicalStreamable(b);
      PrefixSplits(MAGIC, MAGIC, ListStream(CanonicalList(a)), ListStream(CanonicalList(b)));
      assert ListStream(CanonicalList(a)) + [] == ListStream(CanonicalList(b)) + [];
      ListStreamSplits(CanonicalList(a), CanonicalList(b), [], []);
    }
  }

  ghost predicate Fits(e: Entry) {
    |e.name| <= MAX_PATH_BYTES && Listed(e.node) && Hashable(e.node)
  }

  lemma {:induction false} CanonicalStreamable(entries: seq<Entry>)
    requires Streamable(entries)
    ensures Streamable(CanonicalList(entries))
    decreases entries, 1
  {
    hide Less, Insert;
    CanonicalListKeeps(entries);
    CanonicalListFits(entries);
    OrderedIsDistinct(CanonicalList(entries));
  }

  lemma {:induction false} OrderedIsDistinct(entries: seq<Entry>)
    requires OrderedList(entries)
    ensures forall i, j :: 0 <= i < j < |entries| ==> entries[i].name != entries[j].name
  {
    hide Less, Ordered;
    if entries != [] {
      var rest := entries[1..];
      OrderedIsDistinct(rest);
      NamesHold(rest);
      LessIrreflexive(entries[0].name);
      forall i, j | 0 <= i < j < |entries|
        ensures entries[i].name != entries[j].name
      {
        assert entries[j] == rest[j - 1];
        assert i > 0 ==> entries[i] == rest[i - 1];
      }
    }
  }

  lemma {:induction false} NamesHold(entries: seq<Entry>)
    ensures forall i :: 0 <= i < |entries| ==> entries[i].name in Names(entries)
  {
    if entries != [] {
      NamesHold(entries[1..]);
      assert forall i :: 0 < i < |entries| ==> entries[i] == entries[1..][i - 1];
    }
  }

  lemma {:induction false} InsertFits(e: Entry, sorted: seq<Entry>)
    ensures Fits(e) && (forall i :: 0 <= i < |sorted| ==> Fits(sorted[i])) ==>
              forall i :: 0 <= i < |Insert(e, sorted)| ==> Fits(Insert(e, sorted)[i])
  {
    hide Less, Fits;
    if !(sorted == [] || Less(e.name, sorted[0].name)) {
      InsertFits(e, sorted[1..]);
    }
  }

  lemma {:induction false} CanonicalListFits(entries: seq<Entry>)
    requires Streamable(entries)
    ensures forall i :: 0 <= i < |CanonicalList(entries)| ==> Fits(CanonicalList(entries)[i])
    decreases entries, 0
  {
    hide Insert;
    if entries != [] {
      StreamableParts(entries);
      CanonicalListFits(entries[1..]);
      if entries[0].node.Directory? {
        CanonicalStreamable(entries[0].node.entries);
      }
      assert Fits(CanonicalEntry(entries[0]));
      InsertFits(CanonicalEntry(entries[0]), CanonicalList(entries[1..]));
    }
  }

  // ---------- The hashing walk ----------

  function CanonicalEach(entries: seq<Entry>): seq<Entry> {
    if entries == [] then [] else [CanonicalEntry(entries[0])] + CanonicalEach(entries[1..])
  }

  lemma {:induction false} InsertCommutes(e: Entry, sorted: seq<Entry>)
    ensures CanonicalEach(Insert(e, sorted)) == Insert(CanonicalEntry(e), CanonicalEach(sorted))
  {
    hide Less, Canonical;
    if sorted == [] || Less(e.name, sorted[0].name) {
      assert ([e] + sorted)[1..] == sorted;
    } else {
      InsertCommutes(e, sorted[1..]);
      assert CanonicalEach(sorted)[1..] == CanonicalEach(sorted[1..]);
      assert ([sorted[0]] + Insert(e, sorted[1..]))[1..] == Insert(e, sorted[1..]);
    }
  }

  // Sorting the children and then each child is the canonical order of the whole tree.
  lemma {:induction false} SortThenDescend(entries: seq<Entry>)
    ensures CanonicalEach(Sort(entries)) == CanonicalList(entries)
  {
    hide Canonical, Insert;
    if entries != [] {
      SortThenDescend(entries[1..]);
      InsertCommutes(entries[0], Sort(entries[1..]));
    }
  }

  lemma {:induction false} InsertHolds(e: Entry, sorted: seq<Entry>)
    ensures forall x :: x in Insert(e, sorted) <==> x == e || x in sorted
  {
    hide Less;
    if !(sorted == [] || Less(e.name, sorted[0].name)) {
      InsertHolds(e, sorted[1..]);
      assert sorted == [sorted[0]] + sorted[1..];
    }
  }

  // The bytes a SHA-256 state has absorbed.
  class Hasher {
    var fed: seq<byte>

    constructor ()
      ensures fed == []
    {
      fed := [];
    }

    method Update(bytes: seq<byte>)
      modifies this
      ensures fed == old(fed) + bytes
    {
      fed := fed + bytes;
    }
  }

  method NamesAccepted(entries: seq<Entry>) returns (ok: bool)
    ensures ok <==> forall i :: 0 <= i < |entries| ==> |entries[i].name| <= MAX_PATH_BYTES
  {
    for i := 0 to |entries|
      invariant forall k :: 0 <= k < i ==> |entries[k].name| <= MAX_PATH_BYTES
    {
      if |entries[i].name| > MAX_PATH_BYTES {
        return false;
      }
    }
    return true;
  }

  method SortedChildren(entries: seq<Entry>) returns (children: seq<Entry>)
    ensures children == Sort(entries)
    ensures forall x :: x in children <==> x in entries
  {
    hide Insert;
    children := [];
    for i := |entries| downto 0
      invariant children == Sort(entries[i..])
      invariant forall x :: x in children <==> x in entries[i..]
    {
      InsertHolds(entries[i], children);
      children := Insert(entries[i], children);
      assert entries[i..][1..] == entries[i + 1..];
      assert entries[i..] == [entries[i]] + entries[i + 1..];
    }
  }

  method HashName(hasher: Hasher, name: seq<byte>) returns (result: Result<(), DigestError>)
    modifies hasher
    ensures result.Ok? <==> |name| <= U32_MAX
    ensures result.Ok? ==> hasher.fed == old(hasher.fed) + NameBytes(name)
  {
    if |name| > U32_MAX {
      return Err(InvalidColdTierLayout);
    }
    hasher.Update(BigEndian(|name|, 4));
    hasher.Update(name);
    return Ok(());
  }

  predicate EntryHashable(e: Entry) { |e.name| <= MAX_PATH_BYTES && Hashable(e.node) }

  // Names are accepted before anything is fed.
  method HashEntry(e: Entry, hasher: Hasher) returns (result: Result<(), DigestError>)
    requires Listed(e.node) && |e.name| <= MAX_PATH_BYTES
    modifies hasher
    ensures result.Ok? <==> EntryHashable(e)
    ensures result.Ok? ==> hasher.fed == old(hasher.fed) + EntryStream(CanonicalEntry(e))
    decreases e
  {
    hide CanonicalList, BigEndian, ListStream;
    if e.node.Special? {
      return Err(VerificationFailed);
    }
    hasher.Update([KindByte(e.node)]);
    var named := HashName(hasher, e.name);
    if named.Err? {
      return named;
    }
    match e.node {
      case File(content) =>
        hasher.Update(BigEndian(|content|, 8));
        hasher.Update(content);
        return Ok(());
      case Directory(inner) =>
        result := HashEntries(inner, hasher);
    }
  }

  // Fails exactly on something that is neither file nor directory, or on a name that is too long.
  method HashEntries(entries: seq<Entry>, hasher: Hasher) returns (result: Result<(), DigestError>)
    requires Listed(Directory(entries))
    modifies hasher
    ensures result.Ok? <==> Hashable(Directory(entries))
    ensures result.Ok? ==> hasher.fed == old(hasher.fed) + ListStream(CanonicalList(entries))
    decreases entries
  {
    hide Sort, CanonicalList, EntryStream, CanonicalEntry, EntryHashable;
    var accepted := NamesAccepted(entries);
    if !accepted {
      return Err(VerificationFailed);
    }
    var children := SortedChildren(entries);
    SortThenDescend(entries);
    ChildrenHashable(entries, children);
    for i := 0 to |children|
      invariant hasher.fed + ListStream(CanonicalEach(children[i..])) == old(hasher.fed) + ListStream(CanonicalList(entries))
      invariant forall k :: 0 <= k < i ==> EntryHashable(children[k])
    {
      assert children[i] in entries;
      ghost var before := hasher.fed;
      var fed := HashEntry(children[i], hasher);
      if fed.Err? {
        return fed;
      }
      EntryFed(before, children, i);
    }
    assert children[|children|..] == [];
    hasher.Update([END]);
    return Ok(());
  }

  lemma ChildrenHashable(entries: seq<Entry>, children: seq<Entry>)
    requires forall x :: x in children <==> x in entries
    ensures Hashable(Directory(entries)) <==> forall k :: 0 <= k < |children| ==> EntryHashable(children[k])
  {
    forall i | 0 <= i < |entries|
      ensures entries[i] in children
    {
    }
    forall k | 0 <= k < |children|
      ensures children[k] in entries
    {
    }
    assert Hashable(Directory(entries)) <==> forall i :: 0 <= i < |entries| ==> EntryHashable(entries[i]);
  }

  lemma EntryFed(before: seq<byte>, children: seq<Entry>, i: nat)
    requires i < |children|
    ensures before + ListStream(CanonicalEach(children[i..]))
            == before + EntryStream(CanonicalEntry(children[i])) + ListStream(CanonicalEach(children[i + 1..]))
  {
    hide EntryStream, CanonicalEntry;
    assert children[i..][1..] == children[i + 1..];
    var each := CanonicalEach(children[i..]);
    assert each[0] == CanonicalEntry(children[i]) && each[1..] == CanonicalEach(children[i + 1..]);
    assert ListStream(each) == EntryStream(each[0]) + ListStream(each[1..]);
  }

  method HashDirectory(entries: seq<Entry>) returns (result: Result<(), DigestError>, hasher: Hasher)
    requires Listed(Directory(entries))
    ensures result.Ok? <==> Hashable(Directory(entries))
    ensures result.Ok? ==> hasher.fed == DigestStream(entries)
  {
    hasher := new Hasher();
    hasher.Update(MAGIC);
    result := HashEntries(entries, hasher);
  }
}
