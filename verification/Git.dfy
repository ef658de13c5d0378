/** Raw Git objects: direct references and the exact reachability walk (crates/reflink-forest-git). */
module Git {
  import opened Bytes
  import opened Core

  datatype GitObject = GitObject(oid: Oid, kind: ObjectKind, data: seq<byte>)

  datatype GitTreeEntry = GitTreeEntry(mode: nat, name: seq<byte>, oid: Oid)

  datatype GitError =
    | ObjectNotFound(oid: Oid)
    | WrongAlgorithm
    | UnexpectedOidLength
    | InvalidHexOid
    | MalformedObject(reason: string)

  const NUL: byte := 0
  const NEWLINE: byte := 10
  const SPACE: byte := 32
  const SLASH: byte := 47

  // "tree ", "parent " and "object "
  const TREE_PREFIX: seq<byte> := [116, 114, 101, 101, 32]
  const PARENT_PREFIX: seq<byte> := [112, 97, 114, 101, 110, 116, 32]
  const OBJECT_PREFIX: seq<byte> := [111, 98, 106, 101, 99, 116, 32]

  // ---------- Hexadecimal object IDs ----------

  function HexDigit(b: byte): Result<nat, GitError> {
    if 48 <= b <= 57 then Ok(b - 48)
    else if 97 <= b <= 102 then Ok(b - 97 + 10)
    else if 65 <= b <= 70 then Ok(b - 65 + 10)
    else Err(InvalidHexOid)
  }

  function HexBytes(hex: seq<byte>): Result<seq<byte>, GitError>
    requires |hex| % 2 == 0
  {
    if hex == [] then Ok([])
    else
      var high, low := HexDigit(hex[0]), HexDigit(hex[1]);
      if high.Err? || low.Err? then Err(InvalidHexOid)
      else
        var rest := HexBytes(hex[2..]);
        if rest.Err? then Err(InvalidHexOid) else Ok([16 * high.value + low.value] + rest.value)
  }

  lemma {:induction false} HexBytesLength(hex: seq<byte>)
    requires |hex| % 2 == 0 && HexBytes(hex).Ok?
    ensures 2 * |HexBytes(hex).value| == |hex|
  {
    if hex != [] {
      HexBytesLength(hex[2..]);
    }
  }

  function ParseHexOid(algorithm: HashAlgorithm, hex: seq<byte>): Result<Oid, GitError> {
    if |hex| != 2 * OidLen(algorithm) then Err(UnexpectedOidLength)
    else
      var bytes := HexBytes(hex);
      if bytes.Err? then Err(bytes.error)
      else HexBytesLength(hex); Ok(GitOid(algorithm, bytes.value))
  }

  function HexNibble(n: nat): byte
    requires n < 16
  {
    if n < 10 then 48 + n else 97 + n - 10
  }

  function ToHex(bytes: seq<byte>): (hex: seq<byte>)
    ensures |hex| == 2 * |bytes|
  {
    if bytes == [] then [] else [HexNibble(bytes[0] / 16), HexNibble(bytes[0] % 16)] + ToHex(bytes[1..])
  }

  lemma {:induction false} HexRoundTrip(bytes: seq<byte>)
    ensures HexBytes(ToHex(bytes)) == Ok(bytes)
  {
    if bytes != [] {
      HexRoundTrip(bytes[1..]);
      assert HexDigit(HexNibble(bytes[0] / 16)) == Ok(bytes[0] / 16);
      assert HexDigit(HexNibble(bytes[0] % 16)) == Ok(bytes[0] % 16);
      assert bytes == [bytes[0]] + bytes[1..];
      assert ToHex(bytes)[2..] == ToHex(bytes[1..]);
    }
  }

  lemma HexOidRoundTrip(oid: Oid)
    ensures ParseHexOid(oid.algorithm, ToHex(oid.bytes)) == Ok(oid)
  {
    HexRoundTrip(oid.bytes);
  }

  function LowerDigit(b: byte): byte { if 65 <= b <= 70 then b + 32 else b }

  function Lowered(hex: seq<byte>): (s: seq<byte>)
    ensures |s| == |hex| && forall i :: 0 <= i < |hex| ==> s[i] == LowerDigit(hex[i])
  {
    if hex == [] then [] else [LowerDigit(hex[0])] + Lowered(hex[1..])
  }

  lemma DigitParsesExactly(b: byte, n: nat)
    requires n < 16
    ensures HexDigit(b) == Ok(n) <==> LowerDigit(b) == HexNibble(n)
  {
  }

  // One byte of hex text at a time, as it prints ...
  lemma PrintedFirst(hex: seq<byte>, bytes: seq<byte>)
    requires |hex| >= 2 && bytes != []
    ensures Lowered(hex) == ToHex(bytes) <==>
            && LowerDigit(hex[0]) == HexNibble(bytes[0] / 16) && LowerDigit(hex[1]) == HexNibble(bytes[0] % 16)
            && Lowered(hex[2..]) == ToHex(bytes[1..])
  {
    hide HexNibble, LowerDigit, Lowered;
    var a, b := Lowered(hex), ToHex(bytes);
    assert a[2..] == Lowered(hex[2..]) && b[2..] == ToHex(bytes[1..]);
    if a[0] == b[0] && a[1] == b[1] && a[2..] == b[2..] {
      assert a == [a[0], a[1]] + a[2..] && b == [b[0], b[1]] + b[2..];
    }
  }

  // ... and as it parses.
  lemma ParsedFirst(hex: seq<byte>, bytes: seq<byte>)
    requires |hex| >= 2 && |hex| % 2 == 0 && bytes != []
    ensures HexBytes(hex) == Ok(bytes) <==>
            HexDigit(hex[0]) == Ok(bytes[0] / 16) && HexDigit(hex[1]) == Ok(bytes[0] % 16) && HexBytes(hex[2..]) == Ok(bytes[1..])
  {
    hide HexDigit;
    DigitIsSmall(hex[0]);
    DigitIsSmall(hex[1]);
    if HexBytes(hex[2..]) == Ok(bytes[1..]) {
      assert bytes == [bytes[0]] + bytes[1..];
    }
  }

  lemma DigitIsSmall(b: byte)
    ensures HexDigit(b).Ok? ==> HexDigit(b).value < 16
  {
  }

  // Hex text parses exactly to the bytes that print as it, up to the case of its letters.
  lemma {:induction false} HexParsesExactly(hex: seq<byte>, bytes: seq<byte>)
    requires |hex| % 2 == 0
    ensures HexBytes(hex) == Ok(bytes) <==> Lowered(hex) == ToHex(bytes)
    decreases |hex|
  {
    if hex != [] && bytes != [] {
      hide HexBytes, ToHex, Lowered, HexDigit, HexNibble, LowerDigit;
      PrintedFirst(hex, bytes);
      ParsedFirst(hex, bytes);
      DigitParsesExactly(hex[0], bytes[0] / 16);
      DigitParsesExactly(hex[1], bytes[0] % 16);
      HexParsesExactly(hex[2..], bytes[1..]);
    }
  }

  lemma HexOidParsesExactly(algorithm: HashAlgorithm, hex: seq<byte>, oid: Oid)
    ensures ParseHexOid(algorithm, hex) == Ok(oid) <==> oid.algorithm == algorithm && Lowered(hex) == ToHex(oid.bytes)
  {
    hide HexBytes, ToHex, Lowered;
    if |hex| % 2 == 0 {
      HexParsesExactly(hex, oid.bytes);
    }
  }

  // ---------- Commit and tag headers ----------

  function Position(s: seq<byte>, b: byte): (i: Option<nat>)
    ensures i.Some? ==> i.value < |s| && s[i.value] == b && b !in s[..i.value]
    ensures i.None? <==> b !in s
  {
    if s == [] then None
    else if s[0] == b then Some(0)
    else
      var rest := Position(s[1..], b);
      if rest.None? then None else Some(rest.value + 1)
  }

  function Lines(s: seq<byte>): seq<seq<byte>>
    decreases |s|
  {
    var end := Position(s, NEWLINE);
    if end.None? then [s] else [s[..end.value]] + Lines(s[end.value + 1..])
  }

  // Everything before the first blank line.
  function ObjectHeader(data: seq<byte>): seq<byte> {
    if |data| < 2 then data
    else if data[0] == NEWLINE && data[1] == NEWLINE then []
    else [data[0]] + ObjectHeader(data[1..])
  }

  function Values(lines: seq<seq<byte>>, prefix: seq<byte>): seq<seq<byte>> {
    if lines == [] then []
    else if prefix <= lines[0] then [lines[0][|prefix|..]] + Values(lines[1..], prefix)
    else Values(lines[1..], prefix)
  }

  function ParseAll(algorithm: HashAlgorithm, values: seq<seq<byte>>): Result<seq<Oid>, GitError> {
    if values == [] then Ok([])
    else
      var first := ParseHexOid(algorithm, values[0]);
      if first.Err? then Err(first.error)
      else
        var rest := ParseAll(algorithm, values[1..]);
        if rest.Err? then rest else Ok([first.value] + rest.value)
  }

  // A header that must occur exactly once.
  function ParseOnce(algorithm: HashAlgorithm, values: seq<seq<byte>>): Result<Oid, GitError> {
    if values == [] then Err(MalformedObject("required header is missing"))
    else
      var first := ParseHexOid(algorithm, values[0]);
      if first.Err? then first
      else if |values| > 1 then Err(MalformedObject("required header is repeated"))
      else first
  }

  function CommitReferences(o: GitObject): Result<seq<Oid>, GitError> {
    var lines := Lines(ObjectHeader(o.data));
    var parents := ParseAll(o.oid.algorithm, Values(lines, PARENT_PREFIX));
    if parents.Err? then parents
    else
      var tree := ParseOnce(o.oid.algorithm, Values(lines, TREE_PREFIX));
      if tree.Err? then Err(tree.error) else Ok([tree.value] + parents.value)
  }

  function TagReferences(o: GitObject): Result<seq<Oid>, GitError> {
    var target := ParseOnce(o.oid.algorithm, Values(Lines(ObjectHeader(o.data)), OBJECT_PREFIX));
    if target.Err? then Err(target.error) else Ok([target.value])
  }

  // ---------- What is accepted ----------

  predicate BlankAt(data: seq<byte>, i: nat) {
    i + 1 < |data| && data[i] == NEWLINE && data[i + 1] == NEWLINE
  }

  // The header ends at the first blank line, or with the data.
  lemma {:induction false} HeaderExactly(data: seq<byte>)
    ensures var n := |ObjectHeader(data)|;
            && n <= |data| && ObjectHeader(data) == data[..n]
            && (BlankAt(data, n) || n == |data|) && forall i :: 0 <= i < n ==> !BlankAt(data, i)
  {
    if |data| >= 2 && !BlankAt(data, 0) {
      HeaderExactly(data[1..]);
      var n := |ObjectHeader(data)|;
      assert ObjectHeader(data)[1..] == data[1..][..n - 1];
      assert data[..n] == [data[0]] + data[1..][..n - 1];
      forall i | 0 <= i < n
        ensures !BlankAt(data, i)
      {
        if i > 0 {
          assert !BlankAt(data[1..], i - 1);
        }
      }
      assert BlankAt(data, n) || n == |data| by {
        assert BlankAt(data[1..], n - 1) || n - 1 == |data| - 1;
      }
    }
  }

  predicate Spells(algorithm: HashAlgorithm, value: seq<byte>, oid: Oid) {
    oid.algorithm == algorithm && Lowered(value) == ToHex(oid.bytes)
  }

  lemma {:induction false} AllParseExactly(algorithm: HashAlgorithm, values: seq<seq<byte>>, oids: seq<Oid>)
    ensures ParseAll(algorithm, values) == Ok(oids) <==>
            |oids| == |values| && forall i :: 0 <= i < |values| ==> Spells(algorithm, values[i], oids[i])
    decreases |values|
  {
    hide ParseHexOid, Spells;
    if values != [] && oids != [] {
      SpelledParses(algorithm, values[0], oids[0]);
      AllParseExactly(algorithm, values[1..], oids[1..]);
      assert oids == [oids[0]] + oids[1..];
      assert values == [values[0]] + values[1..];
    }
  }

  lemma SpelledParses(algorithm: HashAlgorithm, value: seq<byte>, oid: Oid)
    ensures ParseHexOid(algorithm, value) == Ok(oid) <==> Spells(algorithm, value, oid)
  {
    HexOidParsesExactly(algorithm, value, oid);
  }

  // A commit is accepted exactly when its header has one tree line and every tree and parent line
  // spells an ID; it refers to the tree and then to the parents in order.
  lemma CommitParsesExactly(o: GitObject, references: seq<Oid>)
    ensures var lines := Lines(ObjectHeader(o.data));
            var trees, parents := Values(lines, TREE_PREFIX), Values(lines, PARENT_PREFIX);
            CommitReferences(o) == Ok(references) <==>
              && |trees| == 1 && |references| == 1 + |parents| && Spells(o.oid.algorithm, trees[0], references[0])
              && forall i :: 0 <= i < |parents| ==> Spells(o.oid.algorithm, parents[i], references[i + 1])
  {
    hide Lines, ObjectHeader, Values, ParseAll, ParseHexOid, Spells;
    if references != [] {
      var lines := Lines(ObjectHeader(o.data));
      AllParseExactly(o.oid.algorithm, Values(lines, PARENT_PREFIX), references[1..]);
      if Values(lines, TREE_PREFIX) != [] {
        SpelledParses(o.oid.algorithm, Values(lines, TREE_PREFIX)[0], references[0]);
      }
      assert references == [references[0]] + references[1..];
      assert forall i :: 0 < i < |references| ==> references[i] == references[1..][i - 1];
    }
  }

  lemma TagParsesExactly(o: GitObject, target: Oid)
    ensures var objects := Values(Lines(ObjectHeader(o.data)), OBJECT_PREFIX);
            TagReferences(o) == Ok([target]) <==> |objects| == 1 && Spells(o.oid.algorithm, objects[0], target)
  {
    hide Lines, ObjectHeader, Values, ParseHexOid, Spells;
    var objects := Values(Lines(ObjectHeader(o.data)), OBJECT_PREFIX);
    if objects != [] {
      SpelledParses(o.oid.algorithm, objects[0], target);
    }
  }

  // ---------- The header loops ----------

  // Parses every value with the prefix, in order.
  method CollectHeaders(algorithm: HashAlgorithm, lines: seq<seq<byte>>, prefix: seq<byte>)
      returns (r: Result<seq<Oid>, GitError>)
    ensures r == ParseAll(algorithm, Values(lines, prefix))
  {
    var oids: seq<Oid> := [];
    CollectedNone(ParseAll(algorithm, Values(lines, prefix)));
    assert lines[0..] == lines;
    for i := 0 to |lines|
      invariant ParseAll(algorithm, Values(lines, prefix)) == Collected(oids, ParseAll(algorithm, Values(lines[i..], prefix)))
    {
      assert lines[i..][1..] == lines[i + 1..];
      if prefix <= lines[i] {
        var value := lines[i][|prefix|..];
        ValuesFirst(lines[i..], prefix);
        var oid := ParseHexOid(algorithm, value);
        if oid.Err? {
          return Err(oid.error);
        }
        CollectedOne(oids, oid.value, ParseAll(algorithm, Values(lines[i + 1..], prefix)));
        oids := oids + [oid.value];
      }
    }
    assert oids + [] == oids;
    return Ok(oids);
  }

  ghost function Collected(done: seq<Oid>, rest: Result<seq<Oid>, GitError>): Result<seq<Oid>, GitError> {
    if rest.Err? then rest else Ok(done + rest.value)
  }

  lemma CollectedNone(rest: Result<seq<Oid>, GitError>)
    ensures Collected([], rest) == rest
  {
    if rest.Ok? {
      assert [] + rest.value == rest.value;
    }
  }

  lemma CollectedOne(done: seq<Oid>, oid: Oid, rest: Result<seq<Oid>, GitError>)
    ensures Collected(done, Collected([oid], rest)) == Collected(done + [oid], rest)
  {
    if rest.Ok? {
      assert done + ([oid] + rest.value) == done + [oid] + rest.value;
    }
  }

  lemma ValuesFirst(lines: seq<seq<byte>>, prefix: seq<byte>)
    requires lines != [] && prefix <= lines[0]
    ensures var values := Values(lines, prefix);
            values != [] && values[0] == lines[0][|prefix|..] && values[1..] == Values(lines[1..], prefix)
  {
  }

  // Finds the one value with the prefix, refusing a second.
  method FindHeader(algorithm: HashAlgorithm, lines: seq<seq<byte>>, prefix: seq<byte>) returns (r: Result<Oid, GitError>)
    ensures r == ParseOnce(algorithm, Values(lines, prefix))
  {
    var found: Option<Oid> := None;
    ghost var values := Values(lines, prefix);
    assert lines[0..] == lines;
    for i := 0 to |lines|
      invariant found.None? ==> Values(lines[i..], prefix) == values
      invariant found.Some? ==>
                  && values != [] && ParseHexOid(algorithm, values[0]) == Ok(found.value)
                  && Values(lines[i..], prefix) == values[1..]
    {
      assert lines[i..][1..] == lines[i + 1..];
      if prefix <= lines[i] {
        ValuesFirst(lines[i..], prefix);
        if found.Some? {
          return Err(MalformedObject("required header is repeated"));
        }
        var oid := ParseHexOid(algorithm, lines[i][|prefix|..]);
        if oid.Err? {
          return oid;
        }
        found := Some(oid.value);
      }
    }
    if found.None? {
      return Err(MalformedObject("required header is missing"));
    }
    return Ok(found.value);
  }

  method ParseCommitReferences(o: GitObject) returns (r: Result<seq<Oid>, GitError>)
    ensures r == CommitReferences(o)
  {
    var lines := Lines(ObjectHeader(o.data));
    var parents := CollectHeaders(o.oid.algorithm, lines, PARENT_PREFIX);
    if parents.Err? {
      return parents;
    }
    var tree := FindHeader(o.oid.algorithm, lines, TREE_PREFIX);
    return if tree.Err? then Err(tree.error) else Ok([tree.value] + parents.value);
  }

  method ParseTagReferences(o: GitObject) returns (r: Result<seq<Oid>, GitError>)
    ensures r == TagReferences(o)
  {
    var target := FindHeader(o.oid.algorithm, Lines(ObjectHeader(o.data)), OBJECT_PREFIX);
    return if target.Err? then Err(target.error) else Ok([target.value]);
  }

  // ---------- Headers as they are written ----------

  predicate HeaderLine(line: seq<byte>) { line != [] && NEWLINE !in line }

  function JoinLines(lines: seq<seq<byte>>): seq<byte> {
    if lines == [] then [] else if |lines| == 1 then lines[0] else lines[0] + [NEWLINE] + JoinLines(lines[1..])
  }

  lemma {:induction false} LinesOfJoin(lines: seq<seq<byte>>)
    requires lines != [] && forall i :: 0 <= i < |lines| ==> NEWLINE !in lines[i]
    ensures Lines(JoinLines(lines)) == lines
  {
    hide Lines;
    if |lines| == 1 {
      LastLine(lines[0]);
    } else {
      FirstLine(lines[0], JoinLines(lines[1..]));
      LinesOfJoin(lines[1..]);
      assert lines == [lines[0]] + lines[1..];
    }
  }

  lemma FirstLine(first: seq<byte>, rest: seq<byte>)
    requires NEWLINE !in first
    ensures Lines(first + [NEWLINE] + rest) == [first] + Lines(rest)
  {
    hide Position;
    var s := first + [NEWLINE] + rest;
    assert s[..|first|] == first && s[|first|] == NEWLINE && s[|first| + 1..] == rest;
    PositionIs(s, NEWLINE, |first|);
  }

  lemma LastLine(line: seq<byte>)
    requires NEWLINE !in line
    ensures Lines(line) == [line]
  {
    hide Position;
  }

  // No blank line inside, and none at its end.
  predicate NoBlank(s: seq<byte>) {
    (forall i :: 0 < i < |s| ==> !(s[i - 1] == NEWLINE && s[i] == NEWLINE)) && (s != [] ==> s[|s| - 1] != NEWLINE)
  }

  lemma {:induction false} JoinHasNoBlank(lines: seq<seq<byte>>)
    requires forall i :: 0 <= i < |lines| ==> HeaderLine(lines[i])
    ensures NoBlank(JoinLines(lines)) && (lines != [] ==> JoinLines(lines) != [] && JoinLines(lines)[0] != NEWLINE)
  {
    if |lines| == 1 {
      assert forall i :: 0 <= i < |lines[0]| ==> lines[0][i] != NEWLINE;
    } else if |lines| > 1 {
      var first, rest := lines[0], JoinLines(lines[1..]);
      JoinHasNoBlank(lines[1..]);
      var s := first + [NEWLINE] + rest;
      assert forall i :: 0 <= i < |first| ==> s[i] == first[i] && first[i] != NEWLINE;
      assert forall i :: 0 <= i < |rest| ==> s[|first| + 1 + i] == rest[i];
      forall i | 0 < i < |s|
        ensures !(s[i - 1] == NEWLINE && s[i] == NEWLINE)
      {
        if i > |first| + 1 {
          assert s[i - 1] == rest[i - 1 - (|first| + 1)] && s[i] == rest[i - (|first| + 1)];
        }
      }
    }
  }

  lemma {:induction false} HeaderOf(header: seq<byte>, message: seq<byte>)
    requires NoBlank(header)
    ensures ObjectHeader(header + [NEWLINE, NEWLINE] + message) == header
  {
    var data := header + [NEWLINE, NEWLINE] + message;
    if header != [] {
      var rest := header[1..];
      assert data[1..] == rest + [NEWLINE, NEWLINE] + message;
      forall i | 0 < i < |rest|
        ensures !(rest[i - 1] == NEWLINE && rest[i] == NEWLINE)
      {
        assert rest[i - 1] == header[i] && rest[i] == header[i + 1];
      }
      HeaderOf(rest, message);
      if |header| == 1 {
        assert data[0] == header[0];
      } else {
        assert data[0] == header[0] && data[1] == header[1];
        assert !(header[1 - 1] == NEWLINE && header[1] == NEWLINE);
      }
      assert header == [header[0]] + rest;
    }
  }

  function ParentLines(parents: seq<Oid>): seq<seq<byte>> {
    seq(|parents|, i requires 0 <= i < |parents| => PARENT_PREFIX + ToHex(parents[i].bytes))
  }

  lemma {:induction false} ValuesConcat(a: seq<seq<byte>>, b: seq<seq<byte>>, prefix: seq<byte>)
    ensures Values(a + b, prefix) == Values(a, prefix) + Values(b, prefix)
  {
    if a == [] {
      assert a + b == b;
    } else {
      ValuesConcat(a[1..], b, prefix);
      assert (a + b)[1..] == a[1..] + b;
    }
  }

  lemma {:induction false} NoValues(lines: seq<seq<byte>>, prefix: seq<byte>)
    requires forall i :: 0 <= i < |lines| ==> !(prefix <= lines[i])
    ensures Values(lines, prefix) == []
  {
    if lines != [] {
      NoValues(lines[1..], prefix);
    }
  }

  lemma {:induction false} ParentsParse(algorithm: HashAlgorithm, parents: seq<Oid>)
    requires forall i :: 0 <= i < |parents| ==> parents[i].algorithm == algorithm
    ensures ParseAll(algorithm, Values(ParentLines(parents), PARENT_PREFIX)) == Ok(parents)
  {
    if parents != [] {
      var lines := ParentLines(parents);
      ParentsParse(algorithm, parents[1..]);
      assert lines[1..] == ParentLines(parents[1..]);
      assert lines[0][|PARENT_PREFIX|..] == ToHex(parents[0].bytes);
      HexOidRoundTrip(parents[0]);
      ValuesFirst(lines, PARENT_PREFIX);
      assert parents == [parents[0]] + parents[1..];
    }
  }

  // A commit as Git writes it: a tree line, a line per parent, other headers, a blank line and a message.
  function CommitText(tree: Oid, parents: seq<Oid>, others: seq<seq<byte>>, message: seq<byte>): seq<byte> {
    JoinLines([TREE_PREFIX + ToHex(tree.bytes)] + ParentLines(parents) + others) + [NEWLINE, NEWLINE] + message
  }

  ghost predicate CommitHeaders(tree: Oid, parents: seq<Oid>, others: seq<seq<byte>>, oid: Oid) {
    && oid.algorithm == tree.algorithm && (forall i :: 0 <= i < |parents| ==> parents[i].algorithm == tree.algorithm)
    && forall i :: 0 <= i < |others| ==>
         HeaderLine(others[i]) && !(TREE_PREFIX <= others[i]) && !(PARENT_PREFIX <= others[i])
  }

  // A written commit refers to exactly its tree and its parents, in order, whatever its other
  // headers and its message.
  lemma WrittenCommitParses(tree: Oid, parents: seq<Oid>, others: seq<seq<byte>>, message: seq<byte>, oid: Oid)
    requires CommitHeaders(tree, parents, others, oid)
    ensures CommitReferences(GitObject(oid, Commit, CommitText(tree, parents, others, message))) == Ok([tree] + parents)
  {
    hide Lines, ObjectHeader, Values, ParseAll, ParseHexOid, ToHex, JoinLines;
    var first := TREE_PREFIX + ToHex(tree.bytes);
    var lines := [first] + ParentLines(parents) + others;
    WrittenLines(tree, parents, others, message);
    ValuesConcat([first] + ParentLines(parents), others, PARENT_PREFIX);
    ValuesConcat([first], ParentLines(parents), PARENT_PREFIX);
    ValuesConcat([first] + ParentLines(parents), others, TREE_PREFIX);
    ValuesConcat([first], ParentLines(parents), TREE_PREFIX);
    NoValues(others, PARENT_PREFIX);
    NoValues(others, TREE_PREFIX);
    assert first[0] != PARENT_PREFIX[0];
    NoValues([first], PARENT_PREFIX);
    forall i | 0 <= i < |parents|
      ensures !(TREE_PREFIX <= ParentLines(parents)[i])
    {
      assert ParentLines(parents)[i][0] == PARENT_PREFIX[0];
    }
    NoValues(ParentLines(parents), TREE_PREFIX);
    ParentsParse(tree.algorithm, parents);
    OneValue(first, TREE_PREFIX);
    assert first[|TREE_PREFIX|..] == ToHex(tree.bytes);
    HexOidRoundTrip(tree);
    assert Values(lines, TREE_PREFIX) == [ToHex(tree.bytes)];
    assert Values(lines, PARENT_PREFIX) == Values(ParentLines(parents), PARENT_PREFIX);
  }

  lemma OneValue(line: seq<byte>, prefix: seq<byte>)
    requires prefix <= line
    ensures Values([line], prefix) == [line[|prefix|..]]
  {
    assert [line][1..] == [];
  }

  lemma HexIsNoNewline(bytes: seq<byte>)
    ensures NEWLINE !in ToHex(bytes)
  {
    if bytes != [] {
      HexIsNoNewline(bytes[1..]);
    }
  }

  lemma WrittenLines(tree: Oid, parents: seq<Oid>, others: seq<seq<byte>>, message: seq<byte>)
    requires forall i :: 0 <= i < |others| ==> HeaderLine(others[i])
    ensures var lines := [TREE_PREFIX + ToHex(tree.bytes)] + ParentLines(parents) + others;
            Lines(ObjectHeader(JoinLines(lines) + [NEWLINE, NEWLINE] + message)) == lines
  {
    hide ToHex, Lines, ObjectHeader, JoinLines;
    var lines := [TREE_PREFIX + ToHex(tree.bytes)] + ParentLines(parents) + others;
    forall i | 0 <= i < |lines|
      ensures HeaderLine(lines[i])
    {
      if i == 0 {
        HexIsNoNewline(tree.bytes);
      } else if i <= |parents| {
        HexIsNoNewline(parents[i - 1].bytes);
        assert lines[i] == PARENT_PREFIX + ToHex(parents[i - 1].bytes);
      } else {
        assert lines[i] == others[i - 1 - |parents|];
      }
    }
    HeaderLines(lines, message);
  }

  lemma HeaderLines(lines: seq<seq<byte>>, message: seq<byte>)
    requires lines != [] && forall i :: 0 <= i < |lines| ==> HeaderLine(lines[i])
    ensures Lines(ObjectHeader(JoinLines(lines) + [NEWLINE, NEWLINE] + message)) == lines
  {
    hide Lines, ObjectHeader, JoinLines;
    JoinHasNoBlank(lines);
    HeaderOf(JoinLines(lines), message);
    LinesOfJoin(lines);
  }

  // A tag as Git writes it: an object line, other headers, a blank line and a message.
  function TagText(target: Oid, others: seq<seq<byte>>, message: seq<byte>): seq<byte> {
    JoinLines([OBJECT_PREFIX + ToHex(target.bytes)] + others) + [NEWLINE, NEWLINE] + message
  }

  ghost predicate TagHeaders(target: Oid, others: seq<seq<byte>>, oid: Oid) {
    && oid.algorithm == target.algorithm
    && forall i :: 0 <= i < |others| ==> HeaderLine(others[i]) && !(OBJECT_PREFIX <= others[i])
  }

  // A written tag refers to exactly its target, whatever its other headers and its message.
  lemma WrittenTagParses(target: Oid, others: seq<seq<byte>>, message: seq<byte>, oid: Oid)
    requires TagHeaders(target, others, oid)
    ensures TagReferences(GitObject(oid, Tag, TagText(target, others, message))) == Ok([target])
  {
    hide Lines, ObjectHeader, Values, ParseHexOid, ToHex, JoinLines;
    var first := OBJECT_PREFIX + ToHex(target.bytes);
    HexIsNoNewline(target.bytes);
    HeaderLines([first] + others, message);
    ValuesConcat([first], others, OBJECT_PREFIX);
    NoValues(others, OBJECT_PREFIX);
    OneValue(first, OBJECT_PREFIX);
    assert first[|OBJECT_PREFIX|..] == ToHex(target.bytes);
    HexOidRoundTrip(target);
    assert Values([first] + others, OBJECT_PREFIX) == [ToHex(target.bytes)];
  }

  // ---------- Trees ----------

  predicate IsOctal(s: seq<byte>) {
    forall i :: 0 <= i < |s| ==> 48 <= s[i] <= 55
  }

  function OctalValue(s: seq<byte>): nat
    requires IsOctal(s)
  {
    if s == [] then 0 else 8 * OctalValue(s[..|s| - 1]) + (s[|s| - 1] - 48)
  }

  // The modes 040000, 100644, 100755, 120000 and 160000.
  const TREE_MODES: set<nat> := {16384, 33188, 33261, 40960, 57344}

  function ParseMode(text: seq<byte>): Option<nat> {
    if text == [] || |text| > 6 || !IsOctal(text) || OctalValue(text) !in TREE_MODES then None
    else Some(OctalValue(text))
  }

  lemma OctalStep(s: seq<byte>, d: byte)
    requires IsOctal(s) && 48 <= d <= 55
    ensures IsOctal(s + [d]) && OctalValue(s + [d]) == 8 * OctalValue(s) + (d - 48)
  {
    assert (s + [d])[..|s|] == s;
  }

  lemma OctalOfSix(a: byte, b: byte, c: byte, d: byte, e: byte, f: byte)
    requires 48 <= a <= 55 && 48 <= b <= 55 && 48 <= c <= 55 && 48 <= d <= 55 && 48 <= e <= 55 && 48 <= f <= 55
    ensures IsOctal([a, b, c, d, e, f]) && OctalValue([a, b, c, d, e, f]) ==
            ((((8 * (a - 48) + (b - 48)) * 8 + (c - 48)) * 8 + (d - 48)) * 8 + (e - 48)) * 8 + (f - 48)
  {
    OctalStep([], a);
    OctalStep([] + [a], b);
    OctalStep([] + [a] + [b], c);
    OctalStep([] + [a] + [b] + [c], d);
    OctalStep([] + [a] + [b] + [c] + [d], e);
    OctalStep([] + [a] + [b] + [c] + [d] + [e], f);
    assert [] + [a] + [b] + [c] + [d] + [e] + [f] == [a, b, c, d, e, f];
  }

  // Directories with and without the leading zero, plain and executable files, links and gitlinks.
  lemma TreeModes()
    ensures ParseMode([52, 48, 48, 48, 48]) == ParseMode([48, 52, 48, 48, 48, 48]) == Some(0x4000)
    ensures ParseMode([49, 48, 48, 54, 52, 52]) == Some(0x81a4) && ParseMode([49, 48, 48, 55, 53, 53]) == Some(0x81ed)
    ensures ParseMode([49, 50, 48, 48, 48, 48]) == Some(0xa000) && ParseMode([49, 54, 48, 48, 48, 48]) == Some(0xe000)
  {
    hide OctalValue;
    OctalOfSix(48, 52, 48, 48, 48, 48);
    OctalOfSix(49, 48, 48, 54, 52, 52);
    OctalOfSix(49, 48, 48, 55, 53, 53);
    OctalOfSix(49, 50, 48, 48, 48, 48);
    OctalOfSix(49, 54, 48, 48, 48, 48);
    OctalOfFive();
  }

  lemma OctalOfFive()
    ensures IsOctal([52, 48, 48, 48, 48]) && OctalValue([52, 48, 48, 48, 48]) == 0x4000
  {
    OctalStep([], 52);
    OctalStep([] + [52], 48);
    OctalStep([] + [52] + [48], 48);
    OctalStep([] + [52] + [48] + [48], 48);
    OctalStep([] + [52] + [48] + [48] + [48], 48);
    assert [] + [52] + [48] + [48] + [48] + [48] == [52, 48, 48, 48, 48];
  }

  lemma NoOtherMode(text: seq<byte>, mode: nat)
    requires ParseMode(text) == Some(mode)
    ensures 0 < |text| <= 6 && forall i :: 0 <= i < |text| ==> 48 <= text[i] <= 55
    ensures mode == 0x4000 || mode == 0x81a4 || mode == 0x81ed || mode == 0xa000 || mode == 0xe000
  {
    hide OctalValue;
  }

  // The first entry of a non-empty tree payload, and where the next one starts.
  function FirstEntry(algorithm: HashAlgorithm, data: seq<byte>): (r: Result<(GitTreeEntry, nat), GitError>)
    requires data != []
    ensures r.Ok? ==> 0 < r.value.1 <= |data|
  {
    var nul := Position(data, NUL);
    if nul.None? then Err(MalformedObject("tree entry is missing its NUL separator")) else
    var header := data[..nul.value];
    var separator := Position(header, SPACE);
    if separator.None? then Err(MalformedObject("tree entry is missing mode/name separator")) else
    var name := header[separator.value + 1..];
    var mode := ParseMode(header[..separator.value]);
    var end: nat := nul.value + 1 + OidLen(algorithm);
    if name == [] || SLASH in name then Err(MalformedObject("tree entry has an invalid name"))
    else if mode.None? then Err(MalformedObject("tree entry has an invalid mode"))
    else if |data| < end then Err(MalformedObject("tree entry is missing object ID bytes"))
    else Ok((GitTreeEntry(mode.value, name, GitOid(algorithm, data[nul.value + 1..end])), end))
  }

  function Prepend(
    done: seq<GitTreeEntry>, rest: Result<seq<GitTreeEntry>, GitError>): Result<seq<GitTreeEntry>, GitError>
  {
    if rest.Err? then rest else Ok(done + rest.value)
  }

  lemma PrependNothing(rest: Result<seq<GitTreeEntry>, GitError>)
    ensures Prepend([], rest) == rest
  {
    assert rest.Ok? ==> [] + rest.value == rest.value;
  }

  lemma PrependOneMore(done: seq<GitTreeEntry>, e: GitTreeEntry, rest: Result<seq<GitTreeEntry>, GitError>)
    ensures Prepend(done, Prepend([e], rest)) == Prepend(done + [e], rest)
  {
    assert rest.Ok? ==> done + ([e] + rest.value) == done + [e] + rest.value;
  }

  function TreeEntries(algorithm: HashAlgorithm, data: seq<byte>): Result<seq<GitTreeEntry>, GitError>
    decreases |data|
  {
    if data == [] then Ok([])
    else
      var first := FirstEntry(algorithm, data);
      if first.Err? then Err(first.error)
      else
        Prepend([first.value.0], TreeEntries(algorithm, data[first.value.1..]))
  }

  method ParseTreeEntries(algorithm: HashAlgorithm, data: seq<byte>) returns (r: Result<seq<GitTreeEntry>, GitError>)
    ensures r == TreeEntries(algorithm, data)
  {
    hide FirstEntry;
    var remaining, entries := data, [];
    PrependNothing(TreeEntries(algorithm, data));
    while remaining != []
      invariant TreeEntries(algorithm, data) == Prepend(entries, TreeEntries(algorithm, remaining))
      decreases |remaining|
    {
      var first := FirstEntry(algorithm, remaining);
      if first.Err? {
        return Err(first.error);
      }
      var next := remaining[first.value.1..];
      PrependOneMore(entries, first.value.0, TreeEntries(algorithm, next));
      entries := entries + [first.value.0];
      remaining := next;
    }
    assert entries + [] == entries;
    return Ok(entries);
  }

  // An entry as it is written: octal mode text, a space, the name, NUL, the raw object ID.
  datatype RawEntry = RawEntry(mode: seq<byte>, name: seq<byte>, oid: seq<byte>)

  predicate WellFormed(algorithm: HashAlgorithm, raw: RawEntry) {
    && ParseMode(raw.mode).Some?
    && raw.name != [] && SLASH !in raw.name && NUL !in raw.name
    && |raw.oid| == OidLen(algorithm)
  }

  function Written(raw: RawEntry): seq<byte> { raw.mode + [SPACE] + raw.name + [NUL] + raw.oid }

  function Meaning(algorithm: HashAlgorithm, raw: RawEntry): GitTreeEntry
    requires WellFormed(algorithm, raw)
  {
    GitTreeEntry(ParseMode(raw.mode).value, raw.name, GitOid(algorithm, raw.oid))
  }

  predicate AllWellFormed(algorithm: HashAlgorithm, raws: seq<RawEntry>) {
    forall i :: 0 <= i < |raws| ==> WellFormed(algorithm, raws[i])
  }

  function WrittenAll(raws: seq<RawEntry>): seq<byte> {
    if raws == [] then [] else Written(raws[0]) + WrittenAll(raws[1..])
  }

  function MeaningAll(algorithm: HashAlgorithm, raws: seq<RawEntry>): seq<GitTreeEntry>
    requires AllWellFormed(algorithm, raws)
  {
    seq(|raws|, i requires 0 <= i < |raws| => Meaning(algorithm, raws[i]))
  }

  lemma PositionIs(s: seq<byte>, b: byte, i: nat)
    requires i < |s| && s[i] == b && b !in s[..i]
    ensures Position(s, b) == Some(i)
  {
    assert b in s;
  }

  lemma FirstEntryReadsWritten(algorithm: HashAlgorithm, raw: RawEntry, tail: seq<byte>)
    requires WellFormed(algorithm, raw)
    ensures FirstEntry(algorithm, Written(raw) + tail) == Ok((Meaning(algorithm, raw), |Written(raw)|))
  {
    hide ParseMode, Position, Written;
    var data, header := Written(raw) + tail, raw.mode + [SPACE] + raw.name;
    WrittenSlices(raw, tail);
    HeaderParts(algorithm, raw);
    PositionIs(data, NUL, |header|);
    var nul := Position(data, NUL);
    assert nul == Some(|header|) && data[..nul.value] == header;
    assert Position(header, SPACE) == Some(|raw.mode|);
  }

  lemma HeaderParts(algorithm: HashAlgorithm, raw: RawEntry)
    requires WellFormed(algorithm, raw)
    ensures var header := raw.mode + [SPACE] + raw.name;
            && NUL !in header && Position(header, SPACE) == Some(|raw.mode|)
            && header[..|raw.mode|] == raw.mode && header[|raw.mode| + 1..] == raw.name
  {
    hide ParseMode, Position;
    var header := raw.mode + [SPACE] + raw.name;
    ModeHasNoSeparator(raw.mode);
    assert header[..|raw.mode|] == raw.mode && header[|raw.mode| + 1..] == raw.name;
    PositionIs(header, SPACE, |raw.mode|);
  }

  lemma WrittenSlices(raw: RawEntry, tail: seq<byte>)
    ensures var data, header := Written(raw) + tail, raw.mode + [SPACE] + raw.name;
            && |Written(raw)| == |header| + 1 + |raw.oid| && data[..|header|] == header && data[|header|] == NUL
            && data[|header| + 1..|header| + 1 + |raw.oid|] == raw.oid
  {
    var data, header := Written(raw) + tail, raw.mode + [SPACE] + raw.name;
    assert data == header + ([NUL] + (raw.oid + tail));
    assert data[|header|..] == [NUL] + (raw.oid + tail);
    assert data[|header| + 1..] == raw.oid + tail;
  }

  lemma ModeHasNoSeparator(mode: seq<byte>)
    requires ParseMode(mode).Some?
    ensures NUL !in mode && SPACE !in mode
  {
    assert forall i :: 0 <= i < |mode| ==> mode[i] != NUL && mode[i] != SPACE;
  }

  lemma WrittenFromFirstEntry(algorithm: HashAlgorithm, data: seq<byte>) returns (raw: RawEntry)
    requires data != [] && FirstEntry(algorithm, data).Ok?
    ensures WellFormed(algorithm, raw)
    ensures var (entry, end) := FirstEntry(algorithm, data).value;
            entry == Meaning(algorithm, raw) && data[..end] == Written(raw)
  {
    hide Position, ParseMode;
    var nul := Position(data, NUL).value;
    var header := data[..nul];
    var separator := Position(header, SPACE).value;
    var end := nul + 1 + OidLen(algorithm);
    raw := RawEntry(header[..separator], header[separator + 1..], data[nul + 1..end]);
    assert header == header[..separator] + [SPACE] + header[separator + 1..];
    assert data[..end] == header + [NUL] + data[nul + 1..end];
  }

  // A tree payload parses exactly when it is a concatenation of well-formed entries, and then
  // to those entries in order.
  lemma {:induction false} WrittenTreeParses(algorithm: HashAlgorithm, raws: seq<RawEntry>)
    requires AllWellFormed(algorithm, raws)
    ensures TreeEntries(algorithm, WrittenAll(raws)) == Ok(MeaningAll(algorithm, raws))
  {
    hide FirstEntry;
    if raws == [] {
      assert MeaningAll(algorithm, raws) == [];
    } else {
      FirstEntryReadsWritten(algorithm, raws[0], WrittenAll(raws[1..]));
      WrittenTreeParses(algorithm, raws[1..]);
      var data := WrittenAll(raws);
      assert data == Written(raws[0]) + WrittenAll(raws[1..]);
      assert data[|Written(raws[0])|..] == WrittenAll(raws[1..]);
      assert MeaningAll(algorithm, raws) == [Meaning(algorithm, raws[0])] + MeaningAll(algorithm, raws[1..]);
    }
  }

  lemma {:induction false} ParsedTreeIsWritten(algorithm: HashAlgorithm, data: seq<byte>) returns (raws: seq<RawEntry>)
    requires TreeEntries(algorithm, data).Ok?
    ensures AllWellFormed(algorithm, raws) && data == WrittenAll(raws)
    ensures TreeEntries(algorithm, data).value == MeaningAll(algorithm, raws)
    decreases |data|
  {
    hide FirstEntry;
    if data == [] {
      raws := [];
    } else {
      var raw := WrittenFromFirstEntry(algorithm, data);
      var end := FirstEntry(algorithm, data).value.1;
      var rest := ParsedTreeIsWritten(algorithm, data[end..]);
      raws := [raw] + rest;
      assert raws[1..] == rest;
      assert data == data[..end] + data[end..];
      assert MeaningAll(algorithm, raws) == [Meaning(algorithm, raw)] + MeaningAll(algorithm, rest);
    }
  }

  // ---------- References ----------

  function OidsOf(entries: seq<GitTreeEntry>): seq<Oid> {
    seq(|entries|, i requires 0 <= i < |entries| => entries[i].oid)
  }

  // Every tree entry is an edge, gitlinks included.
  function ReferencedOids(o: GitObject): Result<seq<Oid>, GitError> {
    match o.kind
    case Blob => Ok([])
    case Commit => CommitReferences(o)
    case Tag => TagReferences(o)
    case Tree =>
      var entries := TreeEntries(o.oid.algorithm, o.data);
      if entries.Err? then Err(entries.error) else Ok(OidsOf(entries.value))
  }

  // What each kind of object refers to, from the bytes as they are written.
  lemma TagRefersToTarget(oid: Oid, target: Oid, others: seq<seq<byte>>, message: seq<byte>)
    requires TagHeaders(target, others, oid)
    ensures ReferencedOids(GitObject(oid, Tag, TagText(target, others, message))) == Ok([target])
  {
    hide TagReferences, TagText;
    WrittenTagParses(target, others, message, oid);
  }

  lemma CommitRefersToTreeAndParents(oid: Oid, tree: Oid, parents: seq<Oid>, others: seq<seq<byte>>, message: seq<byte>)
    requires CommitHeaders(tree, parents, others, oid)
    ensures ReferencedOids(GitObject(oid, Commit, CommitText(tree, parents, others, message))) == Ok([tree] + parents)
  {
    hide CommitReferences, CommitText;
    WrittenCommitParses(tree, parents, others, message, oid);
  }

  // Gitlinks, mode 160000, included.
  lemma TreeRefersToEntries(oid: Oid, raws: seq<RawEntry>)
    requires AllWellFormed(oid.algorithm, raws)
    ensures var references := ReferencedOids(GitObject(oid, Tree, WrittenAll(raws)));
            && references.Ok? && |references.value| == |raws|
            && forall i :: 0 <= i < |raws| ==> references.value[i] == GitOid(oid.algorithm, raws[i].oid)
  {
    hide TreeEntries, WrittenAll, WellFormed, ParseMode;
    WrittenTreeParses(oid.algorithm, raws);
  }

  lemma BlobRefersToNothing(oid: Oid, data: seq<byte>)
    ensures ReferencedOids(GitObject(oid, Blob, data)) == Ok([])
  {
  }

  // ---------- Reachability ----------

  // The object database, read through `read_object`.
  type Database = map<Oid, GitObject>

  function ReadObject(db: Database, algorithm: HashAlgorithm, oid: Oid): Result<GitObject, GitError> {
    if oid.algorithm != algorithm then Err(WrongAlgorithm)
    else if oid !in db then Err(ObjectNotFound(oid))
    else Ok(db[oid])
  }

  // An object the walk can visit: present, in the repository's format, with parsable references.
  predicate Readable(db: Database, algorithm: HashAlgorithm, oid: Oid) {
    oid.algorithm == algorithm && oid in db && ReferencedOids(db[oid]).Ok?
  }

  predicate Edge(db: Database, a: Oid, b: Oid) {
    a in db && ReferencedOids(db[a]).Ok? && b in ReferencedOids(db[a]).value
  }

  ghost predicate IsPath(db: Database, roots: seq<Oid>, p: seq<Oid>) {
    p != [] && p[0] in roots && forall i :: 0 <= i < |p| - 1 ==> Edge(db, p[i], p[i + 1])
  }

  ghost predicate Reachable(db: Database, roots: seq<Oid>, o: Oid) {
    exists p :: IsPath(db, roots, p) && p[|p| - 1] == o
  }

  lemma RootIsReachable(db: Database, roots: seq<Oid>, o: Oid)
    requires o in roots
    ensures Reachable(db, roots, o)
  {
    assert IsPath(db, roots, [o]);
  }

  lemma ChildIsReachable(db: Database, roots: seq<Oid>, a: Oid, b: Oid)
    requires Reachable(db, roots, a) && Edge(db, a, b)
    ensures Reachable(db, roots, b)
  {
    hide Edge;
    var p :| IsPath(db, roots, p) && p[|p| - 1] == a;
    assert IsPath(db, roots, p + [b]);
  }

  // A set that holds the roots and is closed under edges holds every path.
  lemma {:induction false} ClosedHoldsPath(db: Database, roots: seq<Oid>, closed: set<Oid>, p: seq<Oid>)
    requires IsPath(db, roots, p)
    requires forall o :: o in roots ==> o in closed
    requires forall a, b :: a in closed && Edge(db, a, b) ==> b in closed
    ensures p[|p| - 1] in closed
  {
    if |p| > 1 {
      var init := p[..|p| - 1];
      ClosedHoldsPath(db, roots, closed, init);
      assert Edge(db, p[|p| - 2], p[|p| - 1]);
    }
  }

  function OidSet(objects: seq<GitObject>): set<Oid> {
    set i | 0 <= i < |objects| :: objects[i].oid
  }

  predicate FromDatabase(db: Database, objects: seq<GitObject>) {
    && (forall i :: 0 <= i < |objects| ==> objects[i].oid in db && objects[i] == db[objects[i].oid])
    && (forall i, j :: 0 <= i < j < |objects| ==> objects[i].oid != objects[j].oid)
  }

  // What the walk keeps: visited objects are readable and reachable, and every root and every
  // edge out of a visited object leads to a visited or a pending object.
  ghost predicate Walking(
    db: Database, algorithm: HashAlgorithm, roots: seq<Oid>, seen: set<Oid>, pending: seq<Oid>, result: seq<GitObject>)
  {
    && seen <= db.Keys && seen == OidSet(result) && FromDatabase(db, result)
    && (forall o :: o in roots ==> o in seen || o in pending)
    && (forall o :: o in seen ==> Readable(db, algorithm, o))
    && (forall a, b :: a in seen && Edge(db, a, b) ==> b in seen || b in pending)
    && (forall o :: o in pending || o in seen ==> Reachable(db, roots, o))
  }

  lemma WalkStarts(db: Database, algorithm: HashAlgorithm, roots: seq<Oid>)
    ensures Walking(db, algorithm, roots, {}, roots, [])
  {
    forall o | o in roots
      ensures Reachable(db, roots, o)
    {
      RootIsReachable(db, roots, o);
    }
  }

  lemma PendingIsReachable(
    db: Database, algorithm: HashAlgorithm, roots: seq<Oid>, seen: set<Oid>, pending: seq<Oid>, result: seq<GitObject>)
    requires Walking(db, algorithm, roots, seen, pending, result) && pending != []
    ensures Reachable(db, roots, pending[0])
  {
  }

  lemma WalkSkips(
    db: Database, algorithm: HashAlgorithm, roots: seq<Oid>, seen: set<Oid>, pending: seq<Oid>, result: seq<GitObject>)
    requires Walking(db, algorithm, roots, seen, pending, result)
    requires pending != [] && pending[0] in seen
    ensures Walking(db, algorithm, roots, seen, pending[1..], result)
  {
    hide ReferencedOids, Reachable;
  }

  lemma WalkVisits(
    db: Database, algorithm: HashAlgorithm, roots: seq<Oid>, seen: set<Oid>, pending: seq<Oid>, result: seq<GitObject>)
    requires Walking(db, algorithm, roots, seen, pending, result)
    requires pending != [] && pending[0] !in seen && Readable(db, algorithm, pending[0])
    requires db[pending[0]].oid == pending[0]
    ensures var oid := pending[0];
            Walking(db, algorithm, roots, seen + {oid}, pending[1..] + ReferencedOids(db[oid]).value, result + [db[oid]])
  {
    hide ReferencedOids, Reachable;
    var oid, grown := pending[0], result + [db[pending[0]]];
    assert grown[|result|].oid == oid;
    assert forall i :: 0 <= i < |result| ==> grown[i] == result[i];
    assert OidSet(grown) == seen + {oid};
    forall c | c in ReferencedOids(db[oid]).value
      ensures Reachable(db, roots, c)
    {
      ChildIsReachable(db, roots, oid, c);
    }
  }

  lemma WalkEnds(db: Database, algorithm: HashAlgorithm, roots: seq<Oid>, seen: set<Oid>, result: seq<GitObject>)
    requires Walking(db, algorithm, roots, seen, [], result)
    ensures FromDatabase(db, result) && forall o :: o in OidSet(result) <==> Reachable(db, roots, o)
    ensures forall o :: Reachable(db, roots, o) ==> Readable(db, algorithm, o)
  {
    hide ReferencedOids;
    forall o | Reachable(db, roots, o)
      ensures o in seen
    {
      var p :| IsPath(db, roots, p) && p[|p| - 1] == o;
      ClosedHoldsPath(db, roots, seen, p);
    }
  }

  // What is reached with a tag, a commit or a tree: everything it was written to refer to.
  lemma TagTargetIsReached(
    db: Database, roots: seq<Oid>, t: Oid, target: Oid, others: seq<seq<byte>>, message: seq<byte>)
    requires TagHeaders(target, others, t) && t in db && db[t] == GitObject(t, Tag, TagText(target, others, message))
    ensures forall b :: Edge(db, t, b) <==> b == target
    ensures Reachable(db, roots, t) ==> Reachable(db, roots, target)
  {
    hide ReferencedOids, TagText, Reachable;
    TagRefersToTarget(t, target, others, message);
    if Reachable(db, roots, t) {
      ChildIsReachable(db, roots, t, target);
    }
  }

  lemma CommitIsReachedWhole(
    db: Database, roots: seq<Oid>, c: Oid, tree: Oid, parents: seq<Oid>, others: seq<seq<byte>>, message: seq<byte>)
    requires CommitHeaders(tree, parents, others, c) && c in db
    requires db[c] == GitObject(c, Commit, CommitText(tree, parents, others, message))
    ensures forall b :: Edge(db, c, b) <==> b == tree || b in parents
    ensures Reachable(db, roots, c) ==> Reachable(db, roots, tree) && forall b :: b in parents ==> Reachable(db, roots, b)
  {
    hide ReferencedOids, CommitText, Reachable;
    CommitRefersToTreeAndParents(c, tree, parents, others, message);
    forall b | Reachable(db, roots, c) && Edge(db, c, b)
      ensures Reachable(db, roots, b)
    {
      ChildIsReachable(db, roots, c, b);
    }
  }

  lemma TreeIsReachedWhole(db: Database, roots: seq<Oid>, t: Oid, raws: seq<RawEntry>)
    requires AllWellFormed(t.algorithm, raws) && t in db && db[t] == GitObject(t, Tree, WrittenAll(raws))
    ensures forall b :: Edge(db, t, b) <==> exists i :: 0 <= i < |raws| && b == GitOid(t.algorithm, raws[i].oid)
    ensures Reachable(db, roots, t) ==>
              forall i :: 0 <= i < |raws| ==> Reachable(db, roots, GitOid(t.algorithm, raws[i].oid))
  {
    hide ReferencedOids, WrittenAll, Reachable, WellFormed, ParseMode;
    TreeRefersToEntries(t, raws);
    var references := ReferencedOids(db[t]).value;
    forall b | b in references
      ensures exists i :: 0 <= i < |raws| && b == GitOid(t.algorithm, raws[i].oid)
    {
      var i :| 0 <= i < |references| && references[i] == b;
    }
    forall i | 0 <= i < |raws| && Reachable(db, roots, t)
      ensures Reachable(db, roots, GitOid(t.algorithm, raws[i].oid))
    {
      assert references[i] in references;
      ChildIsReachable(db, roots, t, references[i]);
    }
  }

  lemma BlobHasNoEdge(db: Database, o: Oid, b: Oid)
    requires o in db && db[o].kind == Blob
    ensures !Edge(db, o, b)
  {
  }

  // With every tag its target, with every commit its tree and parents, and with every tree its
  // entries are among the objects.
  ghost predicate HoldsReferences(db: Database, objects: seq<GitObject>) {
    && (forall t, target, others, message ::
          TagHeaders(target, others, t) && GitObject(t, Tag, TagText(target, others, message)) in objects ==>
            target in OidSet(objects))
    && (forall c, tree, parents, others, message ::
          CommitHeaders(tree, parents, others, c) && GitObject(c, Commit, CommitText(tree, parents, others, message)) in objects ==>
            tree in OidSet(objects) && forall b :: b in parents ==> b in OidSet(objects))
    && (forall t: Oid, raws: seq<RawEntry> ::
          AllWellFormed(t.algorithm, raws) && GitObject(t, Tree, WrittenAll(raws)) in objects ==>
            forall i :: 0 <= i < |raws| ==> GitOid(t.algorithm, raws[i].oid) in OidSet(objects))
  }

  lemma ObjectIsStored(db: Database, objects: seq<GitObject>, o: GitObject)
    requires FromDatabase(db, objects) && o in objects
    ensures o.oid in OidSet(objects) && o.oid in db && db[o.oid] == o
  {
    var i :| 0 <= i < |objects| && objects[i] == o;
  }

  lemma ReachedHoldsReferences(db: Database, roots: seq<Oid>, objects: seq<GitObject>)
    requires FromDatabase(db, objects) && forall o :: o in OidSet(objects) <==> Reachable(db, roots, o)
    ensures HoldsReferences(db, objects)
  {
    hide FromDatabase, OidSet, Reachable, TagText, CommitText, WrittenAll, TagHeaders, CommitHeaders, ParseMode, Edge;
    forall t, target, others, message |
      TagHeaders(target, others, t) && GitObject(t, Tag, TagText(target, others, message)) in objects
      ensures target in OidSet(objects)
    {
      ObjectIsStored(db, objects, GitObject(t, Tag, TagText(target, others, message)));
      TagTargetIsReached(db, roots, t, target, others, message);
    }
    forall c, tree, parents, others, message |
      CommitHeaders(tree, parents, others, c) && GitObject(c, Commit, CommitText(tree, parents, others, message)) in objects
      ensures tree in OidSet(objects) && forall b :: b in parents ==> b in OidSet(objects)
    {
      ObjectIsStored(db, objects, GitObject(c, Commit, CommitText(tree, parents, others, message)));
      CommitIsReachedWhole(db, roots, c, tree, parents, others, message);
    }
    forall t: Oid, raws: seq<RawEntry> | AllWellFormed(t.algorithm, raws) && GitObject(t, Tree, WrittenAll(raws)) in objects
      ensures forall i :: 0 <= i < |raws| ==> GitOid(t.algorithm, raws[i].oid) in OidSet(objects)
    {
      ObjectIsStored(db, objects, GitObject(t, Tree, WrittenAll(raws)));
      TreeIsReachedWhole(db, roots, t, raws);
    }
  }

  // Breadth-first walk: on success every reachable object exactly once and nothing else; it
  // succeeds exactly when every reachable object can be read.
  method ReachableObjects(db: Database, algorithm: HashAlgorithm, roots: seq<Oid>)
      returns (r: Result<seq<GitObject>, GitError>)
    requires forall o :: o in db ==> db[o].oid == o
    ensures r.Ok? <==> forall o :: Reachable(db, roots, o) ==> Readable(db, algorithm, o)
    ensures r.Ok? ==> FromDatabase(db, r.value) && forall o :: o in OidSet(r.value) <==> Reachable(db, roots, o)
    ensures r.Ok? ==> HoldsReferences(db, r.value)
  {
    hide ReferencedOids, Reachable, FromDatabase, OidSet, Walking, HoldsReferences;
    var pending: seq<Oid> := [];
    for i := 0 to |roots|
      invariant pending == roots[..i]
    {
      if roots[i].algorithm != algorithm {
        RootIsReachable(db, roots, roots[i]);
        return Err(WrongAlgorithm);
      }
      pending := pending + [roots[i]];
    }
    assert pending == roots;
    WalkStarts(db, algorithm, roots);
    var seen: set<Oid>, result: seq<GitObject> := {}, [];
    while pending != []
      invariant Walking(db, algorithm, roots, seen, pending, result)
      decreases |db.Keys - seen|, |pending|
    {
      var oid := pending[0];
      if oid in seen {
        WalkSkips(db, algorithm, roots, seen, pending, result);
        pending := pending[1..];
      } else {
        PendingIsReachable(db, algorithm, roots, seen, pending, result);
        var read := ReadObject(db, algorithm, oid);
        if read.Err? {
          return Err(read.error);
        }
        var children := ReferencedOids(read.value);
        if children.Err? {
          return Err(children.error);
        }
        WalkVisits(db, algorithm, roots, seen, pending, result);
        ShrinksSet(db.Keys, seen, oid);
        seen := seen + {oid};
        pending := pending[1..] + children.value;
        result := result + [read.value];
      }
    }
    WalkEnds(db, algorithm, roots, seen, result);
    ReachedHoldsReferences(db, roots, result);
    r := Ok(result);
  }

  lemma ShrinksSet(all: set<Oid>, seen: set<Oid>, o: Oid)
    requires o in all && o !in seen
    ensures |all - (seen + {o})| < |all - seen|
  {
    assert all - seen == (all - (seen + {o})) + {o};
  }
}
