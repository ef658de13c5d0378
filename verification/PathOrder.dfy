/** Relative paths as names, and the two orders they are sorted in. */
module PathOrder {
  import opened Bytes

  const SLASH: byte := 47

  // A component is a name a directory can hold.
  predicate ValidName(name: seq<byte>) {
    name != [] && name != [46] && name != [46, 46] && SLASH !in name && 0 !in name
  }

  function Join(names: seq<seq<byte>>): seq<byte> {
    if names == [] then [] else if |names| == 1 then names[0] else names[0] + [SLASH] + Join(names[1..])
  }

  // The names between the slashes.
  function Split(path: seq<byte>): (names: seq<seq<byte>>)
    ensures names != []
  {
    if path == [] then [[]]
    else
      var rest := Split(path[1..]);
      if path[0] == SLASH then [[]] + rest else [[path[0]] + rest[0]] + rest[1..]
  }

  predicate ValidNames(names: seq<seq<byte>>) {
    forall i :: 0 <= i < |names| ==> ValidName(names[i])
  }

  lemma {:induction false} JoinSplit(path: seq<byte>)
    ensures Join(Split(path)) == path
  {
    if path != [] {
      JoinSplit(path[1..]);
      var rest := Split(path[1..]);
      if path[0] == SLASH {
        assert ([[]] + rest)[1..] == rest;
      } else {
        var names := [[path[0]] + rest[0]] + rest[1..];
        assert names[1..] == rest[1..];
      }
    }
  }

  lemma {:induction false} SplitName(name: seq<byte>, tail: seq<byte>)
    requires SLASH !in name
    ensures Split(name) == [name]
    ensures Split(name + [SLASH] + tail) == [name] + Split(tail)
  {
    if name == [] {
      assert [] + [SLASH] + tail == [SLASH] + tail;
      assert ([SLASH] + tail)[1..] == tail;
    } else {
      SplitName(name[1..], tail);
      assert (name + [SLASH] + tail)[1..] == name[1..] + [SLASH] + tail;
      assert name == [name[0]] + name[1..];
      assert ([name[1..]] + Split(tail))[1..] == Split(tail);
    }
  }

  lemma {:induction false} SplitJoin(names: seq<seq<byte>>)
    requires names != [] && forall i :: 0 <= i < |names| ==> SLASH !in names[i]
    ensures Split(Join(names)) == names
  {
    if |names| == 1 {
      SplitName(names[0], []);
    } else {
      SplitJoin(names[1..]);
      SplitName(names[0], Join(names[1..]));
      assert names == [names[0]] + names[1..];
    }
  }

  // ---------- Component order and byte order ----------

  // How paths compare as paths: name by name.
  predicate NamesLess(p: seq<seq<byte>>, q: seq<seq<byte>>) {
    q != [] && (p == [] || Less(p[0], q[0]) || (p[0] == q[0] && NamesLess(p[1..], q[1..])))
  }

  // At the first name that differs, `p`'s is a directory whose name `q`'s continues with a byte
  // that sorts before the slash.
  predicate Clash(p: seq<seq<byte>>, q: seq<seq<byte>>) {
    p != [] && q != [] &&
    if p[0] == q[0] then Clash(p[1..], q[1..])
    else |p| > 1 && p[0] < q[0] && q[0][|p[0]|] < SLASH
  }

  lemma {:induction false} LessCancel(prefix: seq<byte>, x: seq<byte>, y: seq<byte>)
    ensures Less(prefix + x, prefix + y) <==> Less(x, y)
  {
    if prefix == [] {
      assert prefix + x == x && prefix + y == y;
    } else {
      LessCancel(prefix[1..], x, y);
      assert (prefix + x)[1..] == prefix[1..] + x && (prefix + y)[1..] == prefix[1..] + y;
    }
  }

  lemma {:induction false} LessDiverges(a: seq<byte>, b: seq<byte>, x: seq<byte>, y: seq<byte>)
    requires Less(a, b) && !(a <= b)
    ensures Less(a + x, b + y)
  {
    if a[0] == b[0] {
      assert (a + x)[1..] == a[1..] + x && (b + y)[1..] == b[1..] + y;
      assert a[1..] <= b[1..] ==> a <= b by {
        assert a == [a[0]] + a[1..] && b == [b[0]] + b[1..];
      }
      LessDiverges(a[1..], b[1..], x, y);
    }
  }

  // What follows the first name of a path.
  function After(names: seq<seq<byte>>): seq<byte>
    requires names != []
  {
    if |names| == 1 then [] else [SLASH] + Join(names[1..])
  }

  lemma JoinFirst(names: seq<seq<byte>>)
    requires names != []
    ensures Join(names) == names[0] + After(names)
  {
    if |names| > 1 {
      assert names[0] + [SLASH] + Join(names[1..]) == names[0] + ([SLASH] + Join(names[1..]));
    }
  }

  // Byte order agrees with path order on exactly the pairs that do not clash.
  lemma {:induction false} OrdersAgree(p: seq<seq<byte>>, q: seq<seq<byte>>)
    requires p != [] && q != [] && ValidNames(p) && ValidNames(q) && NamesLess(p, q)
    ensures Less(Join(p), Join(q)) <==> !Clash(p, q)
  {
    hide Join;
    JoinFirst(p);
    JoinFirst(q);
    if p[0] == q[0] {
      LessIrreflexive(p[0]);
      LessCancel(p[0], After(p), After(q));
      if |p| > 1 {
        LessCancel([SLASH], Join(p[1..]), Join(q[1..]));
        OrdersAgree(p[1..], q[1..]);
      }
    } else if p[0] <= q[0] {
      var rest := q[0][|p[0]|..];
      assert q[0] == p[0] + rest && rest[0] == q[0][|p[0]|];
      assert Join(q) == p[0] + (rest + After(q));
      LessCancel(p[0], After(p), rest + After(q));
      assert rest[0] in q[0];
    } else {
      LessDiverges(p[0], q[0], After(p), After(q));
    }
  }

  lemma {:induction false} NamesLessTransitive(a: seq<seq<byte>>, b: seq<seq<byte>>, c: seq<seq<byte>>)
    requires NamesLess(a, b) && NamesLess(b, c)
    ensures NamesLess(a, c)
  {
    hide Less;
    if a != [] {
      if Less(a[0], b[0]) && Less(b[0], c[0]) {
        LessTransitive(a[0], b[0], c[0]);
      }
      if a[0] == b[0] == c[0] && NamesLess(a[1..], b[1..]) && NamesLess(b[1..], c[1..]) {
        NamesLessTransitive(a[1..], b[1..], c[1..]);
      }
      LessIrreflexive(b[0]);
    }
  }

  lemma {:induction false} NamesLessTotal(a: seq<seq<byte>>, b: seq<seq<byte>>)
    ensures a == b || NamesLess(a, b) || NamesLess(b, a)
  {
    hide Less;
    if a != [] && b != [] {
      LessTotal(a[0], b[0]);
      if a[0] == b[0] {
        NamesLessTotal(a[1..], b[1..]);
        assert a == [a[0]] + a[1..] && b == [b[0]] + b[1..];
      }
    }
  }

  lemma {:induction false} NamesLessIrreflexive(a: seq<seq<byte>>)
    ensures !NamesLess(a, a)
  {
    if a != [] {
      LessIrreflexive(a[0]);
      NamesLessIrreflexive(a[1..]);
    }
  }

  // Only a path that sorts first can clash with a later one.
  lemma {:induction false} ClashIsOrdered(p: seq<seq<byte>>, q: seq<seq<byte>>)
    requires Clash(p, q)
    ensures NamesLess(p, q)
  {
    if p[0] == q[0] {
      ClashIsOrdered(p[1..], q[1..]);
    } else {
      PrefixLess(p[0], q[0]);
    }
  }

  lemma {:induction false} PrefixLess(a: seq<byte>, b: seq<byte>)
    requires a < b
    ensures Less(a, b)
  {
    if a != [] {
      PrefixLess(a[1..], b[1..]);
    }
  }
}
