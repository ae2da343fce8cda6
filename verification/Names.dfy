/** Metric hashes and worker identities: byte strings under Go's bytewise order. */
module Names {
  type Name = seq<bv8>

  /** `a < b` as Go compares two strings. */
  predicate Less(a: Name, b: Name) {
    if b == [] then false
    else if a == [] then true
    else a[0] < b[0] || (a[0] == b[0] && Less(a[1..], b[1..]))
  }

  /**
   * Bytewise order without recursion: the names agree up to a place at which one of them ends and the other goes on, or
   * at which the byte is smaller.
   */
  ghost predicate Precedes(a: Name, b: Name) {
    exists i :: PartsAt(a, b, i)
  }

  ghost predicate PartsAt(a: Name, b: Name, i: int) {
    && 0 <= i <= |a| && i <= |b| && a[..i] == b[..i]
    && (i == |a| < |b| || (i < |a| && i < |b| && a[i] < b[i]))
  }

  lemma {:induction false} LessIff(a: Name, b: Name)
    ensures Less(a, b) <==> Precedes(a, b)
  {
    if a != [] && b != [] && a[0] == b[0] {
      LessIff(a[1..], b[1..]);
      if Precedes(a, b) {
        var i :| PartsAt(a, b, i);
        assert i > 0;
        PartsOneOn(a, b, i - 1);
      }
      if Precedes(a[1..], b[1..]) {
        var i :| PartsAt(a[1..], b[1..], i);
        PartsOneOn(a, b, i);
      }
    } else if Less(a, b) {
      assert PartsAt(a, b, 0);
    } else {
      forall i
        ensures !PartsAt(a, b, i)
      {
        if 0 < i <= |a| && i <= |b| {
          assert a[..i][0] == a[0] && b[..i][0] == b[0];
        }
      }
    }
  }

  lemma PartsOneOn(a: Name, b: Name, i: nat)
    requires a != [] && b != [] && a[0] == b[0]
    ensures PartsAt(a, b, i + 1) <==> PartsAt(a[1..], b[1..], i)
  {
    if i <= |a[1..]| && i <= |b[1..]| {
      assert a[..i + 1] == [a[0]] + a[1..][..i];
      assert b[..i + 1] == [b[0]] + b[1..][..i];
      assert a[..i + 1][1..] == a[1..][..i] && b[..i + 1][1..] == b[1..][..i];
    }
  }

  lemma {:induction false} LessIrreflexive(a: Name)
    ensures !Less(a, a)
  {
    if a != [] {
      LessIrreflexive(a[1..]);
    }
  }

  lemma {:induction false} LessTransitive(a: Name, b: Name, c: Name)
    requires Less(a, b) && Less(b, c)
    ensures Less(a, c)
  {
    if a != [] && a[0] == b[0] && b[0] == c[0] {
      LessTransitive(a[1..], b[1..], c[1..]);
    }
  }

  lemma {:induction false} LessTotal(a: Name, b: Name)
    ensures a == b || Less(a, b) || Less(b, a)
  {
    if a != [] && b != [] && a[0] == b[0] {
      LessTotal(a[1..], b[1..]);
      if a[1..] == b[1..] {
        assert a == [a[0]] + a[1..] && b == [b[0]] + b[1..];
      }
    }
  }

  /** Strictly ascending, hence free of repetition. */
  ghost predicate Ascending(s: seq<Name>) {
    forall i, j :: 0 <= i < j < |s| ==> Less(s[i], s[j])
  }

  /** Each name before the next ones, byte by byte. */
  ghost predicate InByteOrder(s: seq<Name>) {
    forall i, j :: 0 <= i < j < |s| ==> Precedes(s[i], s[j])
  }

  lemma AscendingIff(s: seq<Name>)
    ensures Ascending(s) <==> InByteOrder(s)
  {
    forall i, j | 0 <= i < j < |s|
      ensures Less(s[i], s[j]) <==> Precedes(s[i], s[j])
    {
      LessIff(s[i], s[j]);
    }
  }

  function Elements(s: seq<Name>): set<Name> {
    set n | n in s
  }

  /** An ascending sequence is determined by its elements. */
  lemma {:induction false} AscendingUnique(s: seq<Name>, t: seq<Name>)
    requires Ascending(s) && Ascending(t) && Elements(s) == Elements(t)
    ensures s == t
  {
    assert t != [] ==> t[0] in Elements(t);
    if s == [] {
    } else {
      assert s[0] in Elements(s);
      assert s[0] in Elements(t);
      var j :| 0 <= j < |t| && t[j] == s[0];
      assert t[0] in Elements(s);
      var i :| 0 <= i < |s| && s[i] == t[0];
      if i > 0 && j > 0 {
        LessTransitive(s[0], t[0], s[0]);
        LessIrreflexive(s[0]);
      }
      assert s[0] == t[0];
      TailElements(s);
      TailElements(t);
      AscendingUnique(s[1..], t[1..]);
      assert s == [s[0]] + s[1..] && t == [t[0]] + t[1..];
    }
  }

  lemma TailElements(s: seq<Name>)
    requires Ascending(s) && s != []
    ensures Ascending(s[1..]) && Elements(s[1..]) == Elements(s) - {s[0]}
  {
    forall n | n in Elements(s[1..])
      ensures n in Elements(s) && n != s[0]
    {
      var i :| 0 <= i < |s[1..]| && s[1..][i] == n;
      assert s[i + 1] == n && Less(s[0], s[i + 1]);
      LessIrreflexive(s[0]);
    }
    forall n | n in Elements(s) && n != s[0]
      ensures n in Elements(s[1..])
    {
      var i :| 0 <= i < |s| && s[i] == n;
      assert s[1..][i - 1] == n;
    }
  }

  /** The library sort over distinct names: insertion into an ascending sequence. */
  function Insert(n: Name, s: seq<Name>): seq<Name> {
    if s == [] || Less(n, s[0]) then [n] + s else [s[0]] + Insert(n, s[1..])
  }

  function Sort(s: seq<Name>): seq<Name> {
    if s == [] then [] else Insert(s[0], Sort(s[1..]))
  }

  lemma {:induction false} InsertAscending(n: Name, s: seq<Name>)
    requires Ascending(s) && n !in s
    ensures Ascending(Insert(n, s)) && Elements(Insert(n, s)) == Elements(s) + {n}
  {
    if s == [] {
    } else if Less(n, s[0]) {
      forall i | 0 <= i < |s|
        ensures Less(n, s[i])
      {
        if i > 0 {
          LessTransitive(n, s[0], s[i]);
        }
      }
    } else {
      InsertAscending(n, s[1..]);
      LessTotal(n, s[0]);
      var rest := Insert(n, s[1..]);
      assert s == [s[0]] + s[1..];
      forall i | 0 <= i < |rest|
        ensures Less(s[0], rest[i])
      {
        assert rest[i] in Elements(rest);
      }
      assert Elements([s[0]] + rest) == {s[0]} + Elements(rest);
      assert Elements(s) == {s[0]} + Elements(s[1..]);
    }
  }

  lemma {:induction false} SortAscending(s: seq<Name>)
    requires forall i, j :: 0 <= i < j < |s| ==> s[i] != s[j]
    ensures Ascending(Sort(s)) && Elements(Sort(s)) == Elements(s)
  {
    if s != [] {
      SortAscending(s[1..]);
      assert s[0] !in Elements(s[1..]);
      assert s[0] !in Sort(s[1..]) by {
        assert forall n :: n in Sort(s[1..]) ==> n in Elements(Sort(s[1..]));
      }
      InsertAscending(s[0], Sort(s[1..]));
      assert s == [s[0]] + s[1..];
      assert Elements(s) == {s[0]} + Elements(s[1..]);
    }
  }
}
