/**
 Positions in a stream of rows ordered by `(timestamp, id)`, and the stable sort
 on them. A hexadecimal identifier of fixed width orders like the number it
 denotes, so an identifier is a `nat`.
 */
module Keyset {

  datatype Key = Key(timestamp: nat, id: nat)

  predicate Less(a: Key, b: Key) {
    a.timestamp < b.timestamp || (a.timestamp == b.timestamp && a.id < b.id)
  }

  /** Strictly ascending, so also without repeated keys. */
  ghost predicate Ascending<T>(key: T -> Key, s: seq<T>) {
    forall i, j :: 0 <= i < j < |s| ==> Less(key(s[i]), key(s[j]))
  }

  ghost predicate DistinctKeys<T>(key: T -> Key, s: seq<T>) {
    forall i, j :: 0 <= i < j < |s| ==> key(s[i]) != key(s[j])
  }

  function Insert<T>(key: T -> Key, x: T, s: seq<T>): seq<T> {
    if s == [] || !Less(key(s[0]), key(x)) then [x] + s
    else [s[0]] + Insert(key, x, s[1..])
  }

  /** Python's `list.sort(key=...)`: stable, ascending. */
  function Sort<T>(key: T -> Key, s: seq<T>): seq<T> {
    if s == [] then [] else Insert(key, s[0], Sort(key, s[1..]))
  }

  ghost function Elems<T(!new)>(s: seq<T>): set<T> {
    set x | x in s
  }

  lemma {:induction false} InsertElems<T(!new)>(key: T -> Key, x: T, s: seq<T>)
    ensures Elems(Insert(key, x, s)) == Elems(s) + {x}
    ensures |Insert(key, x, s)| == |s| + 1
  {
    if s != [] && Less(key(s[0]), key(x)) {
      InsertElems(key, x, s[1..]);
      var t := Insert(key, x, s[1..]);
      assert Elems(s) == {s[0]} + Elems(s[1..]);
      assert Elems([s[0]] + t) == {s[0]} + Elems(t);
    } else {
      assert Elems([x] + s) == {x} + Elems(s);
    }
  }

  lemma {:induction false} InsertAscends<T(!new)>(key: T -> Key, x: T, s: seq<T>)
    requires Ascending(key, s)
    requires forall y :: y in s ==> key(y) != key(x)
    ensures Ascending(key, Insert(key, x, s))
  {
    if s != [] && Less(key(s[0]), key(x)) {
      assert Ascending(key, s[1..]);
      InsertAscends(key, x, s[1..]);
      var t := Insert(key, x, s[1..]);
      InsertElems(key, x, s[1..]);
      forall j | 0 <= j < |t| ensures Less(key(s[0]), key(t[j])) {
        assert t[j] in Elems(t);
      }
    } else if s != [] {
      forall j | 0 <= j < |s| ensures Less(key(x), key(s[j])) {
        assert s[0] in s && s[j] in s;
      }
    }
  }

  /** Sorting keeps exactly the elements, and distinct keys come out strictly ascending. */
  lemma {:induction false} SortElems<T(!new)>(key: T -> Key, s: seq<T>)
    ensures Elems(Sort(key, s)) == Elems(s)
    ensures |Sort(key, s)| == |s|
  {
    if s != [] {
      SortElems(key, s[1..]);
      InsertElems(key, s[0], Sort(key, s[1..]));
      assert Elems(s) == {s[0]} + Elems(s[1..]);
    }
  }

  lemma {:induction false} SortAscends<T(!new)>(key: T -> Key, s: seq<T>)
    requires DistinctKeys(key, s)
    ensures Ascending(key, Sort(key, s))
  {
    if s != [] {
      SortAscends(key, s[1..]);
      SortElems(key, s[1..]);
      forall y | y in Sort(key, s[1..]) ensures key(y) != key(s[0]) {
        assert y in Elems(s[1..]);
      }
      InsertAscends(key, s[0], Sort(key, s[1..]));
    }
  }

  /** A strictly ascending sequence is determined by its set of elements. */
  lemma {:induction false} AscendingIsUnique<T(!new)>(key: T -> Key, a: seq<T>, b: seq<T>)
    requires Ascending(key, a) && Ascending(key, b)
    requires Elems(a) == Elems(b)
    ensures a == b
  {
    NoElems(a);
    NoElems(b);
    if a != [] {
      assert a[0] in Elems(b);
      assert b[0] in Elems(a);
      assert a[0] == b[0];
      forall x ensures x in Elems(a[1..]) <==> x in Elems(b[1..]) {
        TailElems(key, a, x);
        TailElems(key, b, x);
        assert x in a <==> x in Elems(b);
      }
      AscendingIsUnique(key, a[1..], b[1..]);
    }
  }

  lemma NoElems<T(!new)>(s: seq<T>)
    ensures Elems(s) == {} <==> s == []
  {
    if s != [] {
      assert s[0] in Elems(s);
    }
  }

  lemma TailElems<T(!new)>(key: T -> Key, s: seq<T>, x: T)
    requires Ascending(key, s) && s != []
    ensures x in s[1..] <==> x in s && x != s[0]
  {
    if x in s[1..] {
      var i :| 0 <= i < |s[1..]| && s[1..][i] == x;
      assert s[i + 1] == x && Less(key(s[0]), key(s[i + 1]));
    }
    if x in s && x != s[0] {
      var i :| 0 <= i < |s| && s[i] == x;
      assert s[1..][i - 1] == x;
    }
  }

  /** Without repetition, a sequence has as many elements as its set. */
  lemma {:induction false} DistinctSize<T(!new)>(s: seq<T>)
    requires forall i, j :: 0 <= i < j < |s| ==> s[i] != s[j]
    ensures |Elems(s)| == |s|
  {
    if s != [] {
      DistinctSize(s[1..]);
      assert s[0] !in s[1..];
      assert Elems(s) == {s[0]} + Elems(s[1..]);
    }
  }

  lemma {:induction false} SubsetSize<T>(a: set<T>, b: set<T>)
    requires a <= b
    ensures |a| <= |b|
    ensures |a| == |b| ==> a == b
  {
    if a != {} {
      var x :| x in a;
      SubsetSize(a - {x}, b - {x});
    }
  }
}
