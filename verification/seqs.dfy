/**
 Sequence facts the change tracker needs: looking every element up in a map,
 distinctness, and an ascending sort of integers with its uniqueness.
 */
module Seqs {

  predicate Distinct<T(==)>(s: seq<T>)
  {
    forall i, j :: 0 <= i < j < |s| ==> s[i] != s[j]
  }

  /** `[f[s[0]], f[s[1]], ...]`. */
  function MapThrough<K, V>(f: map<K, V>, s: seq<K>): (r: seq<V>)
    requires forall i :: 0 <= i < |s| ==> s[i] in f
    ensures |r| == |s|
    ensures forall i :: 0 <= i < |s| ==> r[i] == f[s[i]]
  {
    if |s| == 0 then [] else [f[s[0]]] + MapThrough(f, s[1..])
  }

  lemma SameMultisetMembers<K, V>(f: map<K, V>, a: seq<K>, b: seq<K>)
    requires forall i :: 0 <= i < |a| ==> a[i] in f
    requires multiset(a) == multiset(b)
    ensures forall i :: 0 <= i < |b| ==> b[i] in f
  {
    forall i | 0 <= i < |b| ensures b[i] in f {
      assert b[i] in multiset(a);
      var j :| 0 <= j < |a| && a[j] == b[i];
    }
  }

  lemma RemoveAt<K>(b: seq<K>, j: nat)
    requires j < |b|
    ensures multiset(b[..j] + b[j + 1..]) == multiset(b) - multiset{b[j]}
  {
    assert b == b[..j] + [b[j]] + b[j + 1..];
  }

  /** Looking up a concatenation concatenates the lookups. */
  lemma MapThroughAppend<K, V>(f: map<K, V>, a: seq<K>, b: seq<K>)
    requires forall i :: 0 <= i < |a| ==> a[i] in f
    requires forall i :: 0 <= i < |b| ==> b[i] in f
    ensures forall i :: 0 <= i < |a + b| ==> (a + b)[i] in f
    ensures MapThrough(f, a + b) == MapThrough(f, a) + MapThrough(f, b)
  {
    var ab := a + b;
    assert forall i :: 0 <= i < |ab| ==> ab[i] == if i < |a| then a[i] else b[i - |a|];
    var l := MapThrough(f, ab);
    var r := MapThrough(f, a) + MapThrough(f, b);
    assert |l| == |r|;
    assert forall i :: 0 <= i < |l| ==> l[i] == r[i];
  }

  /** Removing the key at `j` removes its value from the looked-up sequence. */
  lemma MapThroughRemove<K, V>(f: map<K, V>, b: seq<K>, j: nat, b': seq<K>)
    requires forall i :: 0 <= i < |b| ==> b[i] in f
    requires j < |b| && b' == b[..j] + b[j + 1..]
    ensures forall i :: 0 <= i < |b'| ==> b'[i] in f
    ensures multiset(MapThrough(f, b)) == multiset(MapThrough(f, b')) + multiset{f[b[j]]}
  {
    var front, back := b[..j], b[j + 1..];
    SplitAt(b, j);
    MapThroughAppend(f, [b[j]], back);
    MapThroughAppend(f, front, [b[j]] + back);
    MapThroughAppend(f, front, back);
    MultisetMiddle(MapThrough(f, front), f[b[j]], MapThrough(f, back));
  }

  /** `b` is what precedes `b[j]`, then `b[j]`, then what follows it. */
  lemma SplitAt<T>(b: seq<T>, j: nat)
    requires j < |b|
    ensures b == b[..j] + ([b[j]] + b[j + 1..])
  {
  }

  lemma MultisetMiddle<T>(x: seq<T>, v: T, y: seq<T>)
    ensures multiset(x + ([v] + y)) == multiset(x + y) + multiset{v}
  {
  }

  /** A non-empty sequence is its head followed by its tail. */
  lemma HeadTail<T>(s: seq<T>)
    requires |s| > 0
    ensures s == [s[0]] + s[1..]
    ensures multiset(s) == multiset{s[0]} + multiset(s[1..])
    ensures multiset(s[1..]) == multiset(s) - multiset{s[0]}
  {
    assert s == [s[0]] + s[1..];
  }

  /** Looking up two rearrangements of the same keys gives rearrangements of the same values. */
  lemma {:induction false} MapThroughMultiset<K, V>(f: map<K, V>, a: seq<K>, b: seq<K>)
    requires forall i :: 0 <= i < |a| ==> a[i] in f
    requires multiset(a) == multiset(b)
    ensures forall i :: 0 <= i < |b| ==> b[i] in f
    ensures multiset(MapThrough(f, a)) == multiset(MapThrough(f, b))
    decreases |a|
  {
    SameMultisetMembers(f, a, b);
    if |a| == 0 {
      assert |b| == |multiset(b)| == 0;
    } else {
      var x := a[0];
      assert x in multiset(b);
      var j :| 0 <= j < |b| && b[j] == x;
      var b' := b[..j] + b[j + 1..];
      RemoveAt(b, j);
      MapThroughCons(f, a);
      MapThroughMultiset(f, a[1..], b');
      MapThroughRemove(f, b, j, b');
    }
  }

  /** Looking up a non-empty sequence: its first value, then the lookup of the rest. */
  lemma MapThroughCons<K, V>(f: map<K, V>, a: seq<K>)
    requires |a| > 0 && forall i :: 0 <= i < |a| ==> a[i] in f
    ensures forall i :: 0 <= i < |a[1..]| ==> a[1..][i] in f
    ensures multiset(a[1..]) == multiset(a) - multiset{a[0]}
    ensures multiset(MapThrough(f, a)) == multiset{f[a[0]]} + multiset(MapThrough(f, a[1..]))
  {
    assert a == [a[0]] + a[1..];
    assert MapThrough(f, a) == [f[a[0]]] + MapThrough(f, a[1..]);
  }

  lemma DistinctTail<T>(s: seq<T>)
    requires Distinct(s) && |s| > 0
    ensures Distinct(s[1..]) && s[0] !in s[1..]
  {
    var tail := s[1..];
    forall i, j | 0 <= i < j < |tail| ensures tail[i] != tail[j] {
      assert tail[i] == s[i + 1] && tail[j] == s[j + 1];
    }
    forall i | 0 <= i < |tail| ensures tail[i] != s[0] {
      assert tail[i] == s[i + 1];
    }
  }

  /** A distinct sequence has one element per member of its set. */
  lemma {:induction false} DistinctCard<T>(s: seq<T>)
    requires Distinct(s)
    ensures |set x | x in s| == |s|
  {
    if |s| > 0 {
      var tail := s[1..];
      DistinctTail(s);
      DistinctCard(tail);
      var st := set x | x in tail;
      assert (set x | x in s) == st + {s[0]};
      assert s[0] !in st;
    }
  }

  /** In a distinct sequence every member occurs once. */
  lemma {:induction false} DistinctOnce<T>(s: seq<T>, x: T)
    requires Distinct(s) && x in s
    ensures multiset(s)[x] == 1
  {
    var tail := s[1..];
    DistinctTail(s);
    assert s == [s[0]] + tail;
    assert multiset(s) == multiset{s[0]} + multiset(tail);
    if x == s[0] {
      assert x !in multiset(tail);
    } else {
      DistinctOnce(tail, x);
    }
  }

  /** A rearrangement of a distinct sequence is distinct. */
  lemma MultisetKeepsDistinct<T>(a: seq<T>, b: seq<T>)
    requires Distinct(a) && multiset(a) == multiset(b)
    ensures Distinct(b)
  {
    forall i, j | 0 <= i < j < |b| ensures b[i] != b[j] {
      if b[i] == b[j] {
        var x := b[i];
        assert b == b[..i] + [x] + b[i + 1..j] + [x] + b[j + 1..];
        assert multiset(b)[x] >= 2;
        assert x in multiset(a);
        DistinctOnce(a, x);
      }
    }
  }

  /** Two distinct sequences with the same members are rearrangements of each other. */
  lemma DistinctSameMembers<T>(a: seq<T>, b: seq<T>)
    requires Distinct(a) && Distinct(b)
    requires forall x :: x in a <==> x in b
    ensures multiset(a) == multiset(b)
  {
    forall x ensures multiset(a)[x] == multiset(b)[x] {
      if x in a {
        DistinctOnce(a, x);
        DistinctOnce(b, x);
      } else {
        assert x !in multiset(a) && x !in multiset(b);
      }
    }
  }

  predicate Ascending(s: seq<int>)
  {
    forall i, j :: 0 <= i <= j < |s| ==> s[i] <= s[j]
  }

  function Insert(x: int, s: seq<int>): (r: seq<int>)
    requires Ascending(s)
    ensures Ascending(r)
    ensures multiset(r) == multiset(s) + multiset{x}
  {
    if |s| == 0 || x <= s[0] then
      AscendingCons(x, s);
      [x] + s
    else
      AscendingTail(s);
      var rest := Insert(x, s[1..]);
      HeadTail(s);
      LowerBound(s[0], s[1..], x, rest);
      AscendingCons(s[0], rest);
      [s[0]] + rest
  }

  /** Everything in a rearrangement of `s` and `x` is at least a bound of both. */
  lemma LowerBound(h: int, s: seq<int>, x: int, r: seq<int>)
    requires forall k :: 0 <= k < |s| ==> h <= s[k]
    requires h <= x && multiset(r) == multiset(s) + multiset{x}
    ensures forall k :: 0 <= k < |r| ==> h <= r[k]
  {
    forall k | 0 <= k < |r| ensures h <= r[k] {
      assert r[k] in multiset(r);
    }
  }

  lemma AscendingCons(h: int, r: seq<int>)
    requires Ascending(r) && forall k :: 0 <= k < |r| ==> h <= r[k]
    ensures Ascending([h] + r)
  {
    var s := [h] + r;
    forall i, j | 0 <= i <= j < |s| ensures s[i] <= s[j] {
      if i > 0 {
        assert s[i] == r[i - 1] && s[j] == r[j - 1];
      } else if j > 0 {
        assert s[j] == r[j - 1];
      }
    }
  }

  lemma AscendingTail(s: seq<int>)
    requires Ascending(s) && |s| > 0
    ensures Ascending(s[1..]) && forall k :: 0 <= k < |s[1..]| ==> s[0] <= s[1..][k]
  {
    var t := s[1..];
    forall i, j | 0 <= i <= j < |t| ensures t[i] <= t[j] {
      assert t[i] == s[i + 1] && t[j] == s[j + 1];
    }
    forall k | 0 <= k < |t| ensures s[0] <= t[k] {
      assert t[k] == s[k + 1];
    }
  }

  /**
   An ascending rearrangement of `s`. Which algorithm sorts does not matter:
   `AscendingUnique` shows there is only one such rearrangement.
   */
  function Sort(s: seq<int>): (r: seq<int>)
    ensures Ascending(r)
    ensures multiset(r) == multiset(s)
  {
    if |s| == 0 then []
    else
      assert s == [s[0]] + s[1..];
      Insert(s[0], Sort(s[1..]))
  }

  /** An ascending sequence is determined by its multiset of elements. */
  lemma {:induction false} AscendingUnique(a: seq<int>, b: seq<int>)
    requires Ascending(a) && Ascending(b)
    requires multiset(a) == multiset(b)
    ensures a == b
    decreases |a|
  {
    assert |a| == |multiset(a)| == |multiset(b)| == |b|;
    if |a| > 0 {
      SameHead(a, b);
      HeadTail(a);
      HeadTail(b);
      AscendingTail(a);
      AscendingTail(b);
      AscendingUnique(a[1..], b[1..]);
    }
  }

  /** Ascending rearrangements of each other start with the same, smallest element. */
  lemma SameHead(a: seq<int>, b: seq<int>)
    requires Ascending(a) && Ascending(b) && |a| > 0 && |b| > 0
    requires multiset(a) == multiset(b)
    ensures a[0] == b[0]
  {
    assert a[0] in multiset(b) && b[0] in multiset(a);
    var i :| 0 <= i < |b| && b[i] == a[0];
    var j :| 0 <= j < |a| && a[j] == b[0];
  }
}
