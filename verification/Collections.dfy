/** Small facts about sequences, sets and maps shared by the models. */
module Collections {

  datatype Option<+T> = None | Some(value: T)

  ghost predicate NoDuplicates<T>(s: seq<T>) {
    forall i, j :: 0 <= i < j < |s| ==> s[i] != s[j]
  }

  function SetOf<T>(s: seq<T>): set<T> {
    set x | x in s
  }

  lemma {:induction false} NoDuplicatesSize<T>(s: seq<T>)
    requires NoDuplicates(s)
    ensures |SetOf(s)| == |s|
  {
    if s != [] {
      NoDuplicatesSize(s[1..]);
      assert SetOf(s) == {s[0]} + SetOf(s[1..]);
    }
  }

  lemma SetOfIsEmpty<T>(s: seq<T>)
    ensures SetOf(s) == {} <==> s == []
  {
    if s != [] {
      assert s[0] in SetOf(s);
    }
  }

  function Lookup<K, V>(m: map<K, V>, k: K): Option<V> {
    if k in m then Some(m[k]) else None
  }

  /** The values of a map, each turned into a multiset and all of them added up. */
  ghost function Gather<K, V, W>(m: map<K, V>, f: V -> multiset<W>): multiset<W>
    decreases |m|
  {
    if m == map[] then multiset{}
    else
      var k :| k in m;
      f(m[k]) + Gather(m - {k}, f)
  }

  lemma {:induction false} GatherSplit<K, V, W>(m: map<K, V>, f: V -> multiset<W>, k: K)
    requires k in m
    ensures Gather(m, f) == f(m[k]) + Gather(m - {k}, f)
    decreases |m|
  {
    var c :| c in m && Gather(m, f) == f(m[c]) + Gather(m - {c}, f);
    if c != k {
      GatherSplit(m - {c}, f, k);
      GatherSplit(m - {k}, f, c);
      assert m - {c} - {k} == m - {k} - {c};
    }
  }

  /** How often `w` is gathered before and after one entry is written. */
  lemma GatherUpdate<K, V, W>(m: map<K, V>, f: V -> multiset<W>, k: K, v: V, w: W)
    ensures Gather(m[k := v], f)[w] + (if k in m then f(m[k])[w] else 0) == Gather(m, f)[w] + f(v)[w]
  {
    GatherSplit(m[k := v], f, k);
    assert m[k := v] - {k} == m - {k};
    if k in m {
      GatherSplit(m, f, k);
    } else {
      assert m - {k} == m;
    }
  }

  lemma GatherRemove<K, V, W>(m: map<K, V>, f: V -> multiset<W>, k: K, w: W)
    requires k in m
    ensures Gather(m, f)[w] == Gather(m - {k}, f)[w] + f(m[k])[w]
  {
    GatherSplit(m, f, k);
  }

  function Min(a: int, b: int): int {
    if a <= b then a else b
  }

  // ---------------------------------------------------------------- filtering

  /** The elements that pass a test, in their order. */
  function Filter<T>(s: seq<T>, keep: T -> bool): seq<T> {
    if s == [] then []
    else (if keep(s[0]) then [s[0]] else []) + Filter(s[1..], keep)
  }

  /** What is kept is what passes; if that is as much as there was, it is all. */
  lemma {:induction false} FilterIsExact<T>(s: seq<T>, keep: T -> bool)
    ensures forall x :: x in Filter(s, keep) <==> x in s && keep(x)
    ensures |Filter(s, keep)| <= |s|
    ensures |Filter(s, keep)| == |s| ==> Filter(s, keep) == s
    ensures (forall x :: x in s ==> keep(x)) ==> Filter(s, keep) == s
  {
    if s != [] {
      FilterIsExact(s[1..], keep);
      assert s == [s[0]] + s[1..];
    }
  }

  lemma Reassociate<T>(a: seq<T>, b: seq<T>, c: seq<T>)
    ensures a + b + c == a + (b + c)
  {
  }

  lemma {:induction false} FilterConcat<T>(a: seq<T>, b: seq<T>, keep: T -> bool)
    ensures Filter(a + b, keep) == Filter(a, keep) + Filter(b, keep)
  {
    if a == [] {
      assert a + b == b;
    } else {
      FilterConcat(a[1..], b, keep);
      FirstOfBoth(a, b);
      Reassociate(if keep(a[0]) then [a[0]] else [], Filter(a[1..], keep), Filter(b, keep));
    }
  }

  lemma FirstOfBoth<T>(a: seq<T>, b: seq<T>)
    requires a != []
    ensures a + b != [] && (a + b)[0] == a[0] && (a + b)[1..] == a[1..] + b
  {
  }

  /** Tests that agree on the elements keep the same ones. */
  lemma {:induction false} FilterAgrees<T>(s: seq<T>, one: T -> bool, other: T -> bool)
    requires forall x :: x in s ==> (one(x) <==> other(x))
    ensures Filter(s, one) == Filter(s, other)
  {
    if s != [] {
      FilterAgrees(s[1..], one, other);
    }
  }

  lemma {:induction false} FilterCount<T>(s: seq<T>, keep: T -> bool, x: T)
    ensures multiset(Filter(s, keep))[x] == if keep(x) then multiset(s)[x] else 0
  {
    if s != [] {
      FilterCount(s[1..], keep, x);
      assert s == [s[0]] + s[1..];
    }
  }

  lemma {:induction false} FilterTwice<T>(s: seq<T>, first: T -> bool, second: T -> bool, both: T -> bool)
    requires forall x :: x in s ==> (both(x) <==> first(x) && second(x))
    ensures Filter(Filter(s, first), second) == Filter(s, both)
  {
    if s != [] {
      FilterTwice(s[1..], first, second, both);
      assert s == [s[0]] + s[1..];
      var rest := Filter(s[1..], first);
      assert ([s[0]] + rest)[1..] == rest && [] + rest == rest;
    }
  }

  lemma {:induction false} FilterKeepsDistinct<T>(s: seq<T>, keep: T -> bool)
    requires NoDuplicates(s)
    ensures NoDuplicates(Filter(s, keep))
  {
    if s != [] {
      FilterKeepsDistinct(s[1..], keep);
      FilterIsExact(s[1..], keep);
      assert s[0] !in s[1..];
    }
  }
}
