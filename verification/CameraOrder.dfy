/** Camera ids in the order `sorted` puts strings in. */
module CameraOrder {
  import opened Collections

  predicate Before(a: string, b: string) {
    if b == [] then false
    else if a == [] then true
    else a[0] < b[0] || (a[0] == b[0] && Before(a[1..], b[1..]))
  }

  /** One text is before another if it is a proper beginning of it, or has the smaller character at
      the first place where they differ. */
  lemma {:induction false} BeforeIsLexicographic(a: string, b: string)
    ensures Before(a, b) <==>
      || a < b
      || (exists k :: 0 <= k < |a| && k < |b| && a[..k] == b[..k] && a[k] < b[k])
  {
    if a != [] && b != [] {
      BeforeIsLexicographic(a[1..], b[1..]);
      assert a == [a[0]] + a[1..] && b == [b[0]] + b[1..];
      if a[0] == b[0] && Before(a[1..], b[1..]) && !(a[1..] < b[1..]) {
        var k :| 0 <= k < |a[1..]| && k < |b[1..]| && a[1..][..k] == b[1..][..k] && a[1..][k] < b[1..][k];
        assert a[..k + 1] == [a[0]] + a[1..][..k] && b[..k + 1] == [b[0]] + b[1..][..k];
        assert a[k + 1] < b[k + 1];
      }
      if a[0] < b[0] {
        assert a[..0] == b[..0];
      }
      if k :| 0 <= k < |a| && k < |b| && a[..k] == b[..k] && a[k] < b[k] {
        if 0 < k {
          assert a[0] == a[..k][0] == b[0];
          assert a[1..][..k - 1] == a[..k][1..] && b[1..][..k - 1] == b[..k][1..];
          assert a[1..][k - 1] < b[1..][k - 1];
        }
      }
    }
  }

  lemma {:induction false} BeforeIsAnOrder(a: string, b: string, c: string)
    ensures !Before(a, a)
    ensures Before(a, b) && Before(b, c) ==> Before(a, c)
    ensures a != b ==> Before(a, b) || Before(b, a)
    decreases |a| + |b| + |c|
  {
    if a != [] {
      BeforeIsAnOrder(a[1..], if b == [] then [] else b[1..], if c == [] then [] else c[1..]);
      if b != [] && a[1..] == b[1..] && a[0] == b[0] {
        assert a == [a[0]] + a[1..] == b;
      }
    }
  }

  /** Strictly increasing: sorted, without repetitions. */
  ghost predicate Sorted(ids: seq<string>) {
    forall i, j :: 0 <= i < j < |ids| ==> Before(ids[i], ids[j])
  }

  function Insert(ids: seq<string>, id: string): seq<string> {
    if ids == [] then [id]
    else if Before(id, ids[0]) then [id] + ids
    else [ids[0]] + Insert(ids[1..], id)
  }

  lemma {:induction false} InsertSorts(ids: seq<string>, id: string)
    requires Sorted(ids) && id !in ids
    ensures Sorted(Insert(ids, id)) && SetOf(Insert(ids, id)) == SetOf(ids) + {id}
  {
    if ids != [] {
      var head, rest := ids[0], ids[1..];
      assert ids == [head] + rest;
      BeforeIsAnOrder(id, head, head);
      if Before(id, head) {
        forall i | 0 <= i < |ids| ensures Before(id, ids[i]) {
          BeforeIsAnOrder(id, head, ids[i]);
        }
      } else {
        InsertSorts(rest, id);
        forall x | x in Insert(rest, id) ensures Before(head, x) {
          assert x in SetOf(rest) + {id};
        }
      }
    }
  }

  method Sort(ids: set<string>) returns (sorted: seq<string>)
    ensures Sorted(sorted) && SetOf(sorted) == ids
  {
    sorted := [];
    var todo := ids;
    while todo != {}
      invariant todo <= ids
      invariant Sorted(sorted) && SetOf(sorted) == ids - todo
      decreases todo
    {
      var id :| id in todo;
      assert id !in SetOf(sorted);
      InsertSorts(sorted, id);
      sorted := Insert(sorted, id);
      todo := todo - {id};
    }
  }

  /** The sorted list of a set is one list: equal groups give equal tuples. */
  lemma {:induction false} SortedIsUnique(a: seq<string>, b: seq<string>)
    requires Sorted(a) && Sorted(b) && SetOf(a) == SetOf(b)
    ensures a == b
  {
    SetOfIsEmpty(a);
    SetOfIsEmpty(b);
    if a != [] {
      assert a[0] in SetOf(b) && b != [];
      assert b[0] in SetOf(a);
      BeforeIsAnOrder(a[0], b[0], a[0]);
      assert a[0] == b[0];
      assert a == [a[0]] + a[1..] && b == [b[0]] + b[1..];
      assert a[0] !in a[1..] && b[0] !in b[1..] by {
        BeforeIsAnOrder(a[0], a[0], a[0]);
      }
      assert SetOf(a[1..]) == SetOf(a) - {a[0]} == SetOf(b[1..]);
      SortedIsUnique(a[1..], b[1..]);
    }
  }

  lemma SortedHasNoDuplicates(ids: seq<string>)
    requires Sorted(ids)
    ensures NoDuplicates(ids)
  {
    forall i, j | 0 <= i < j < |ids| ensures ids[i] != ids[j] {
      BeforeIsAnOrder(ids[i], ids[j], ids[i]);
    }
  }
}
