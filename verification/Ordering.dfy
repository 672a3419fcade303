/** `sorted()` on node ids: strings in the order of their code points. */
module Ordering {
  import opened Digraphs

  predicate AtMost(a: NodeId, b: NodeId) {
    || a == ""
    || (b != "" && (a[0] < b[0] || (a[0] == b[0] && AtMost(a[1..], b[1..]))))
  }

  /** The order of code points: a prefix comes first, and otherwise the first character that differs decides. */
  lemma {:induction false} AtMostIsLexicographic(a: NodeId, b: NodeId)
    ensures AtMost(a, b) <==>
            || a <= b
            || exists i :: 0 <= i < |a| && i < |b| && a[..i] == b[..i] && a[i] < b[i]
  {
    if a == "" || b == "" {
    } else if a[0] != b[0] {
      if a[0] < b[0] { assert a[..0] == b[..0]; }
      forall i | 0 < i < |a| && i < |b| ensures a[..i] != b[..i] { assert a[..i][0] == a[0] && b[..i][0] == b[0]; }
    } else {
      AtMostIsLexicographic(a[1..], b[1..]);
      assert a == [a[0]] + a[1..] && b == [b[0]] + b[1..];
      if i :| 0 <= i < |a[1..]| && i < |b[1..]| && a[1..][..i] == b[1..][..i] && a[1..][i] < b[1..][i] {
        assert a[..i + 1] == [a[0]] + a[1..][..i] && b[..i + 1] == [b[0]] + b[1..][..i];
        assert a[i + 1] < b[i + 1];
      }
      if i :| 0 <= i < |a| && i < |b| && a[..i] == b[..i] && a[i] < b[i] {
        assert i > 0;
        assert a[1..][..i - 1] == a[..i][1..] && b[1..][..i - 1] == b[..i][1..];
        assert a[1..][i - 1] < b[1..][i - 1];
      }
    }
  }

  lemma {:induction false} AtMostTotal(a: NodeId, b: NodeId)
    ensures AtMost(a, b) || AtMost(b, a)
    ensures AtMost(a, b) && AtMost(b, a) ==> a == b
  {
    if a != "" && b != "" && a[0] == b[0] {
      AtMostTotal(a[1..], b[1..]);
      assert a == [a[0]] + a[1..] && b == [b[0]] + b[1..];
    }
  }

  lemma {:induction false} AtMostTransitive(a: NodeId, b: NodeId, c: NodeId)
    requires AtMost(a, b) && AtMost(b, c)
    ensures AtMost(a, c)
  {
    if a != "" && a[0] == b[0] == c[0] {
      AtMostTransitive(a[1..], b[1..], c[1..]);
    }
  }

  ghost predicate IsLeast(m: NodeId, ids: set<NodeId>) {
    m in ids && forall x :: x in ids ==> AtMost(m, x)
  }

  lemma {:induction false} LeastExists(ids: set<NodeId>) returns (m: NodeId)
    requires ids != {}
    ensures IsLeast(m, ids)
  {
    var x :| x in ids;
    AtMostTotal(x, x);
    if ids == {x} {
      m := x;
    } else {
      var rest := LeastExists(ids - {x});
      AtMostTotal(x, rest);
      m := if AtMost(x, rest) then x else rest;
      forall y | y in ids ensures AtMost(m, y) {
        if y != x && m == x { AtMostTransitive(x, rest, y); }
      }
    }
  }

  ghost predicate Sorted(s: seq<NodeId>) {
    forall i, j :: 0 <= i < j < |s| ==> AtMost(s[i], s[j]) && s[i] != s[j]
  }

  /** Selection of the least id, over and over. */
  method SortIds(ids: set<NodeId>) returns (order: seq<NodeId>)
    ensures Sorted(order) && forall id :: id in order <==> id in ids
  {
    order := [];
    var left := ids;
    while left != {}
      invariant left <= ids && Sorted(order)
      invariant forall id :: id in order <==> id in ids && id !in left
      invariant forall i, x :: 0 <= i < |order| && x in left ==> AtMost(order[i], x)
    {
      var least := Least(left);
      assert least !in order;
      order := order + [least];
      left := left - {least};
    }
  }

  method Least(ids: set<NodeId>) returns (m: NodeId)
    requires ids != {}
    ensures IsLeast(m, ids)
  {
    var left := ids;
    m :| m in left;
    AtMostTotal(m, m);
    left := left - {m};
    while left != {}
      invariant left <= ids && m in ids && m !in left
      invariant forall x :: x in ids && x !in left ==> AtMost(m, x)
    {
      var x :| x in left;
      left := left - {x};
      AtMostTotal(m, x);
      AtMostTotal(x, x);
      if !AtMost(m, x) {
        forall y | y in ids && y !in left && y != x ensures AtMost(x, y) {
          AtMostTransitive(x, m, y);
        }
        m := x;
      }
    }
  }
}
