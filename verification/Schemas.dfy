/** The request schema of `create`: what the service may assume of its caller. */
module Schemas {

  datatype Line = Line(productId: int, qty: int)

  function ProductIds(lines: seq<Line>): (pids: set<int>)
    ensures forall l | l in lines :: l.productId in pids
  {
    set l | l in lines :: l.productId
  }

  /** The validator as the code runs it: as many different product ids as lines. */
  predicate NoDuplicateProducts(lines: seq<Line>) {
    |lines| == |ProductIds(lines)|
  }

  ghost predicate DistinctProducts(lines: seq<Line>) {
    forall i, j | 0 <= i < j < |lines| :: lines[i].productId != lines[j].productId
  }

  predicate ValidRequest(lines: seq<Line>) {
    && 1 <= |lines| <= 50
    && (forall l | l in lines :: l.productId > 0 && 0 < l.qty <= 1000)
    && NoDuplicateProducts(lines)
  }

  lemma IdsOfSnoc(front: seq<Line>, l: Line)
    ensures ProductIds(front + [l]) == ProductIds(front) + {l.productId}
    ensures l.productId in ProductIds(front) <==>
            exists i | 0 <= i < |front| :: front[i].productId == l.productId
  {
    forall m | m in front + [l] ensures m in front || m == l {}
    assert l in front + [l];
    forall m | m in front ensures m in front + [l] {}
    if l.productId in ProductIds(front) {
      var m :| m in front && m.productId == l.productId;
      var i :| 0 <= i < |front| && front[i] == m;
    }
  }

  /** The set of ids is never larger than the list, and as large exactly when no two lines share a product. */
  lemma {:induction false} NoDuplicatesMeansDistinct(lines: seq<Line>)
    ensures |ProductIds(lines)| <= |lines|
    ensures NoDuplicateProducts(lines) <==> DistinctProducts(lines)
  {
    if lines == [] {
      assert ProductIds(lines) == {};
    } else {
      var last := |lines| - 1;
      var front, l := lines[..last], lines[last];
      NoDuplicatesMeansDistinct(front);
      IdsOfSnoc(front, l);
      assert lines == front + [l];
      assert |ProductIds(lines)| == |ProductIds(front)| + if l.productId in ProductIds(front) then 0 else 1 by {
        if l.productId in ProductIds(front) {
          assert ProductIds(front) + {l.productId} == ProductIds(front);
        }
      }
      assert forall i | 0 <= i < last :: front[i] == lines[i];
    }
  }

  /** What the schema accepts: 1 to 50 lines, real products, 1 to 1000 units of each, and no product twice. */
  lemma AcceptedRequests(lines: seq<Line>)
    ensures ValidRequest(lines) <==>
            && 1 <= |lines| <= 50
            && (forall i | 0 <= i < |lines| :: 1 <= lines[i].productId && 1 <= lines[i].qty <= 1000)
            && forall i, j | 0 <= i < j < |lines| :: lines[i].productId != lines[j].productId
  {
    NoDuplicatesMeansDistinct(lines);
    if forall i | 0 <= i < |lines| :: 1 <= lines[i].productId && 1 <= lines[i].qty <= 1000 {
      assert forall l | l in lines :: l.productId > 0 && 0 < l.qty <= 1000;
    } else {
      var i :| 0 <= i < |lines| && !(1 <= lines[i].productId && 1 <= lines[i].qty <= 1000);
      assert lines[i] in lines;
    }
  }
}
