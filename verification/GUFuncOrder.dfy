/** When the schedule of a generalized ufunc depends on the order of its arguments. */
module GUFuncOrder {
  import opened MixedRadix
  import opened Shapes
  import opened GUFuncSchedule
  import opened GUFuncLaunch

  /** The looping dimension, if the outer shapes agree on one. */
  function LoopOf(outers: seq<Shape>): (r: seq<Shape>)
    requires outers != []
  {
    if OutersAgree(outers) then [LoopDims(outers)] else []
  }

  predicate AllOfSizeOne(outers: seq<Shape>) {
    forall i :: 0 <= i < |outers| ==> Prod(outers[i]) == 1
  }

  predicate OddOneOut(outer: Shape) {
    outer != [] && outer != [1]
  }

  /** All shapes have size one, they are not all the same, and at most one differs from both () and (1,). */
  predicate Tied(outers: seq<Shape>) {
    && AllOfSizeOne(outers)
    && (exists i, k :: 0 <= i < k < |outers| && outers[i] != outers[k])
    && forall i, k :: 0 <= i < |outers| && 0 <= k < |outers| && OddOneOut(outers[i]) && OddOneOut(outers[k]) ==>
      outers[i] == outers[k]
  }

  ghost predicate OrderMatters(outers: seq<Shape>)
    requires outers != []
  {
    exists other: seq<Shape> :: other != [] && multiset(other) == multiset(outers) && LoopOf(other) != LoopOf(outers)
  }

  lemma SameMembers(a: seq<Shape>, b: seq<Shape>)
    requires multiset(a) == multiset(b)
    ensures forall s :: s in a <==> s in b
  {
    forall s ensures s in a <==> s in b {
      assert s in a <==> s in multiset(a);
      assert s in b <==> s in multiset(b);
    }
  }

  /** Agreement in terms of members, whatever their order. */
  lemma AgreeByMembers(outers: seq<Shape>)
    requires outers != []
    ensures OutersAgree(outers) <==> forall s :: s in outers ==> MayStandBeside(s, LoopDims(outers))
    ensures LoopDims(outers) in outers
    ensures forall s :: s in outers ==> Prod(s) <= Prod(LoopDims(outers))
  {
    var loopdims := LoopDims(outers);
    forall s | s in outers ensures Prod(s) <= Prod(loopdims) {
      var i :| 0 <= i < |outers| && outers[i] == s;
    }
    if forall s :: s in outers ==> MayStandBeside(s, loopdims) {
      assert forall i :: 0 <= i < |outers| ==> outers[i] in outers;
    }
  }

  /** If one order of the members agrees on `x` while another starts from `y`, they are tied. */
  lemma DisagreementIsTie(a: seq<Shape>, x: Shape, y: Shape)
    requires x in a && y in a && x != y && Prod(x) == Prod(y)
    requires forall s :: s in a ==> MayStandBeside(s, x)
    ensures Tied(a)
  {
    OneAxis(0, 1);
    EmptyShape();
    var i :| 0 <= i < |a| && a[i] == x;
    var k :| 0 <= k < |a| && a[k] == y;
    assert MayStandBeside(y, x);
    if i < k {
      assert a[i] != a[k];
    } else {
      assert a[k] != a[i];
    }
    assert forall j :: 0 <= j < |a| ==> a[j] in a;
  }

  lemma TiedByMembers(a: seq<Shape>, b: seq<Shape>)
    requires multiset(a) == multiset(b) && Tied(a)
    ensures Tied(b)
  {
    SameMembers(a, b);
    assert forall j :: 0 <= j < |b| ==> b[j] in a;
    assert forall s :: s in a ==> Prod(s) == 1;
    forall j | 0 <= j < |b| ensures Prod(b[j]) == 1 {
    }
    assert forall s, t :: s in a && t in a && OddOneOut(s) && OddOneOut(t) ==> s == t;
    var i, k :| 0 <= i < k < |a| && a[i] != a[k];
    assert a[i] in b && a[k] in b;
    var p :| 0 <= p < |b| && b[p] == a[i];
    var q :| 0 <= q < |b| && b[q] == a[k];
    if p < q {
      assert b[p] != b[q];
    } else {
      assert b[q] != b[p];
    }
  }

  lemma OnlyTiesMatter(outers: seq<Shape>, other: seq<Shape>)
    requires outers != [] && other != [] && multiset(other) == multiset(outers) && LoopOf(other) != LoopOf(outers)
    ensures Tied(outers)
  {
    SameMembers(other, outers);
    AgreeByMembers(outers);
    AgreeByMembers(other);
    var x, y := LoopDims(outers), LoopDims(other);
    if OutersAgree(outers) {
      DisagreementIsTie(outers, x, y);
    } else {
      DisagreementIsTie(other, y, x);
      TiedByMembers(other, outers);
    }
  }

  function ToFront(outers: seq<Shape>, p: nat): (r: seq<Shape>)
    requires p < |outers|
    ensures r != [] && r[0] == outers[p]
  {
    [outers[p]] + outers[..p] + outers[p + 1..]
  }

  lemma FrontLeads(outers: seq<Shape>, p: nat)
    requires p < |outers| && AllOfSizeOne(outers)
    ensures multiset(ToFront(outers, p)) == multiset(outers)
    ensures LoopDims(ToFront(outers, p)) == outers[p]
  {
    var r := ToFront(outers, p);
    assert outers == outers[..p] + [outers[p]] + outers[p + 1..];
    SameMembers(r, outers);
    assert forall s :: s in outers ==> Prod(s) == 1;
    forall i | 0 <= i < |r| ensures Prod(r[i]) == 1 {
      assert r[i] in r;
    }
    assert Prod(r[0]) == 1 && Prod(r[ArgMax(r)]) == 1;
  }

  lemma TwoLeadersMatter(outers: seq<Shape>, p: nat, q: nat)
    requires p < |outers| && q < |outers| && AllOfSizeOne(outers)
    requires LoopOf(ToFront(outers, p)) != LoopOf(ToFront(outers, q))
    ensures OrderMatters(outers)
  {
    FrontLeads(outers, p);
    FrontLeads(outers, q);
  }

  /** The order of the arguments matters, to the loop or to whether scheduling succeeds, exactly for ties. */
  lemma OrderMattersExactly(outers: seq<Shape>)
    requires outers != []
    ensures OrderMatters(outers) <==> Tied(outers)
  {
    if OrderMatters(outers) {
      var other :| other != [] && multiset(other) == multiset(outers) && LoopOf(other) != LoopOf(outers);
      OnlyTiesMatter(outers, other);
    }
    if Tied(outers) {
      TiesMatter(outers);
    }
  }

  lemma TiesMatter(outers: seq<Shape>)
    requires outers != [] && Tied(outers)
    ensures OrderMatters(outers)
  {
    var i, k :| 0 <= i < k < |outers| && outers[i] != outers[k];
    FrontLeads(outers, i);
    FrontLeads(outers, k);
    hide OrderMatters, ToFront;
    if OutersAgree(ToFront(outers, i)) {
      TwoLeadersMatter(outers, i, k);
    } else {
      var p := OddLeader(outers, i);
      TwoLeadersMatter(outers, p, i);
    }
  }

  /** Where one leader fails, the odd shape out would have led. */
  lemma OddLeader(outers: seq<Shape>, i: nat) returns (p: nat)
    requires outers != [] && Tied(outers) && i < |outers| && !OutersAgree(ToFront(outers, i))
    ensures p < |outers| && OutersAgree(ToFront(outers, p))
  {
    FrontLeads(outers, i);
    SameMembers(ToFront(outers, i), outers);
    AgreeByMembers(ToFront(outers, i));
    var z :| z in outers && !MayStandBeside(z, outers[i]);
    p :| 0 <= p < |outers| && outers[p] == z;
    FrontLeads(outers, p);
    SameMembers(ToFront(outers, p), outers);
    AgreeByMembers(ToFront(outers, p));
    hide ToFront, OutersAgree;
    forall s | s in outers ensures MayStandBeside(s, z) {
      var k :| 0 <= k < |outers| && outers[k] == s;
      if OddOneOut(s) {
        assert outers[k] == outers[p];
      }
    }
  }

  /** For instance () and (1,): whichever comes first becomes the looping dimension. */
  lemma UnitAndEmptyAreTied()
    ensures Tied([[], [1]]) && LoopDims([[], [1]]) == [] && LoopDims([[1], []]) == [1]
  {
    EmptyShape();
    OneAxis(0, 1);
    var a, b: seq<Shape> := [[], [1]], [[1], []];
    assert a[0] != a[1];
    assert AllOfSizeOne(a) && AllOfSizeOne(b);
    var i, j := ArgMax(a), ArgMax(b);
    assert i == 0 && j == 0;
  }
}
