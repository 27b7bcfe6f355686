/** Which objects a value describes, and when it describes none of them twice. */
module Descriptions {
  import opened Schemas
  import opened Upsert
  import opened Evolution
  import opened Keeps

  /** No object description contains another of the same identity. */
  ghost predicate SelfApart(c: Config, N: set<Node>) {
    forall n, m :: n in N && m in ChildNodes(c, n.t, n.v) && NodeId(c, n).Some? ==> NodeId(c, m) != NodeId(c, n)
  }

  lemma SelfApartLess(c: Config, M: set<Node>, N: set<Node>)
    requires M <= N
    ensures SelfApart(c, N) ==> SelfApart(c, M)
  {}

  /** The identities that descriptions name. */
  ghost function Ids(c: Config, N: set<Node>): set<Id> {
    set n | n in N && NodeId(c, n).Some? :: NodeId(c, n).value
  }

  lemma IdsLess(c: Config, M: set<Node>, N: set<Node>)
    requires M <= N
    ensures Ids(c, M) <= Ids(c, N)
  {}

  /** What property `i` is given, if anything. */
  function Supplied(v: Value, i: nat): Value {
    if FieldOf(v, i).Ok? && FieldOf(v, i).value.Given? then FieldOf(v, i).value.v else Null
  }

  /** The descriptions from property `i` on. */
  ghost function NodesFrom(c: Config, t: nat, v: Value, i: nat): set<Node> {
    set j: nat, n: Node | i <= j < |Props(c, t)| && n in PropNodes(c, Prop(c, t, j), Supplied(v, j)) :: n
  }

  /** The descriptions from element `k` on. */
  ghost function ElemsFrom(c: Config, prop: Property, vs: seq<Value>, k: nat): set<Node> {
    set j: nat, n: Node | k <= j < |vs| && n in ItemNodes(c, prop, vs[j]) :: n
  }

  lemma NodesBelow(c: Config, t: nat, v: Value)
    ensures NodesFrom(c, t, v, 0) == ChildNodes(c, t, v) <= Nodes(c, t, v)
  {
    forall n | n in NodesFrom(c, t, v, 0) ensures n in ChildNodes(c, t, v) {
      var j: nat :| j < |Props(c, t)| && n in PropNodes(c, Prop(c, t, j), Supplied(v, j));
      assert FieldOf(v, j).Ok? && FieldOf(v, j).value.Given?;
    }
    forall n | n in ChildNodes(c, t, v) ensures n in NodesFrom(c, t, v, 0) {
      var j: nat :| j < |Props(c, t)| && FieldOf(v, j).Ok? && FieldOf(v, j).value.Given? &&
                    n in PropNodes(c, Prop(c, t, j), FieldOf(v, j).value.v);
      assert Supplied(v, j) == FieldOf(v, j).value.v;
    }
  }

  lemma NodesStep(c: Config, t: nat, v: Value, i: nat)
    requires i < |Props(c, t)|
    ensures NodesFrom(c, t, v, i) == PropNodes(c, Prop(c, t, i), Supplied(v, i)) + NodesFrom(c, t, v, i + 1)
  {}

  lemma ElemsAre(c: Config, prop: Property, x: Value)
    requires prop.isArray && x.Vals?
    ensures ElemsFrom(c, prop, x.elems, 0) == PropNodes(c, prop, x)
  {
    forall n | n in PropNodes(c, prop, x) ensures n in ElemsFrom(c, prop, x.elems, 0) {
      var k: nat :| k < |x.elems| && n in Nodes(c, prop.target, x.elems[k]);
      assert n in ItemNodes(c, prop, x.elems[k]);
    }
    forall n | n in ElemsFrom(c, prop, x.elems, 0) ensures n in PropNodes(c, prop, x) {
      var k: nat :| k < |x.elems| && n in ItemNodes(c, prop, x.elems[k]);
      ElementNodes(c, prop, x, k);
    }
  }

  lemma ElemsStep(c: Config, prop: Property, vs: seq<Value>, k: nat)
    requires k < |vs|
    ensures ElemsFrom(c, prop, vs, k) == ItemNodes(c, prop, vs[k]) + ElemsFrom(c, prop, vs, k + 1)
  {}

  // ---- No object is described twice -----------------------------------------------------------------

  ghost predicate Distinct(c: Config, t: nat, v: Value)
    decreases Height(v), 2, 0
  {
    v.Obj? ==> DistinctFrom(c, t, v, 0) && Ids(c, {Node(t, v)}) !! Ids(c, NodesFrom(c, t, v, 0))
  }

  ghost predicate DistinctFrom(c: Config, t: nat, v: Value, i: nat)
    requires v.Obj?
    decreases Height(v), 1, |Props(c, t)| - i
  {
    i < |Props(c, t)| ==>
      && DistinctIn(c, Prop(c, t, i), Supplied(v, i))
      && Ids(c, PropNodes(c, Prop(c, t, i), Supplied(v, i))) !! Ids(c, NodesFrom(c, t, v, i + 1))
      && DistinctFrom(c, t, v, i + 1)
  }

  ghost predicate DistinctIn(c: Config, prop: Property, x: Value)
    decreases Height(x), 5, 0
  {
    if prop.isArray && x.Vals? then DistinctAlong(c, prop, x.elems, 0)
    else prop.base.Object? ==> Distinct(c, prop.target, x)
  }

  ghost predicate DistinctAlong(c: Config, prop: Property, vs: seq<Value>, k: nat)
    decreases ValuesHeight(vs), 4, |vs| - k
  {
    k < |vs| ==>
      && (prop.base.Object? ==> Distinct(c, prop.target, vs[k]))
      && Ids(c, ItemNodes(c, prop, vs[k])) !! Ids(c, ElemsFrom(c, prop, vs, k + 1))
      && DistinctAlong(c, prop, vs, k + 1)
  }

  /** Then no object is described below itself. */
  lemma DistinctIsApart(c: Config, t: nat, v: Value)
    requires Distinct(c, t, v)
    ensures SelfApart(c, Nodes(c, t, v))
    decreases Height(v), 2, 0
  {
    if v.Obj? {
      NodesBelow(c, t, v);
      DistinctFromIsApart(c, t, v, 0);
      assert NodeId(c, Node(t, v)).Some? ==> NodeId(c, Node(t, v)).value in Ids(c, {Node(t, v)});
      forall m | m in ChildNodes(c, t, v) && NodeId(c, m).Some? ensures NodeId(c, m) != NodeId(c, Node(t, v)) {
        assert NodeId(c, m).value in Ids(c, NodesFrom(c, t, v, 0));
      }
    }
  }

  lemma DistinctFromIsApart(c: Config, t: nat, v: Value, i: nat)
    requires v.Obj? && DistinctFrom(c, t, v, i)
    ensures SelfApart(c, NodesFrom(c, t, v, i))
    decreases Height(v), 1, |Props(c, t)| - i
  {
    if i < |Props(c, t)| {
      NodesStep(c, t, v, i);
      DistinctInIsApart(c, Prop(c, t, i), Supplied(v, i));
      DistinctFromIsApart(c, t, v, i + 1);
    }
  }

  lemma DistinctInIsApart(c: Config, prop: Property, x: Value)
    requires DistinctIn(c, prop, x)
    ensures SelfApart(c, PropNodes(c, prop, x))
    decreases Height(x), 5, 0
  {
    if prop.isArray && x.Vals? {
      ElemsAre(c, prop, x);
      DistinctAlongIsApart(c, prop, x.elems, 0);
    } else if prop.base.Object? {
      DistinctIsApart(c, prop.target, x);
    }
  }

  lemma DistinctAlongIsApart(c: Config, prop: Property, vs: seq<Value>, k: nat)
    requires DistinctAlong(c, prop, vs, k)
    ensures SelfApart(c, ElemsFrom(c, prop, vs, k))
    decreases ValuesHeight(vs), 4, |vs| - k
  {
    if k < |vs| {
      ElemsStep(c, prop, vs, k);
      if prop.base.Object? { DistinctIsApart(c, prop.target, vs[k]); }
      DistinctAlongIsApart(c, prop, vs, k + 1);
    }
  }
}
