/**
  deepMerge of src/lib/agent-config.ts: an agent's configuration laid over the base persona.
 */
module DeepMerge {
  import opened Wrappers

  /** A configuration value: a plain object, or anything else (scalars, null, arrays). */
  datatype Tree<V> = Leaf(value: V) | Node(fields: map<string, Tree<V>>)

  function Merge<V>(base: Tree<V>, over: Tree<V>): (r: Tree<V>)
    requires base.Node? && over.Node?
    ensures r.Node?
    decreases over
  {
    Node(map key | key in base.fields.Keys + over.fields.Keys ::
      if key !in over.fields then base.fields[key]
      else if key in base.fields && base.fields[key].Node? && over.fields[key].Node?
        then Merge(base.fields[key], over.fields[key])
      else over.fields[key])
  }

  /** deepMerge */
  method DeepMerge<V>(base: Tree<V>, over: Tree<V>) returns (r: Tree<V>)
    requires base.Node? && over.Node?
    ensures r == Merge(base, over)
    decreases over
  {
    var result := base.fields;
    var keys := over.fields.Keys;
    while keys != {}
      invariant keys <= over.fields.Keys
      invariant result.Keys == base.fields.Keys + (over.fields.Keys - keys)
      invariant forall key :: key in result ==>
        result[key] == if key in keys || key !in over.fields then base.fields[key] else Merge(base, over).fields[key]
    {
      var key :| key in keys;
      var overVal := over.fields[key];
      if overVal.Node? && key in base.fields && base.fields[key].Node? {
        var merged := DeepMerge(base.fields[key], overVal);
        result := result[key := merged];
      } else {
        result := result[key := overVal];
      }
      keys := keys - {key};
    }
    assert result == Merge(base, over).fields;
    r := Node(result);
  }

  // ---------------------------------------------------------------- what stands at a path

  datatype Kind<V> = IsNode | IsLeaf(value: V)

  function Get<V>(t: Tree<V>, path: seq<string>): Option<Kind<V>> {
    if path == [] then Some(if t.Node? then IsNode else IsLeaf(t.value))
    else if t.Node? && path[0] in t.fields then Get(t.fields[path[0]], path[1..])
    else None
  }

  /** The override has something at the path, or a non-object on the way to it. */
  predicate Shadows<V>(t: Tree<V>, path: seq<string>) {
    path == [] || t.Leaf? || (path[0] in t.fields && Shadows(t.fields[path[0]], path[1..]))
  }

  lemma {:induction false} UnshadowedIsAbsent<V>(t: Tree<V>, path: seq<string>)
    ensures !Shadows(t, path) ==> Get(t, path) == None
    decreases path
  {
    if path != [] && t.Node? && path[0] in t.fields {
      UnshadowedIsAbsent(t.fields[path[0]], path[1..]);
    }
  }

  /** The override decides every path it shadows, and the base every other path. */
  lemma {:induction false} OverrideWinsAtEveryPath<V>(base: Tree<V>, over: Tree<V>, path: seq<string>)
    requires base.Node? && over.Node?
    ensures Get(Merge(base, over), path) == if Shadows(over, path) then Get(over, path) else Get(base, path)
    decreases path
  {
    if path != [] {
      var key := path[0];
      if key in over.fields && key in base.fields && over.fields[key].Node? && base.fields[key].Node? {
        OverrideWinsAtEveryPath(base.fields[key], over.fields[key], path[1..]);
      } else if key in over.fields {
        UnshadowedIsAbsent(over.fields[key], path[1..]);
      }
    }
  }

  /** And that determines the result: trees that agree at every path are equal. */
  lemma {:induction false} PathsDetermineTree<V>(s: Tree<V>, t: Tree<V>)
    requires forall path :: Get(s, path) == Get(t, path)
    ensures s == t
    decreases s
  {
    assert Get(s, []) == Get(t, []);
    if s.Node? {
      forall key ensures key in s.fields <==> key in t.fields {
        assert Get(s, [key]) == Get(t, [key]);
        assert key in s.fields ==> Get(s.fields[key], []).Some?;
        assert key in t.fields ==> Get(t.fields[key], []).Some?;
      }
      forall key | key in s.fields ensures s.fields[key] == t.fields[key] {
        forall path ensures Get(s.fields[key], path) == Get(t.fields[key], path) {
          assert ([key] + path)[1..] == path;
          assert Get(s, [key] + path) == Get(t, [key] + path);
        }
        PathsDetermineTree(s.fields[key], t.fields[key]);
      }
      assert s.fields == t.fields;
    }
  }

  // ---------------------------------------------------------------- laws

  lemma EmptyObjectIsIdentity<V>(t: Tree<V>)
    requires t.Node?
    ensures Merge(Node(map[]), t) == t && Merge(t, Node(map[])) == t
  {
    assert Merge(Node(map[]), t).fields == t.fields;
    assert Merge(t, Node(map[])).fields == t.fields;
  }

  /** Everything in x is overridden by y. */
  predicate Covered<V>(x: Tree<V>, y: Tree<V>)
    requires x.Node? && y.Node?
    decreases x
  {
    forall key :: key in x.fields ==>
      key in y.fields && (x.fields[key].Node? && y.fields[key].Node? ==> Covered(x.fields[key], y.fields[key]))
  }

  lemma {:induction false} CoveredIsAbsorbed<V>(x: Tree<V>, y: Tree<V>)
    requires x.Node? && y.Node?
    ensures Merge(x, y) == y <==> Covered(x, y)
    decreases x
  {
    var m := Merge(x, y);
    forall key | key in x.fields && key in y.fields && x.fields[key].Node? && y.fields[key].Node?
      ensures m.fields[key] == y.fields[key] <==> Covered(x.fields[key], y.fields[key])
    {
      CoveredIsAbsorbed(x.fields[key], y.fields[key]);
    }
    if m == y {
      forall key | key in x.fields ensures key in y.fields {
        assert key in m.fields;
      }
    }
    if Covered(x, y) {
      assert m.fields == y.fields;
    }
  }

  lemma {:induction false} OverrideCoversItself<V>(a: Tree<V>, b: Tree<V>)
    requires a.Node? && b.Node?
    ensures Covered(b, b) && Covered(b, Merge(a, b))
    decreases b
  {
    var m := Merge(a, b);
    forall key | key in b.fields && b.fields[key].Node?
      ensures Covered(b.fields[key], b.fields[key])
      ensures m.fields[key].Node? && Covered(b.fields[key], m.fields[key])
    {
      if key in a.fields && a.fields[key].Node? {
        OverrideCoversItself(a.fields[key], b.fields[key]);
      } else {
        OverrideCoversItself(Node(map[]), b.fields[key]);
      }
    }
  }

  /** Laying the same override over the result again changes nothing. */
  lemma {:induction false} MergingTwiceIsMergingOnce<V>(a: Tree<V>, b: Tree<V>)
    requires a.Node? && b.Node?
    ensures Merge(Merge(a, b), b) == Merge(a, b)
    decreases b
  {
    var m := Merge(a, b);
    forall key | key in m.fields ensures Merge(m, b).fields[key] == m.fields[key] {
      if key in b.fields && b.fields[key].Node? {
        if key in a.fields && a.fields[key].Node? {
          MergingTwiceIsMergingOnce(a.fields[key], b.fields[key]);
        } else {
          OverrideCoversItself(a, b.fields[key]);
          CoveredIsAbsorbed(b.fields[key], b.fields[key]);
        }
      }
    }
    assert Merge(m, b).fields == m.fields;
  }

  /** Where the middle layer replaces an object by a non-object and the third layer brings an
      object back, that object has to cover what the first layer had there. */
  predicate LayersAssociate<V>(a: Tree<V>, b: Tree<V>, c: Tree<V>)
    requires a.Node? && b.Node? && c.Node?
    decreases b
  {
    forall key :: key in b.fields && key in a.fields && key in c.fields && a.fields[key].Node? && c.fields[key].Node? ==>
      if b.fields[key].Node? then LayersAssociate(a.fields[key], b.fields[key], c.fields[key])
      else Covered(a.fields[key], c.fields[key])
  }

  lemma {:induction false} OneKeyAssociates<V>(a: Tree<V>, b: Tree<V>, c: Tree<V>, key: string)
    requires a.Node? && b.Node? && c.Node? && key in a.fields.Keys + b.fields.Keys + c.fields.Keys
    ensures Merge(Merge(a, b), c).fields[key] == Merge(a, Merge(b, c)).fields[key] <==>
      (key in a.fields && key in b.fields && key in c.fields && a.fields[key].Node? && c.fields[key].Node? ==>
        if b.fields[key].Node? then LayersAssociate(a.fields[key], b.fields[key], c.fields[key])
        else Covered(a.fields[key], c.fields[key]))
    decreases b, 0
  {
    if key in a.fields && key in b.fields && key in c.fields && a.fields[key].Node? && c.fields[key].Node? {
      if b.fields[key].Node? {
        AssociativeExactly(a.fields[key], b.fields[key], c.fields[key]);
      } else {
        CoveredIsAbsorbed(a.fields[key], c.fields[key]);
      }
    }
  }

  /** deepMerge is associative exactly when the layers allow it. */
  lemma {:induction false} AssociativeExactly<V>(a: Tree<V>, b: Tree<V>, c: Tree<V>)
    requires a.Node? && b.Node? && c.Node?
    ensures Merge(Merge(a, b), c) == Merge(a, Merge(b, c)) <==> LayersAssociate(a, b, c)
    decreases b, 1
  {
    var l, r := Merge(Merge(a, b), c), Merge(a, Merge(b, c));
    assert l.fields.Keys == r.fields.Keys;
    forall key | key in l.fields
      ensures l.fields[key] == r.fields[key] <==>
        (key in a.fields && key in b.fields && key in c.fields && a.fields[key].Node? && c.fields[key].Node? ==>
          if b.fields[key].Node? then LayersAssociate(a.fields[key], b.fields[key], c.fields[key])
          else Covered(a.fields[key], c.fields[key]))
    {
      OneKeyAssociates(a, b, c, key);
    }
    if LayersAssociate(a, b, c) { assert l.fields == r.fields; }
  }

  /** In particular when the middle layer never puts a non-object between two objects. */
  predicate NoGap<V>(a: Tree<V>, b: Tree<V>, c: Tree<V>)
    requires a.Node? && b.Node? && c.Node?
    decreases b
  {
    forall key :: key in b.fields && key in a.fields && key in c.fields && a.fields[key].Node? && c.fields[key].Node? ==>
      b.fields[key].Node? && NoGap(a.fields[key], b.fields[key], c.fields[key])
  }

  lemma {:induction false} NoGapLayersAssociate<V>(a: Tree<V>, b: Tree<V>, c: Tree<V>)
    requires a.Node? && b.Node? && c.Node? && NoGap(a, b, c)
    ensures LayersAssociate(a, b, c)
    decreases b
  {
    forall key | key in b.fields && key in a.fields && key in c.fields && a.fields[key].Node? && c.fields[key].Node?
      ensures b.fields[key].Node? && LayersAssociate(a.fields[key], b.fields[key], c.fields[key])
    {
      NoGapLayersAssociate(a.fields[key], b.fields[key], c.fields[key]);
    }
  }

  lemma NoGapAssociates<V>(a: Tree<V>, b: Tree<V>, c: Tree<V>)
    requires a.Node? && b.Node? && c.Node? && NoGap(a, b, c)
    ensures Merge(Merge(a, b), c) == Merge(a, Merge(b, c))
  {
    NoGapLayersAssociate(a, b, c);
    AssociativeExactly(a, b, c);
  }

  /** Three layers that do not associate: {k: {x: 1}}, {k: 2} and {k: {y: 3}}. Merged from the left,
      x is gone; merged from the right, it is still there. */
  lemma NonObjectBetweenObjects()
    ensures var a, b, c := Node(map["k" := Node(map["x" := Leaf(1)])]), Node(map["k" := Leaf(2)]), Node(map["k" := Node(map["y" := Leaf(3)])]);
      && Merge(Merge(a, b), c) == c
      && Merge(a, Merge(b, c)) == Node(map["k" := Node(map["x" := Leaf(1), "y" := Leaf(3)])])
      && Merge(Merge(a, b), c) != Merge(a, Merge(b, c))
  {
    var x, y := Node(map["x" := Leaf(1)]), Node(map["y" := Leaf(3)]);
    var a, b, c := Node(map["k" := x]), Node(map["k" := Leaf(2)]), Node(map["k" := y]);
    var xy := Node(map["x" := Leaf(1), "y" := Leaf(3)]);
    assert Merge(x, y).fields == xy.fields;
    assert Merge(a, b).fields == b.fields;
    assert Merge(b, c).fields == c.fields;
    assert Merge(a, c).fields == map["k" := xy];
    assert "x" in xy.fields && "x" !in y.fields;
    assert Node(map["k" := xy]).fields["k"] != c.fields["k"];
  }
}
