/** The scene graph (entities/node.cpp, entities/node.h).  Nodes live in an
    arena keyed by node id: a node's children are strong references (ids
    that are always present), its parent a weak one (an id that may be
    gone).  Components are keyed by their dynamic type, written `kind`. */
module SceneGraph {
  import opened Common

  type NodeId = nat

  /** A component: its dynamic type and the number it got when it was made. */
  datatype Component = Component(kind: string, id: nat)

  const TransformKind: string := "Transform"

  datatype NodeRec = NodeRec(name: string, visible: bool, transform: Component,
                             components: map<string, Component>, children: seq<NodeId>, parent: Option<NodeId>)

  type Nodes = map<NodeId, NodeRec>

  predicate NoDup(s: seq<NodeId>)
  {
    forall i, j :: 0 <= i < j < |s| ==> s[i] != s[j]
  }

  /** `std::erase`: every occurrence of `x` removed, the rest kept in order. */
  function Erase(s: seq<NodeId>, x: NodeId): (r: seq<NodeId>)
    ensures forall y :: y in r <==> y in s && y != x
    ensures NoDup(s) ==> NoDup(r)
    ensures x !in s ==> r == s
    ensures |r| <= |s|
  {
    if s == [] then []
    else
      var rest := Erase(s[1..], x);
      assert NoDup(s) ==> s[0] !in s[1..];
      if s[0] == x then rest else [s[0]] + rest
  }

  /** `parent()`: the weak reference locked, so nothing when no parent was
      set or the parent is gone. */
  function Parent(nodes: Nodes, id: NodeId): (r: Option<NodeId>)
    requires id in nodes
    ensures r.Some? <==> nodes[id].parent.Some? && nodes[id].parent.value in nodes
    ensures r.Some? ==> r == nodes[id].parent
  {
    match nodes[id].parent
    case Some(p) => if p in nodes then Some(p) else None
    case None => None
  }

  /** Each component is registered under its own dynamic type. */
  predicate KindsMatch(components: map<string, Component>)
  {
    forall k :: k in components ==> components[k].kind == k
  }

  /** Every child of `p` is present and has `p` as its parent, once. */
  predicate ChildLinked(nodes: Nodes, p: NodeId)
    requires p in nodes
  {
    && NoDup(nodes[p].children)
    && forall i :: 0 <= i < |nodes[p].children| ==>
         nodes[p].children[i] in nodes && nodes[nodes[p].children[i]].parent == Some(p)
  }

  /** A node whose parent is present is among that parent's children. */
  predicate ParentLinked(nodes: Nodes, c: NodeId)
    requires c in nodes
  {
    nodes[c].parent.Some? && nodes[c].parent.value in nodes ==> c in nodes[nodes[c].parent.value].children
  }

  predicate Linked(nodes: Nodes)
  {
    forall n :: n in nodes ==> ChildLinked(nodes, n) && ParentLinked(nodes, n) && KindsMatch(nodes[n].components)
  }

  /** A new node: visible, no parent, no children, and a transform that is
      also its only component. */
  function NewNode(name: string, transform: Component): NodeRec
  {
    NodeRec(name, true, transform, map[TransformKind := transform], [], None)
  }

  // ---------------------------------------------------------------------
  // setParent

  /** `setParent`: the node leaves the children of its old parent (when that
      is still there), takes the new parent, and is appended to the new
      parent's children. */
  function Reparented(nodes: Nodes, id: NodeId, p: NodeId): Nodes
    requires id in nodes && p in nodes
  {
    var n1 := match Parent(nodes, id)
              case Some(op) => nodes[op := nodes[op].(children := Erase(nodes[op].children, id))]
              case None => nodes;
    var n2 := n1[id := n1[id].(parent := Some(p))];
    n2[p := n2[p].(children := n2[p].children + [id])]
  }

  /** A child's parent is its owner, so a node is a child of no other node. */
  lemma ChildOnlyOfParent(nodes: Nodes, id: NodeId, n: NodeId)
    requires Linked(nodes) && id in nodes && n in nodes && id in nodes[n].children
    ensures Parent(nodes, id) == Some(n)
  {
    assert ChildLinked(nodes, n);
    var i :| 0 <= i < |nodes[n].children| && nodes[n].children[i] == id;
  }

  /** What `setParent` does: the node's parent is the new one; the new
      parent's children lose the node wherever it was and gain it once at
      the end; an old parent that is a different node loses it; every
      other node is unchanged. */
  lemma {:induction false} ReparentedEffect(nodes: Nodes, id: NodeId, p: NodeId)
    requires Linked(nodes) && id in nodes && p in nodes
    ensures var r := Reparented(nodes, id, p);
            && r.Keys == nodes.Keys
            && r[id].parent == Some(p) && Parent(r, id) == Some(p)
            && r[p].children == Erase(nodes[p].children, id) + [id]
            && (Parent(nodes, id).Some? && Parent(nodes, id) != Some(p) ==>
                  r[Parent(nodes, id).value].children == Erase(nodes[Parent(nodes, id).value].children, id)
                  && id !in r[Parent(nodes, id).value].children)
            && (forall n :: n in nodes && n != id && n != p && Some(n) != Parent(nodes, id) ==> r[n] == nodes[n])
  {
    if id in nodes[p].children {
      ChildOnlyOfParent(nodes, id, p);
    }
  }

  /** Reparenting to the current parent moves the node to the end of the
      children. */
  lemma SameParentMovesToEnd(nodes: Nodes, id: NodeId, p: NodeId)
    requires Linked(nodes) && id in nodes && p in nodes && Parent(nodes, id) == Some(p)
    ensures var r := Reparented(nodes, id, p);
            |r[p].children| == |nodes[p].children| && r[p].children[|r[p].children| - 1] == id
  {
    ReparentedEffect(nodes, id, p);
    assert ParentLinked(nodes, id);
    EraseOne(nodes[p].children, id);
  }

  /** Erasing an element that occurs once shortens the sequence by one. */
  lemma {:induction false} EraseOne(s: seq<NodeId>, x: NodeId)
    requires NoDup(s) && x in s
    ensures |Erase(s, x)| == |s| - 1
  {
    if s[0] == x {
      assert x !in s[1..];
    } else {
      assert x in s[1..];
      EraseOne(s[1..], x);
    }
  }

  /** The fields `setParent` touches, node by node. */
  lemma ReparentedAt(nodes: Nodes, id: NodeId, p: NodeId, n: NodeId)
    requires Linked(nodes) && id in nodes && p in nodes
    ensures var r := Reparented(nodes, id, p);
            && (n in r <==> n in nodes)
            && (n in r ==>
                && r[n].components == nodes[n].components
                && r[n].parent == (if n == id then Some(p) else nodes[n].parent)
                && r[n].children == (if n == p then Erase(nodes[n].children, id) + [id]
                                     else if Some(n) == Parent(nodes, id) then Erase(nodes[n].children, id)
                                     else nodes[n].children))
  {
    var op := Parent(nodes, id);
    var n1 := match op
              case Some(o) => nodes[o := nodes[o].(children := Erase(nodes[o].children, id))]
              case None => nodes;
    var n2 := n1[id := n1[id].(parent := Some(p))];
    assert Reparented(nodes, id, p) == n2[p := n2[p].(children := n2[p].children + [id])];
    if n == p && op != Some(p) {
      if id in nodes[p].children {
        ChildOnlyOfParent(nodes, id, p);
      }
      assert Erase(nodes[n].children, id) == nodes[n].children;
    }
  }

  /** The children kept from before still have their parent. */
  lemma KeptChildrenLinked(nodes: Nodes, r: Nodes, id: NodeId, n: NodeId)
    requires Linked(nodes) && n in nodes && r.Keys == nodes.Keys
    requires forall c :: c in r && c != id ==> r[c].parent == nodes[c].parent
    ensures var kept := Erase(nodes[n].children, id);
            NoDup(kept) && forall i :: 0 <= i < |kept| ==> kept[i] in r && r[kept[i]].parent == Some(n)
  {
    assert ChildLinked(nodes, n);
    var kept := Erase(nodes[n].children, id);
    forall i | 0 <= i < |kept|
      ensures kept[i] in r && r[kept[i]].parent == Some(n)
    {
      assert kept[i] in kept;
      var j :| 0 <= j < |nodes[n].children| && nodes[n].children[j] == kept[i];
    }
  }

  lemma ReparentedChildLinked(nodes: Nodes, r: Nodes, id: NodeId, p: NodeId, n: NodeId)
    requires Linked(nodes) && id in nodes && p in nodes && n in nodes && r.Keys == nodes.Keys
    requires forall c :: c in r ==> r[c].parent == if c == id then Some(p) else nodes[c].parent
    requires r[n].children == (if n == p then Erase(nodes[n].children, id) + [id]
                               else if Some(n) == Parent(nodes, id) then Erase(nodes[n].children, id)
                               else nodes[n].children)
    ensures ChildLinked(r, n)
  {
    KeptChildrenLinked(nodes, r, id, n);
    if n != p && Some(n) != Parent(nodes, id) {
      if id in nodes[n].children {
        ChildOnlyOfParent(nodes, id, n);
      }
      assert Erase(nodes[n].children, id) == nodes[n].children;
    }
  }

  lemma ReparentedParentLinked(nodes: Nodes, r: Nodes, id: NodeId, p: NodeId, c: NodeId)
    requires Linked(nodes) && id in nodes && p in nodes && c in nodes && r.Keys == nodes.Keys
    requires forall n :: n in r ==> r[n].parent == if n == id then Some(p) else nodes[n].parent
    requires forall n :: n in r ==>
               r[n].children == (if n == p then Erase(nodes[n].children, id) + [id]
                                 else if Some(n) == Parent(nodes, id) then Erase(nodes[n].children, id)
                                 else nodes[n].children)
    ensures ParentLinked(r, c)
  {
    if c != id {
      assert ParentLinked(nodes, c);
    }
  }

  /** `setParent` keeps the links between parents and children consistent. */
  lemma ReparentedLinked(nodes: Nodes, id: NodeId, p: NodeId)
    requires Linked(nodes) && id in nodes && p in nodes
    ensures Linked(Reparented(nodes, id, p))
  {
    var r := Reparented(nodes, id, p);
    forall n | n in nodes
      ensures && n in r
              && r[n].components == nodes[n].components
              && r[n].parent == (if n == id then Some(p) else nodes[n].parent)
              && r[n].children == (if n == p then Erase(nodes[n].children, id) + [id]
                                   else if Some(n) == Parent(nodes, id) then Erase(nodes[n].children, id)
                                   else nodes[n].children)
    {
      ReparentedAt(nodes, id, p, n);
    }
    forall n | n in r
      ensures n in nodes
    {
      ReparentedAt(nodes, id, p, n);
    }
    assert r.Keys == nodes.Keys;
    forall n | n in r
      ensures ChildLinked(r, n) && ParentLinked(r, n) && KindsMatch(r[n].components)
    {
      ReparentedChildLinked(nodes, r, id, p, n);
      ReparentedParentLinked(nodes, r, id, p, n);
      assert KindsMatch(nodes[n].components);
    }
  }

  /** Giving a node that has no parent its first one only links the two. */
  lemma ReparentedFresh(nodes: Nodes, c: NodeId, p: NodeId)
    requires c in nodes && p in nodes && c != p && nodes[c].parent == None
    ensures Reparented(nodes, c, p) ==
            nodes[c := nodes[c].(parent := Some(p))][p := nodes[p].(children := nodes[p].children + [c])]
  {
  }

  // ---------------------------------------------------------------------
  // Lookups

  /** `getComponent<T>`: the component registered for exactly that type. */
  function GetComponent(nodes: Nodes, id: NodeId, kind: string): (r: Option<Component>)
    requires id in nodes && KindsMatch(nodes[id].components)
    ensures r.Some? <==> kind in nodes[id].components
    ensures r.Some? ==> r.value.kind == kind && r.value == nodes[id].components[kind]
  {
    if kind in nodes[id].components then Some(nodes[id].components[kind]) else None
  }

  /** `addComponent`: registered under its dynamic type, replacing any
      earlier component of that type. */
  function WithComponent(rec: NodeRec, c: Component): NodeRec
  {
    rec.(components := rec.components[c.kind := c])
  }

  /** A second component of the same type replaces the first. */
  lemma SecondComponentReplaces(rec: NodeRec, c1: Component, c2: Component)
    requires c1.kind == c2.kind
    ensures WithComponent(WithComponent(rec, c1), c2) == WithComponent(rec, c2)
    ensures c2 in WithComponent(WithComponent(rec, c1), c2).components.Values
  {
    assert WithComponent(rec, c2).components[c2.kind] == c2;
  }

  /** After `addComponent(c)`, looking up its type yields `c`, and the other
      types are untouched. */
  lemma AddThenGet(nodes: Nodes, id: NodeId, c: Component, kind: string)
    requires id in nodes && KindsMatch(nodes[id].components)
    ensures var r := nodes[id := WithComponent(nodes[id], c)];
            KindsMatch(r[id].components) &&
            GetComponent(r, id, kind) == if kind == c.kind then Some(c) else GetComponent(nodes, id, kind)
  {
  }

  /** What `getChild` returns as written: the first child, whatever its
      name (the name test has an empty body). */
  function FirstChild(children: seq<NodeId>): (r: Option<NodeId>)
    ensures r.None? <==> children == []
    ensures r.Some? ==> r.value == children[0]
  {
    if children == [] then None else Some(children[0])
  }

  /** The first child with the given name. */
  function ChildNamed(nodes: Nodes, children: seq<NodeId>, name: string): (r: Option<NodeId>)
    requires forall c :: c in children ==> c in nodes
    ensures r.Some? ==> r.value in children && nodes[r.value].name == name
    ensures r.None? <==> forall c :: c in children ==> nodes[c].name != name
    ensures r.Some? ==> exists i :: 0 <= i < |children| && children[i] == r.value &&
                          forall j :: 0 <= j < i ==> nodes[children[j]].name != name
  {
    if children == [] then None
    else if nodes[children[0]].name == name then Some(children[0])
    else
      var r := ChildNamed(nodes, children[1..], name);
      assert forall c :: c in children ==> c == children[0] || c in children[1..];
      if r.Some? then
        var i :| 0 <= i < |children[1..]| && children[1..][i] == r.value &&
                 forall j :: 0 <= j < i ==> nodes[children[1..][j]].name != name;
        assert children[i + 1] == r.value;
        r
      else r
  }

  /** As written, `getChild` returns a child of another name whenever the
      first child is not the one asked for, even when a later child is. */
  lemma GetChildIgnoresName(nodes: Nodes, children: seq<NodeId>, name: string)
    requires forall c :: c in children ==> c in nodes
    requires children != [] && nodes[children[0]].name != name
    ensures FirstChild(children) != ChildNamed(nodes, children, name)
    ensures FirstChild(children).Some? && nodes[FirstChild(children).value].name != name
  {
  }

  /** The components of kind `kind` met along a traversal, skipping the
      start node. */
  function Collected(nodes: Nodes, order: seq<NodeId>, self: NodeId, kind: string): (r: seq<Component>)
    requires forall n :: n in order ==> n in nodes && KindsMatch(nodes[n].components)
    ensures |r| <= |order|
    ensures forall c :: c in r ==>
              && c.kind == kind
              && exists n :: n in order && n != self && kind in nodes[n].components && nodes[n].components[kind] == c
  {
    if order == [] then []
    else
      var n := order[0];
      var rest := Collected(nodes, order[1..], self, kind);
      assert forall m :: m in order[1..] ==> m in order;
      if n != self && kind in nodes[n].components then
        assert KindsMatch(nodes[n].components) && n in order;
        [nodes[n].components[kind]] + rest
      else rest
  }

  /** The traversal's visit of the start node contributes nothing: the
      result is the same as for a traversal that skips it. */
  lemma {:induction false} CollectedExcludesSelf(nodes: Nodes, order: seq<NodeId>, self: NodeId, kind: string)
    requires forall n :: n in order ==> n in nodes && KindsMatch(nodes[n].components)
    ensures Collected(nodes, order, self, kind) == Collected(nodes, Erase(order, self), self, kind)
  {
    if order != [] {
      assert forall m :: m in order[1..] ==> m in order;
      CollectedExcludesSelf(nodes, order[1..], self, kind);
      if order[0] != self {
        assert Erase(order, self) == [order[0]] + Erase(order[1..], self);
        assert Erase(order, self)[1..] == Erase(order[1..], self);
      }
    }
  }

  class Graph {
    var nodes: Nodes
    var nextId: NodeId
    /** `Component::componentsCount`: the number the next component gets. */
    var componentsCount: nat

    predicate Valid()
      reads this
    {
      && Linked(nodes)
      && (forall n :: n in nodes ==> n < nextId)
      && (forall n :: n in nodes && nodes[n].parent.Some? ==> nodes[n].parent.value < nextId)
    }

    constructor ()
      ensures Valid() && nodes == map[] && nextId == 0 && componentsCount == 0
    {
      nodes := map[];
      nextId := 0;
      componentsCount := 0;
    }

    /** `Node::create`: a named node whose transform is its only component. */
    method Create(name: string) returns (id: NodeId)
      requires Valid()
      modifies this
      ensures Valid()
      ensures id == old(nextId) && id !in old(nodes) && nextId == old(nextId) + 1
      ensures nodes == old(nodes)[id := NewNode(name, Component(TransformKind, old(componentsCount)))]
      ensures componentsCount == old(componentsCount) + 1
    {
      id := nextId;
      nextId := nextId + 1;
      var transform := Component(TransformKind, componentsCount);
      componentsCount := componentsCount + 1;
      nodes := nodes[id := NewNode(name, transform)];
      forall n | n in nodes
        ensures ChildLinked(nodes, n) && ParentLinked(nodes, n)
      {
        if n != id {
          assert ChildLinked(old(nodes), n) && ParentLinked(old(nodes), n);
        }
      }
    }

    /** Writing the public `name` field. */
    method SetName(id: NodeId, name: string)
      requires Valid() && id in nodes
      modifies `nodes
      ensures Valid()
      ensures nodes == old(nodes)[id := old(nodes)[id].(name := name)]
    {
      nodes := nodes[id := nodes[id].(name := name)];
      forall n | n in nodes
        ensures ChildLinked(nodes, n) && ParentLinked(nodes, n)
      {
        assert ChildLinked(old(nodes), n) && ParentLinked(old(nodes), n);
      }
    }

    /** `Component::base_create`: a component of the given type takes the
        next number and is registered with the node. */
    method CreateComponent(id: NodeId, kind: string) returns (c: Component)
      requires Valid() && id in nodes
      modifies `nodes, `componentsCount
      ensures Valid()
      ensures c == Component(kind, old(componentsCount)) && componentsCount == old(componentsCount) + 1
      ensures nodes == old(nodes)[id := WithComponent(old(nodes)[id], c)]
    {
      c := Component(kind, componentsCount);
      componentsCount := componentsCount + 1;
      AddComponent(id, c);
    }

    /** `addComponent`, for a component already counted. */
    method AddComponent(id: NodeId, c: Component)
      requires Valid() && id in nodes
      modifies `nodes
      ensures Valid()
      ensures nodes == old(nodes)[id := WithComponent(old(nodes)[id], c)]
    {
      nodes := nodes[id := WithComponent(nodes[id], c)];
      forall n | n in nodes
        ensures ChildLinked(nodes, n) && ParentLinked(nodes, n)
      {
        assert ChildLinked(old(nodes), n) && ParentLinked(old(nodes), n);
      }
    }

    /** `setParent`, whose parent argument must not be null. */
    method SetParent(id: NodeId, parent: NodeId)
      requires Valid() && id in nodes && parent in nodes
      modifies `nodes
      ensures Valid()
      ensures nodes == Reparented(old(nodes), id, parent)
    {
      var oldParent := Parent(nodes, id);
      if oldParent.Some? {
        var op := oldParent.value;
        nodes := nodes[op := nodes[op].(children := Erase(nodes[op].children, id))];
      }
      nodes := nodes[id := nodes[id].(parent := Some(parent))];
      nodes := nodes[parent := nodes[parent].(children := nodes[parent].children + [id])];
      ReparentedLinked(old(nodes), id, parent);
      forall n | n in nodes
        ensures n in old(nodes) && nodes[n].parent == (if n == id then Some(parent) else old(nodes)[n].parent)
      {
        ReparentedAt(old(nodes), id, parent, n);
      }
    }

    /** `getChild` as written: the loop's body returns in its first round,
        so the loop is a test for a first child. */
    method GetChild(id: NodeId, childName: string) returns (r: Option<NodeId>)
      requires Valid() && id in nodes
      ensures r == FirstChild(nodes[id].children)
    {
      var children := nodes[id].children;
      if |children| > 0 {
        var child := children[0];
        if nodes[child].name == childName {
        }
        return Some(child);
      }
      return None;
    }

    /** `getChild` as its name promises: the first child with that name. */
    method FindChild(id: NodeId, childName: string) returns (r: Option<NodeId>)
      requires Valid() && id in nodes
      ensures r.Some? ==> r.value in nodes[id].children && nodes[r.value].name == childName
      ensures r.None? <==> forall c :: c in nodes[id].children ==> nodes[c].name != childName
      ensures r == ChildNamed(nodes, nodes[id].children, childName)
    {
      var children := nodes[id].children;
      assert ChildLinked(nodes, id);
      var i := 0;
      while i < |children|
        invariant 0 <= i <= |children|
        invariant forall j :: 0 <= j < i ==> nodes[children[j]].name != childName
        invariant ChildNamed(nodes, children[i..], childName) == ChildNamed(nodes, children, childName)
      {
        assert children[i..][1..] == children[i + 1..];
        if nodes[children[i]].name == childName {
          return Some(children[i]);
        }
        i := i + 1;
      }
      return None;
    }

    /** `components`: one entry per registered type, in the map's
        iteration order (left open). */
    method Components(id: NodeId) returns (r: seq<Component>)
      requires Valid() && id in nodes
      ensures |r| == |nodes[id].components|
      ensures forall k :: k in nodes[id].components ==> nodes[id].components[k] in r
      ensures forall i :: 0 <= i < |r| ==> r[i].kind in nodes[id].components && nodes[id].components[r[i].kind] == r[i]
      ensures forall i, j :: 0 <= i < j < |r| ==> r[i].kind != r[j].kind
    {
      var components := nodes[id].components;
      assert KindsMatch(components);
      var keys := components.Keys;
      r := [];
      while keys != {}
        invariant keys <= components.Keys
        invariant |r| + |keys| == |components.Keys|
        invariant forall k :: k in components && k !in keys ==> components[k] in r
        invariant forall i :: 0 <= i < |r| ==> r[i].kind in components && r[i].kind !in keys && components[r[i].kind] == r[i]
        invariant forall i, j :: 0 <= i < j < |r| ==> r[i].kind != r[j].kind
        decreases |keys|
      {
        var k :| k in keys;
        r := r + [components[k]];
        keys := keys - {k};
      }
    }

    /** `getChildComponents<T>` over the order in which the traversal visits
        nodes: the components of that type, the start node's excepted. */
    method GetChildComponents(id: NodeId, kind: string, order: seq<NodeId>) returns (r: seq<Component>)
      requires Valid() && id in nodes && forall n :: n in order ==> n in nodes
      ensures r == Collected(nodes, order, id, kind)
      ensures r == Collected(nodes, Erase(order, id), id, kind)
    {
      r := [];
      var i := |order|;
      while i > 0
        invariant 0 <= i <= |order|
        invariant forall n :: n in order[i..] ==> n in nodes && KindsMatch(nodes[n].components)
        invariant r == Collected(nodes, order[i..], id, kind)
      {
        i := i - 1;
        assert order[i..][1..] == order[i + 1..];
        var n := order[i];
        if n != id {
          assert KindsMatch(nodes[n].components);
          var c := GetComponent(nodes, n, kind);
          if c.Some? {
            r := [c.value] + r;
          }
        }
      }
      assert order[0..] == order;
      CollectedExcludesSelf(nodes, order, id, kind);
    }

    /** `getChildComponent<T>`: the first of them, if any. */
    method GetChildComponent(id: NodeId, kind: string, order: seq<NodeId>) returns (r: Option<Component>)
      requires Valid() && id in nodes && forall n :: n in order ==> n in nodes
      ensures r.None? <==> Collected(nodes, order, id, kind) == []
      ensures r.Some? ==> r.value == Collected(nodes, order, id, kind)[0]
    {
      var all := GetChildComponents(id, kind, order);
      r := if all == [] then None else Some(all[0]);
    }
  }
}
