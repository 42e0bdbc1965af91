/** The splay tree in jni/v8core/v8/benchmarks/splay.js as a map from keys to values, in key order. */
module SplayTrees {
  import opened SplayNodes
  import opened Splaying

  ghost function MapOf<V>(s: seq<Node<V>>): map<int, V> {
    if s == [] then map[] else MapOf(s[..|s| - 1])[s[|s| - 1].key := s[|s| - 1].value]
  }

  lemma {:induction false} MapConcat<V>(a: seq<Node<V>>, b: seq<Node<V>>)
    ensures MapOf(a + b) == MapOf(a) + MapOf(b)
    decreases |b|
  {
    if b == [] {
      assert a + b == a;
    } else {
      var m := |b| - 1;
      MapConcat(a, b[..m]);
      assert (a + b)[..|a + b| - 1] == a + b[..m];
    }
  }

  lemma {:induction false} MapKeys<V>(s: seq<Node<V>>, key: int)
    ensures AllBelow(s, key) ==> forall k :: k in MapOf(s) ==> k < key
    ensures AllAbove(s, key) ==> forall k :: k in MapOf(s) ==> key < k
    decreases |s|
  {
    if s != [] {
      assert s[|s| - 1] in s;
      MapKeys(s[..|s| - 1], key);
    }
  }

  /** The map of a tree, from its parts; the keys on the left are smaller, those on the right larger. */
  lemma MapBranch<V>(t: Shape<V>)
    requires t.Branch? && Sorted(Nodes(t))
    ensures MapOf(Nodes(t)) == MapOf(Nodes(t.left)) + map[t.node.key := t.node.value] + MapOf(Nodes(t.right))
    ensures forall k :: k in MapOf(Nodes(t.left)) ==> k < t.node.key
    ensures forall k :: k in MapOf(Nodes(t.right)) ==> t.node.key < k
  {
    var a, n, b := Nodes(t.left), t.node, Nodes(t.right);
    SortedParts(a, n, b);
    MapConcat(a + [n], b);
    MapConcat(a, [n]);
    assert MapOf([n]) == map[][n.key := n.value] by { assert [n][..0] == []; }
    MapKeys(a, n.key);
    MapKeys(b, n.key);
  }

  /** What the place of the root says about a key. */
  lemma ClosestMap<V>(t: Shape<V>, key: int)
    requires Closest(t, key) && Sorted(Nodes(t))
    ensures key in MapOf(Nodes(t)) <==> t.node.key == key
    ensures t.node.key >= key ==> forall k :: k in MapOf(Nodes(t.left)) ==> k < key
    ensures t.node.key <= key ==> forall k :: k in MapOf(Nodes(t.right)) ==> key < k
  {
    MapBranch(t);
    MapKeys(Nodes(t.left), key);
    MapKeys(Nodes(t.right), key);
  }

  ghost predicate IsMax(k: int, keys: set<int>) {
    k in keys && forall j :: j in keys ==> j <= k
  }

  class SplayTree<V> {
    var root: Node?<V>
    ghost var shape: Shape<V>

    ghost predicate Valid()
      reads this, Own(shape)
    {
      Is(root, shape) && Sorted(Nodes(shape))
    }

    ghost function Contents(): map<int, V>
      reads this
    {
      MapOf(Nodes(shape))
    }

    constructor ()
      ensures Valid() && Contents() == map[] && Own(shape) == {}
    {
      root, shape := null, Leaf;
    }

    predicate IsEmpty()
      reads this
    {
      root == null
    }

    lemma EmptyContents()
      requires Valid()
      ensures IsEmpty() <==> shape.Leaf?
      ensures IsEmpty() <==> Contents() == map[]
    {
      RootIs(root, shape);
      if shape.Branch? {
        MapBranch(shape);
        assert shape.node.key in Contents();
      }
    }

    /** `splay_` on the tree. */
    method SplayAt(key: int)
      requires Valid() && root != null
      modifies this, Own(shape)
      ensures Valid() && root != null && shape.Branch? && root == shape.node && Closest(shape, key)
      ensures Nodes(shape) == old(Nodes(shape)) && Own(shape) == old(Own(shape))
      ensures key in Contents() <==> root.key == key
      ensures key in Contents() ==> Contents()[key] == root.value
    {
      RootIs(root, shape);
      OwnAllocated(shape);
      root, shape := Splay(root, key, shape);
      RootIs(root, shape);
      ClosestMap(shape, key);
      MapBranch(shape);
    }

    /** `insert` */
    method Insert(key: int, value: V)
      requires Valid()
      modifies this, Own(shape)
      ensures Valid() && fresh(Own(shape) - old(Own(shape)))
      ensures Contents() == if key in old(Contents()) then old(Contents()) else old(Contents())[key := value]
      ensures root != null && root.key == key
    {
      OwnAllocated(shape);
      EmptyContents();
      if IsEmpty() {
        root := new Node(key, value);
        shape := Branch(Leaf, root, Leaf);
        MapBranch(shape);
        assert Own(shape) == {root};
        return;
      }
      SplayAt(key);
      assert Own(shape) == old(Own(shape));
      if root.key == key { return; }
      InsertRoot(key, value);
    }

    /** The part of `insert` after splaying, for a key that is not there. */
    method InsertRoot(key: int, value: V)
      requires Valid() && root != null && Closest(shape, key) && root.key != key
      modifies this, Own(shape)
      ensures Valid() && root != null && fresh(root) && Own(shape) == old(Own(shape)) + {root}
      ensures Contents() == old(Contents())[key := value] && root.key == key
    {
      RootIs(root, shape);
      OwnAllocated(shape);
      ghost var t := shape;
      var node := new Node(key, value);
      if key > root.key {
        shape := PutAbove(node, root, t);
        InsertedAbove(t, node);
      } else {
        shape := PutBelow(node, root, t);
        InsertedBelow(t, node);
      }
      root := node;
    }

    /** `remove`: the node, or null where the source reports that there is none. */
    method Remove(key: int) returns (removed: Node?<V>)
      requires Valid()
      modifies this, Own(shape)
      ensures Valid() && Own(shape) <= old(Own(shape))
      ensures key !in old(Contents()) ==> removed == null && Contents() == old(Contents())
      ensures key in old(Contents()) ==> removed != null && removed.key == key && removed.value == old(Contents())[key]
      ensures key in old(Contents()) ==> Contents() == old(Contents()) - {key} && removed !in Own(shape)
    {
      EmptyContents();
      if IsEmpty() { return null; }
      SplayAt(key);
      if root.key != key { return null; }
      removed := root;
      RemoveRoot();
    }

    /** The part of `remove` after splaying. */
    method RemoveRoot()
      requires Valid() && shape.Branch?
      modifies this, Own(shape)
      ensures Valid() && Own(shape) <= old(Own(shape)) && old(root) !in Own(shape)
      ensures Contents() == old(Contents()) - {old(shape.node.key)}
    {
      ghost var t, key := shape, shape.node.key;
      BranchApart(t);
      MapBranch(t);
      RootIs(root.left, t.left);
      if root.left == null {
        root, shape := root.right, t.right;
      } else {
        var k := root.key;
        var right := root.right;
        root, shape := root.left, t.left;
        OwnAllocated(t.right);
        SplayAt(k);
        assert Is(right, t.right);
        JoinedMap(shape, t, k);
        HangRight(right, t.right);
      }
    }

    /** root.right = right */
    method HangRight(right: Node?<V>, ghost u: Shape<V>)
      requires Is(root, shape) && shape.Branch? && Sorted(Nodes(shape)) && Is(right, u) && Own(shape) !! Own(u)
      modifies this, Own(shape)
      ensures shape == Branch(old(shape.left), old(shape.node), u) && Is(root, shape)
      ensures Own(shape) <= old(Own(shape)) + Own(u)
    {
      RootIs(root, shape);
      BranchApart(shape);
      root.right := right;
      shape := Branch(shape.left, shape.node, u);
    }

    /** `find` */
    method Find(key: int) returns (r: Node?<V>)
      requires Valid()
      modifies this, Own(shape)
      ensures Valid() && Contents() == old(Contents()) && Own(shape) == old(Own(shape))
      ensures r == null <==> key !in Contents()
      ensures r != null ==> r.key == key && r.value == Contents()[key]
    {
      EmptyContents();
      if IsEmpty() { return null; }
      SplayAt(key);
      r := if root.key == key then root else null;
    }

    /** `findMax` from the root */
    method FindMax() returns (r: Node?<V>)
      requires Valid()
      ensures r == null <==> Contents() == map[]
      ensures r != null ==> IsMax(r.key, Contents().Keys) && r.value == Contents()[r.key]
    {
      EmptyContents();
      if IsEmpty() { return null; }
      RootIs(root, shape);
      r := MaxFrom(root, shape);
      LastIsMax(Nodes(shape));
    }

    /** `findGreatestLessThan` */
    method FindGreatestLessThan(key: int) returns (r: Node?<V>)
      requires Valid()
      modifies this, Own(shape)
      ensures Valid() && Contents() == old(Contents()) && Own(shape) == old(Own(shape))
      ensures var below := set k | k in Contents() && k < key;
        if r == null then below == {} else IsMax(r.key, below) && r.value == Contents()[r.key]
    {
      EmptyContents();
      if IsEmpty() { return null; }
      SplayAt(key);
      OwnAllocated(shape);
      RootIs(root.left, shape.left);
      BelowSplit(shape, key);
      BranchApart(shape);
      if root.key < key {
        return root;
      }
      if root.left == null {
        return null;
      }
      r := MaxFrom(root.left, shape.left);
      LastIsMax(Nodes(shape.left));
    }

    /** `exportKeys`: all the keys, in increasing order. */
    method ExportKeys() returns (result: seq<int>)
      requires Valid()
      ensures forall i, j :: 0 <= i < j < |result| ==> result[i] < result[j]
      ensures forall k :: k in result <==> k in Contents()
    {
      result := [];
      RootIs(root, shape);
      if root != null {
        result := Traverse(root, shape, result);
      }
      Exported(Nodes(shape), result);
    }
  }

  lemma Exported<V>(s: seq<Node<V>>, result: seq<int>)
    requires Sorted(s) && result == KeysOf(s)
    ensures forall i, j :: 0 <= i < j < |result| ==> result[i] < result[j]
    ensures forall k :: k in result <==> k in MapOf(s)
  {
    MapKeysAre(s);
  }

  /** `findMax` from a node: the last one in order. */
  method MaxFrom<V>(start: Node<V>, ghost t: Shape<V>) returns (current: Node<V>)
    requires Is(start, t)
    ensures Nodes(t) != [] && current == Nodes(t)[|Nodes(t)| - 1]
  {
    current := start;
    ghost var u := t;
    RootIs(start, t);
    while current.right != null
      invariant Is(current, u) && u.Branch? && |Nodes(u)| <= |Nodes(t)|
      invariant Nodes(u)[|Nodes(u)| - 1] == Nodes(t)[|Nodes(t)| - 1]
      decreases u
    {
      RootIs(current.right, u.right);
      current, u := current.right, u.right;
    }
    RootIs(current.right, u.right);
  }

  ghost function KeysOf<V>(s: seq<Node<V>>): (r: seq<int>)
    ensures |r| == |s| && forall i :: 0 <= i < |s| ==> r[i] == s[i].key
  {
    if s == [] then [] else KeysOf(s[..|s| - 1]) + [s[|s| - 1].key]
  }

  /** `traverse_`, with the visitor that collects the keys. */
  method Traverse<V>(n: Node<V>, ghost t: Shape<V>, result0: seq<int>) returns (result: seq<int>)
    requires Is(n, t)
    ensures result == result0 + KeysOf(Nodes(t))
    decreases t
  {
    result := result0;
    var current: Node?<V> := n;
    ghost var u, all := t, result0 + KeysOf(Nodes(t));
    while current != null
      invariant Is(current, u) && (u == t || u < t)
      invariant result + KeysOf(Nodes(u)) == all
      decreases u
    {
      RootIs(current, u);
      var left := current.left;
      RootIs(left, u.left);
      KeysStep(result, u);
      OwnAllocated(u);
      if left != null { result := Traverse(left, u.left, result); }
      result := result + [current.key];
      current, u := current.right, u.right;
    }
    RootIs(current, u);
  }

  lemma {:induction false} KeysConcat<V>(a: seq<Node<V>>, b: seq<Node<V>>)
    ensures KeysOf(a + b) == KeysOf(a) + KeysOf(b)
  {
  }

  lemma KeysStep<V>(result: seq<int>, t: Shape<V>)
    requires t.Branch?
    ensures result + KeysOf(Nodes(t)) == result + KeysOf(Nodes(t.left)) + [t.node.key] + KeysOf(Nodes(t.right))
  {
    var a, n, b := Nodes(t.left), [t.node], Nodes(t.right);
    KeysConcat(a + n, b);
    KeysConcat(a, n);
    assert KeysOf(n) == [t.node.key];
    Associate(result, KeysOf(a), KeysOf(n), KeysOf(b));
  }

  lemma Associate(a: seq<int>, b: seq<int>, c: seq<int>, d: seq<int>)
    ensures a + (b + c + d) == a + b + c + d
  {
  }

  lemma {:induction false} MapOfNode<V>(s: seq<Node<V>>, i: nat)
    requires i < |s| && Sorted(s)
    ensures s[i].key in MapOf(s) && MapOf(s)[s[i].key] == s[i].value
    decreases |s|
  {
    if i < |s| - 1 { MapOfNode(s[..|s| - 1], i); }
  }

  lemma LastIsMax<V>(s: seq<Node<V>>)
    requires s != [] && Sorted(s)
    ensures var n := s[|s| - 1]; IsMax(n.key, MapOf(s).Keys) && MapOf(s)[n.key] == n.value
  {
    var n := s[|s| - 1];
    MapOfNode(s, |s| - 1);
    SortedConcat(s[..|s| - 1], [n]);
    assert s == s[..|s| - 1] + [n];
    assert [n][0] == n;
    MapKeys(s[..|s| - 1], n.key);
  }

  /** After splaying, the keys below are those on the left, and the root's if it is below. */
  lemma BelowSplit<V>(t: Shape<V>, key: int)
    requires Closest(t, key) && Sorted(Nodes(t))
    ensures var below := set k | k in MapOf(Nodes(t)) && k < key;
      if t.node.key < key then IsMax(t.node.key, below)
      else below == MapOf(Nodes(t.left)).Keys && forall k :: k in below ==>
        MapOf(Nodes(t))[k] == MapOf(Nodes(t.left))[k]
    ensures t.node.key in MapOf(Nodes(t)) && MapOf(Nodes(t))[t.node.key] == t.node.value
  {
    MapBranch(t);
    ClosestMap(t, key);
  }

  /** The keys of the map are those of the nodes. */
  lemma {:induction false} MapKeysAre<V>(s: seq<Node<V>>)
    ensures forall k :: k in MapOf(s) <==> k in KeysOf(s)
    decreases |s|
  {
    if s != [] { MapKeysAre(s[..|s| - 1]); }
  }

  /** The left subtree splayed at a key above all of its own has nothing on the right of its root; with
      the right subtree there, it is the tree without its root. */
  lemma JoinedMap<V>(v: Shape<V>, t: Shape<V>, key: int)
    requires t.Branch? && Sorted(Nodes(t)) && key == t.node.key
    requires v.Branch? && Nodes(v) == Nodes(t.left) && Closest(v, key)
    ensures v.right.Leaf?
    ensures var u := Branch(v.left, v.node, t.right);
      Sorted(Nodes(u)) && MapOf(Nodes(u)) == MapOf(Nodes(t)) - {key}
  {
    var a, c := Nodes(v.left), Nodes(t.right);
    BranchApart(t);
    NothingRight(v, key);
    assert Nodes(v) == a + [v.node];
    AboveBoth(c, v.node, key);
    SortedConcat(a + [v.node], c);
    SortedParts(a, v.node, c);
    SortedParts(a, v.node, []);
    assert a + [v.node] + [] == a + [v.node];
    MapConcat(Nodes(v), c);
    MapBranch(t);
    MinusMiddle(MapOf(Nodes(t.left)), key, t.node.value, MapOf(c));
  }

  lemma MinusMiddle<V>(a: map<int, V>, k: int, v: V, b: map<int, V>)
    requires k !in a && k !in b
    ensures a + map[k := v] + b - {k} == a + b
  {
  }

  lemma NothingRight<V>(v: Shape<V>, key: int)
    requires v.Branch? && AllBelow(Nodes(v), key) && Closest(v, key)
    ensures v.right.Leaf? && v.node.key < key
  {
    PartsBelow(Nodes(v.left), v.node, Nodes(v.right), key);
    BothSides(Nodes(v.right), key);
  }

  lemma PartsBelow<V>(a: seq<Node<V>>, n: Node<V>, b: seq<Node<V>>, key: int)
    requires AllBelow(a + [n] + b, key)
    ensures n.key < key && AllBelow(b, key)
  {
    var s := a + [n] + b;
    assert s[|a|] == n;
    assert forall i :: 0 <= i < |b| ==> b[i] == s[|a| + 1 + i];
  }

  lemma BothSides<V>(b: seq<Node<V>>, key: int)
    ensures AllBelow(b, key) && AllAbove(b, key) ==> b == []
  {
    if |b| > 0 {
      assert AllBelow(b, key) ==> b[0].key < key;
      assert AllAbove(b, key) ==> key < b[0].key;
    }
  }

  lemma AboveBoth<V>(c: seq<Node<V>>, n: Node<V>, key: int)
    requires AllAbove(c, key) && n.key < key
    ensures AllAbove(c, n.key)
  {
  }

  /** node.left = root; node.right = root.right; root.right = null; */
  method PutAbove<V>(node: Node<V>, top: Node<V>, ghost t: Shape<V>) returns (ghost u: Shape<V>)
    requires Is(top, t) && t.Branch? && Sorted(Nodes(t)) && node !in Own(t)
    modifies node, top
    ensures u == Branch(Branch(t.left, t.node, Leaf), node, t.right) && Is(node, u)
    ensures Own(u) == Own(t) + {node}
  {
    BranchApart(t);
    node.left := top;
    node.right := top.right;
    top.right := null;
    ghost var v := Branch(t.left, t.node, Leaf);
    assert Own(v) == Own(t.left) + {t.node};
    u := Branch(v, node, t.right);
  }

  /** node.right = root; node.left = root.left; root.left = null; */
  method PutBelow<V>(node: Node<V>, top: Node<V>, ghost t: Shape<V>) returns (ghost u: Shape<V>)
    requires Is(top, t) && t.Branch? && Sorted(Nodes(t)) && node !in Own(t)
    modifies node, top
    ensures u == Branch(t.left, node, Branch(Leaf, t.node, t.right)) && Is(node, u)
    ensures Own(u) == Own(t) + {node}
  {
    BranchApart(t);
    node.right := top;
    node.left := top.left;
    top.left := null;
    ghost var v := Branch(Leaf, t.node, t.right);
    assert Own(v) == {t.node} + Own(t.right);
    u := Branch(t.left, node, v);
  }

  lemma InsertedAbove<V>(t: Shape<V>, node: Node<V>)
    requires Closest(t, node.key) && Sorted(Nodes(t)) && node.key > t.node.key
    ensures var u := Branch(Branch(t.left, t.node, Leaf), node, t.right);
      Sorted(Nodes(u)) && MapOf(Nodes(u)) == MapOf(Nodes(t))[node.key := node.value]
  {
    var v := Branch(t.left, t.node, Leaf);
    var a, b := Nodes(t.left), Nodes(t.right);
    BranchApart(t);
    assert Nodes(v) == a + [t.node] + [];
    SortedParts(a, t.node, []);
    BelowRoot(a, t.node, node.key);
    SortedParts(Nodes(v), node, b);
    MapBranch(t);
    MapBranch(v);
    MapBranch(Branch(v, node, t.right));
    MergeAbove(MapOf(a), t.node.key, t.node.value, node.key, node.value, MapOf(b));
  }

  lemma BelowRoot<V>(a: seq<Node<V>>, n: Node<V>, key: int)
    requires AllBelow(a, n.key) && n.key < key
    ensures AllBelow(a + [n] + [], key)
  {
  }

  lemma AboveRoot<V>(n: Node<V>, b: seq<Node<V>>, key: int)
    requires AllAbove(b, n.key) && key < n.key
    ensures AllAbove([] + [n] + b, key)
  {
  }

  lemma MergeAbove<V>(a: map<int, V>, n: int, v: V, k: int, w: V, b: map<int, V>)
    requires n < k && forall j :: j in b ==> k < j
    ensures a + map[n := v] + map[] + map[k := w] + b == (a + map[n := v] + b)[k := w]
  {
  }

  lemma MergeBelow<V>(a: map<int, V>, n: int, v: V, k: int, w: V, b: map<int, V>)
    requires k < n && forall j :: j in b ==> n < j
    ensures a + map[k := w] + (map[] + map[n := v] + b) == (a + map[n := v] + b)[k := w]
  {
  }

  lemma InsertedBelow<V>(t: Shape<V>, node: Node<V>)
    requires Closest(t, node.key) && Sorted(Nodes(t)) && node.key < t.node.key
    ensures var u := Branch(t.left, node, Branch(Leaf, t.node, t.right));
      Sorted(Nodes(u)) && MapOf(Nodes(u)) == MapOf(Nodes(t))[node.key := node.value]
  {
    var v := Branch(Leaf, t.node, t.right);
    var a, b := Nodes(t.left), Nodes(t.right);
    BranchApart(t);
    assert Nodes(v) == [] + [t.node] + b;
    SortedParts([], t.node, b);
    AboveRoot(t.node, b, node.key);
    SortedParts(a, node, Nodes(v));
    MapBranch(t);
    MapBranch(v);
    MapBranch(Branch(t.left, node, v));
    MergeBelow(MapOf(a), t.node.key, t.node.value, node.key, node.value, MapOf(b));
  }
}
