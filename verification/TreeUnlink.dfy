/** unlink_large_chunk in memory: a chunk leaves its ring, or the rightmost leaf below it takes its place. */
module TreeUnlinking {
  import opened Digits
  import opened Trie
  import opened TreeLinks

  /** The node of a chunk's size, and where it is. */
  lemma {:induction false} Focus(z0: Context, u0: Tree, x: int, s: nat, lo0: nat, b0: nat)
      returns (z: Context, u: Tree, lo: nat, b: nat)
    requires Ordered(u0, lo0, b0) && Has(u0, x, s)
    ensures Plug(z, u) == Plug(z0, u0) && Ordered(u, lo, b) && u.Node? && u.size == s && x in u.ring
    ensures Plug(z, Unlink(u, x, s, lo, b)) == Plug(z0, Unlink(u0, x, s, lo0, b0))
    decreases u0
  {
    if u0.size == s {
      TopHas(u0, x, s, lo0, b0);
      z, u, lo, b := z0, u0, lo0, b0;
    } else {
      WhichSide(u0, x, s, lo0, b0);
      var right := Right(s, lo0, b0);
      z, u, lo, b := Focus(Deeper(z0, u0, right), Side(u0, right), x, s, if right then lo0 + Pow2(b0 - 1) else lo0,
        b0 - 1);
    }
  }

  /** x is alone in its ring exactly when its links lead to itself. */
  lemma Alone(h: Links, ring: seq<int>, size: nat, x: int)
    requires Ringed(h, ring, size) && NoRepeats(ring) && x in ring
    ensures x in h && (h[x].bk == x <==> |ring| == 1)
    ensures h[x].bk in h && h[x].fd in h
  {
    Neighbours(h, ring, size, Position(ring, x));
  }

  /** The loop that looks for the rightmost leaf below the child of x at p0. */
  method FindLeaf(h: Links, x: int, p0: int, ghost w: Tree, ghost lo: nat, ghost b: nat)
      returns (r: int, owner: int, right: bool, ghost z: Context)
    requires w.Node? && Repr(h, w, p0, x) && Ordered(w, lo, b)
    ensures Around(h, z, r, owner, p0, x) && Repr(h, Leaf(w), r, owner) && Plug(z, Leaf(w)) == w
    ensures Leaf(w).left.Nil? && Leaf(w).right.Nil? && Prune(w) == Plug(z, Nil)
    ensures z.Root? || (right <==> z.OnRight?)
  {
    r, owner, right, z := p0, x, true, Root;
    ghost var u := w;
    while h[r].right != 0 || h[r].left != 0
      invariant u.Node? && Plug(z, u) == w && Around(h, z, r, owner, p0, x) && Repr(h, u, r, owner)
      invariant Leaf(u) == Leaf(w) && Prune(w) == Plug(z, Prune(u))
      invariant z.Root? || (right <==> z.OnRight?)
      decreases u
    {
      owner := r;
      right := h[r].right != 0;
      if right {
        r, z, u := h[r].right, OnRight(z, u.size, u.ring, u.left), u.right;
      } else {
        r, z, u := h[r].left, OnLeft(z, u.size, u.ring, u.right), u.left;
      }
    }
  }

  /** The same chunks with the same sizes. */
  ghost predicate Resized(h: Links, h': Links) {
    h'.Keys == h.Keys && forall c :: c in h ==> h'[c].size == h[c].size
  }

  /** The chunk r heads a ring in memory that hangs nowhere. */
  ghost predicate Loose(h: Links, r: int, v: Tree) {
    v.Node? && Ringed(h, v.ring, v.size) && |v.ring| > 0 && r == v.ring[0] && h[r].left == 0 && h[r].right == 0
  }

  /** The slot of the leaf is cleared: the tree without it, and the leaf's ring, stay in memory. */
  lemma LeafCut(h: Links, z: Context, v: Tree, r: int, up: int, p0: int, x: int, lo: nat, b: nat)
    requires Around(h, z, r, up, p0, x) && !z.Root? && Repr(h, v, r, up) && v.Node? && v.left.Nil? && v.right.Nil?
    requires Ordered(Plug(z, v), lo, b)
    ensures up in h
    ensures var h' := if z.OnRight? then SetRight(h, up, 0) else SetLeft(h, up, 0);
      && Repr(h', Plug(z, Nil), p0, x) && Loose(h', r, v) && h[up].size == z.size && OnlySizes(h, h', {z.size})
      && HasSize(Plug(z, v), z.size) && Resized(h, h')
  {
    var h' := if z.OnRight? then SetRight(h, up, 0) else SetLeft(h, up, 0);
    InnerApart(z, v, lo, b);
    SlotWritten(h, z, r, up, p0, x, 0);
    Plugged(h', z, Nil, 0, up, p0, x);
    SizeIn(z, v, z.size);
    var lo', b' := Separate(z, v, lo, b);
    assert HasSize(v, v.size);
    RingFrame(h, h', v.ring, v.size, {z.size});
  }

  function Child(h: Links, x: int, right: bool): int
    requires x in h
  {
    if right then h[x].right else h[x].left
  }

  function SetChild(h: Links, x: int, right: bool, v: int): Links
    requires x in h
  {
    if right then SetRight(h, x, v) else SetLeft(h, x, v)
  }

  /** The child of x on one side is itself the leaf. */
  lemma ChildCut(h: Links, x: int, right: bool, s: nat, v: Tree, r: int, other: Tree)
    requires x in h && h[x].size == s && Repr(h, v, r, x) && v.Node? && v.left.Nil? && v.right.Nil? && v.size != s
    requires Repr(h, other, Child(h, x, !right), x) && !HasSize(other, s)
    ensures var h' := SetChild(h, x, right, 0);
      && Loose(h', r, v) && Repr(h', other, Child(h', x, !right), x) && Child(h', x, right) == 0
      && h'[x].parent == h[x].parent && OnlySizes(h, h', {s}) && Resized(h, h')
  {
    var h' := SetChild(h, x, right, 0);
    RingFrame(h, h', v.ring, v.size, {s});
    ReprFrame(h, h', other, Child(h, x, !right), x, {s});
  }

  /** A change below x on one side leaves x and the other side alone. */
  lemma OtherSide(h: Links, h': Links, x: int, s: nat, other: Tree, d: int, q: nat)
    requires x in h && h[x].size == s && q != s && !HasSize(other, q) && OnlySizes(h, h', {q}) && Repr(h, other, d, x)
    ensures x in h' && h'[x] == h[x] && Repr(h', other, d, x)
  {
    ReprFrame(h, h', other, d, x, {q});
  }

  /** Two subtrees of a node of size s have no size in common, and not s. */
  ghost predicate SidesDiffer(u: Tree, other: Tree, s: nat) {
    !HasSize(u, s) && !HasSize(other, s) && forall z :: HasSize(u, z) ==> !HasSize(other, z)
  }

  /** The rightmost leaf below x on one side is cut off. */
  method TakeLeaf(h: Links, x: int, right: bool, ghost u: Tree, ghost other: Tree, ghost s: nat, ghost lo: nat,
      ghost b: nat) returns (h': Links, r: int, ghost q: nat)
    requires x in h && h[x].size == s && u.Node? && Repr(h, u, Child(h, x, right), x) && Ordered(u, lo, b)
    requires Repr(h, other, Child(h, x, !right), x)
    requires SidesDiffer(u, other, s)
    ensures x in h' && Loose(h', r, Leaf(u)) && h'[x].parent == h[x].parent
    ensures Repr(h', Prune(u), Child(h', x, right), x) && Repr(h', other, Child(h', x, !right), x)
    ensures (q == s || HasSize(u, q)) && OnlySizes(h, h', {q}) && Resized(h, h')
  {
    var owner, side;
    ghost var z;
    r, owner, side, z := FindLeaf(h, x, Child(h, x, right), u, lo, b);
    LeafSize(u);
    if z.Root? {
      ChildCut(h, x, right, s, Leaf(u), r, other);
    } else {
      LeafCut(h, z, Leaf(u), r, owner, Child(h, x, right), x, lo, b);
      OtherSide(h, SetChild(h, owner, side, 0), x, s, other, Child(h, x, !right), z.size);
    }
    h' := if owner == x then SetChild(h, x, right, 0) else SetChild(h, owner, side, 0);
    q := if z.Root? then s else z.size;
  }

  /** The new node's subtrees and its place in the tree. */
  lemma Fitting(z: Context, v: Tree, left: Tree, right: Tree, lo: nat, b: nat)
    requires v.Node? && Ordered(Plug(z, Node(v.size, v.ring, left, right)), lo, b)
    ensures Hangs(left, right, v.size) && Hangs(right, left, v.size) && NoRepeats(v.ring)
    ensures forall q :: q in {v.size} + Tops(left, right) ==> !InContext(z, q)
  {
    var t := Node(v.size, v.ring, left, right);
    var lo', b' := Separate(z, t, lo, b);
    BothHang(left, right, v.ring, v.size, lo', b');
    forall q | q in {v.size} + Tops(left, right) ensures !InContext(z, q) {
      assert HasSize(t, q);
    }
  }

  /** The replacement r, with what x had below it, takes the place of x in the tree. */
  lemma PlaceTaken(h: Links, z: Context, up: int, p0: int, up0: int, x: int, r: int, v: Tree, left: Tree, right: Tree,
      lo: nat, b: nat)
    requires Around(h, z, r, up, p0, up0) && x in h && h[x].parent == up && Loose(h, r, v)
    requires Repr(h, left, h[x].left, x) && Repr(h, right, h[x].right, x)
    requires Ordered(Plug(z, Node(v.size, v.ring, left, right)), lo, b)
    ensures (h[x].left != 0 ==> h[x].left in h) && (h[x].right != 0 ==> h[x].right in h)
    ensures Repr(TakeOver(h, x, r), Plug(z, Node(v.size, v.ring, left, right)), p0, up0)
    ensures OnlySizes(h, TakeOver(h, x, r), {v.size} + Tops(left, right))
  {
    Fitting(z, v, left, right, lo, b);
    TookOver(h, x, r, v.ring, v.size, left, right);
    Replanted(h, TakeOver(h, x, r), z, up, p0, up0, r, Node(v.size, v.ring, left, right), {v.size} + Tops(left, right));
  }

  lemma {:induction false} RootSize(h: Links, z: Context, p: int, up: int, p0: int, up0: int)
    requires Around(h, z, p, up, p0, up0) && !z.Root?
    ensures p0 in h && InContext(z, h[p0].size)
  {
    if !z.outer.Root? { RootSize(h, z.outer, up, h[up].parent, p0, up0); }
  }

  /** How the code tells where x hangs: by comparing pointers. */
  lemma WhereIs(h: Links, z: Context, x: int, up: int, p0: int, up0: int)
    requires Around(h, z, x, up, p0, up0) && x in h && x != 0 && !InContext(z, h[x].size)
    ensures x == p0 <==> z.Root?
    ensures !z.Root? ==> up in h && (h[up].left == x <==> z.OnLeft?)
  {
    if !z.Root? { RootSize(h, z, x, up, p0, up0); }
    if z.OnRight? {
      RootIn(h, z.other, h[up].left, up);
      assert z.other.Node? ==> InContext(z, z.other.size);
    }
  }

  /** The slot of x gets r: of what is below x, and of the ring r heads, nothing changes. */
  lemma SlotMoved(h: Links, z: Context, u: Tree, x: int, up: int, p0: int, up0: int, r: int, S: set<nat>, lo: nat,
      b: nat)
    requires Around(h, z, x, up, p0, up0) && !z.Root? && Ordered(Plug(z, u), lo, b)
    ensures up in h
    ensures var h' := SetChild(h, up, z.OnRight?, r);
      Around(h', z, r, up, p0, up0) && OnlySizes(h, h', {z.size}) && Resized(h, h') && InContext(z, z.size)
  {
    InnerApart(z, u, lo, b);
    SlotWritten(h, z, x, up, p0, up0, r);
  }

  lemma BelowKept(h: Links, h': Links, x: int, r: int, v: Tree, left: Tree, right: Tree, q: nat)
    requires x in h && h[x].size != q && Loose(h, r, v) && v.size != q && OnlySizes(h, h', {q})
    requires Repr(h, left, h[x].left, x) && Repr(h, right, h[x].right, x) && !HasSize(left, q) && !HasSize(right, q)
    ensures x in h' && h'[x] == h[x] && Loose(h', r, v)
    ensures Repr(h', left, h[x].left, x) && Repr(h', right, h[x].right, x)
  {
    RingFrame(h, h', v.ring, v.size, {q});
    ReprFrame(h, h', left, h[x].left, x, {q});
    ReprFrame(h, h', right, h[x].right, x, {q});
  }

  ghost predicate InTree(w: Tree, S: set<nat>) {
    forall q :: q in S ==> HasSize(w, q)
  }

  /** x's parent gets the replacement r as child, and r what x had. */
  method Replace(h: Links, x: int, r: int, p0: int, ghost z: Context, ghost u: Tree, ghost up: int, ghost up0: int,
      ghost v: Tree, ghost left: Tree, ghost right: Tree, ghost lo: nat, ghost b: nat) returns (h': Links, p0': int)
    requires Around(h, z, x, up, p0, up0) && Loose(h, r, v) && x in h && x != 0 && h[x].parent == up && u.Node? &&
      h[x].size == u.size
    requires Repr(h, left, h[x].left, x) && Repr(h, right, h[x].right, x) && !InContext(z, u.size)
    requires Ordered(Plug(z, u), lo, b) && Ordered(Plug(z, Node(v.size, v.ring, left, right)), lo, b)
    ensures Repr(h', Plug(z, Node(v.size, v.ring, left, right)), p0', up0)
    ensures OnlySizes(h, h', {v.size} + Tops(left, right) + (if z.Root? then {} else {z.size})) && Resized(h, h')
  {
    h', p0' := h, p0;
    ghost var t := Node(v.size, v.ring, left, right);
    WhereIs(h, z, x, up, p0, up0);
    if x == p0 {
      p0' := r;
    } else {
      SlotMoved(h, z, u, x, up, p0, up0, r, {}, lo, b);
      var xp := h[x].parent;
      h' := SetChild(h, xp, h[xp].left != x, r);
      SizesBelow(z, u, t, lo, b);
      BelowKept(h, h', x, r, v, left, right, z.size);
    }
    PlaceTaken(h', z, up, p0', up0, x, r, v, left, right, lo, b);
    TookResized(h', x, r);
    h' := TakeOver(h', x, r);
  }

  lemma TookResized(h: Links, x: int, r: int)
    requires x in h && r in h && (h[x].left != 0 ==> h[x].left in h) && (h[x].right != 0 ==> h[x].right in h)
    ensures Resized(h, TakeOver(h, x, r))
  {
  }

  lemma SizesBelow(z: Context, u: Tree, t: Tree, lo: nat, b: nat)
    requires !z.Root? && u.Node? && t.Node? && Ordered(Plug(z, u), lo, b) && Ordered(Plug(z, t), lo, b)
    ensures u.size != z.size && t.size != z.size && !HasSize(t.left, z.size) && !HasSize(t.right, z.size)
  {
    var l1, b1 := Separate(z, u, lo, b);
    var l2, b2 := Separate(z, t, lo, b);
    assert HasSize(u, u.size) && HasSize(t, t.size);
    assert HasSize(t.left, z.size) ==> HasSize(t, z.size);
    assert HasSize(t.right, z.size) ==> HasSize(t, z.size);
  }

  /** x, which nothing hangs below and no chunk is chained to, is cut off. */
  method Cut(h: Links, x: int, p0: int, ghost z: Context, ghost u: Tree, ghost up: int, ghost up0: int, ghost lo: nat,
      ghost b: nat) returns (h': Links, p0': int)
    requires Around(h, z, x, up, p0, up0) && x in h && h[x].parent == up && Ordered(Plug(z, u), lo, b)
    requires x != 0 && !InContext(z, h[x].size)
    ensures Repr(h', Plug(z, Nil), p0', up0) && OnlySizes(h, h', if z.Root? then {} else {z.size}) && Resized(h, h')
  {
    h', p0' := h, p0;
    WhereIs(h, z, x, up, p0, up0);
    if x == p0 {
      p0' := 0;
    } else {
      SlotMoved(h, z, u, x, up, p0, up0, 0, {}, lo, b);
      var xp := h[x].parent;
      h' := SetChild(h, xp, h[xp].left != x, 0);
    }
    Plugged(h', z, Nil, 0, up, p0', up0);
  }

  /** The tree node left its ring: the oldest chunk heads the rest, which hangs nowhere yet. */
  lemma HeadLeft(h: Links, u: Tree, x: int, up: int)
    requires Repr(h, u, x, up) && u.Node? && |u.ring| > 1 && NoRepeats(u.ring)
    requires !HasSize(u.left, u.size) && !HasSize(u.right, u.size)
    ensures h[x].fd in h && h[x].bk in h && h[x].bk != 0
    ensures var h' := SetFd(SetBk(h, h[x].fd, h[x].bk), h[x].bk, h[x].fd);
      && Loose(h', h[x].bk, u.(ring := Unring(u.ring, x))) && OnlySizes(h, h', {u.size}) && Resized(h, h')
      && h'[x].parent == up && Repr(h', u.left, h'[x].left, x) && Repr(h', u.right, h'[x].right, x)
  {
    RingClosed(h, u.ring, u.size, x);
    OnlyRing(h, h[x].fd, h[x].bk);
    Neighbours(h, u.ring, u.size, 0);
    assert Position(u.ring, x) == 0;
    var h' := SetFd(SetBk(h, h[x].fd, h[x].bk), h[x].bk, h[x].fd);
    ReprFrame(h, h', u.left, h[x].left, x, {u.size});
    ReprFrame(h, h', u.right, h[x].right, x, {u.size});
  }

  /** A chained chunk left its ring. */
  lemma TailLeft(h: Links, u: Tree, p: int, up: int, x: int)
    requires Repr(h, u, p, up) && u.Node? && x in u.ring && x != p && NoRepeats(u.ring)
    requires !HasSize(u.left, u.size) && !HasSize(u.right, u.size)
    ensures |u.ring| > 1 && x in h && h[x].parent == 0 && h[x].fd in h && h[x].bk in h
    ensures var h' := SetFd(SetBk(h, h[x].fd, h[x].bk), h[x].bk, h[x].fd);
      Repr(h', u.(ring := Unring(u.ring, x)), p, up) && OnlySizes(h, h', {u.size}) && Resized(h, h')
  {
    var i := Position(u.ring, x);
    RingClosed(h, u.ring, u.size, x);
    OnlyRing(h, h[x].fd, h[x].bk);
    var h' := SetFd(SetBk(h, h[x].fd, h[x].bk), h[x].bk, h[x].fd);
    ReprFrame(h, h', u.left, h[p].left, p, {u.size});
    ReprFrame(h, h', u.right, h[p].right, p, {u.size});
  }

  /** A chained chunk leaves its ring. */
  method LeaveTail(h: Links, x: int, ghost z: Context, ghost u: Tree, ghost p: int, ghost up: int, ghost p0: int,
      ghost up0: int) returns (h': Links)
    requires Around(h, z, p, up, p0, up0) && Repr(h, u, p, up) && u.Node? && x in u.ring && x != p && NoRepeats(u.ring)
    requires !HasSize(u.left, u.size) && !HasSize(u.right, u.size) && !InContext(z, u.size)
    ensures |u.ring| > 1 && Repr(h', Plug(z, u.(ring := Unring(u.ring, x))), p0, up0)
    ensures OnlySizes(h, h', {u.size}) && Resized(h, h')
  {
    TailLeft(h, u, p, up, x);
    h' := SetFd(SetBk(h, h[x].fd, h[x].bk), h[x].bk, h[x].fd);
    Replanted(h, h', z, up, p0, up0, p, u.(ring := Unring(u.ring, x)), {u.size});
  }

  /** x, the tree node, leaves a ring of several; the oldest chunk takes its place. */
  method LeaveHead(h: Links, x: int, p0: int, ghost z: Context, ghost u: Tree, ghost up: int, ghost up0: int,
      ghost lo: nat, ghost b: nat) returns (h': Links, p0': int)
    requires Around(h, z, x, up, p0, up0) && Repr(h, u, x, up) && u.Node? && |u.ring| > 1 && NoRepeats(u.ring)
    requires !HasSize(u.left, u.size) && !HasSize(u.right, u.size) && !InContext(z, u.size)
    requires Ordered(Plug(z, u), lo, b) && Ordered(Plug(z, u.(ring := Unring(u.ring, x))), lo, b)
    ensures Repr(h', Plug(z, u.(ring := Unring(u.ring, x))), p0', up0) && Resized(h, h')
    ensures OnlySizes(h, h', {u.size} + Tops(u.left, u.right) + if z.Root? then {} else {z.size})
  {
    HeadLeft(h, u, x, up);
    var r := h[x].bk;
    h' := SetFd(SetBk(h, h[x].fd, r), r, h[x].fd);
    AroundFrame(h, h', z, x, up, p0, up0, {u.size});
    h', p0' := Replace(h', x, r, p0, z, u, up, up0, u.(ring := Unring(u.ring, x)), u.left, u.right, lo, b);
  }

  /** What is left of a node whose only chunk goes. */
  ghost function Emptied(u: Tree): Tree
    requires u.Node?
  {
    if u.right.Node? then Node(Leaf(u.right).size, Leaf(u.right).ring, u.left, Prune(u.right))
    else if u.left.Node? then Node(Leaf(u.left).size, Leaf(u.left).ring, Prune(u.left), Nil)
    else Nil
  }

  lemma NodeParts(z: Context, u: Tree, lo0: nat, b0: nat, lo: nat, b: nat) returns (hi: nat, k: nat)
    requires u.Node? && Ordered(u, lo, b) && Ordered(Plug(z, u), lo0, b0) && (u.left.Node? || u.right.Node?)
    ensures Ordered(u.left, lo, k) && Ordered(u.right, hi, k)
    ensures SidesDiffer(u.left, u.right, u.size) && SidesDiffer(u.right, u.left, u.size)
    ensures !InContext(z, u.size)
    ensures forall q :: HasSize(u.left, q) ==> !InContext(z, q)
    ensures forall q :: HasSize(u.right, q) ==> !InContext(z, q)
  {
    var l, n := Separate(z, u, lo0, b0);
    OrderedParts(u, lo, b);
    hi, k := lo + Pow2(b - 1), b - 1;
    forall q ensures !(HasSize(u.left, q) && HasSize(u.right, q)) {
      SidesApart(u, lo, b, q);
    }
  }

  /** Sizes of the node replaced, of the one that replaces it and of its children, and of the parent. */
  ghost function Around4(z: Context, s: nat, t: Tree): set<nat>
    requires t.Node?
  {
    {s, t.size} + Tops(t.left, t.right) + if z.Root? then {} else {z.size}
  }

  /** The rightmost leaf of the child c takes the place of x; o is the other child. */
  method FillFrom(h: Links, x: int, right: bool, p0: int, ghost z: Context, ghost u: Tree, ghost c: Tree,
      ghost o: Tree, ghost up: int,
                  ghost up0: int, ghost t: Tree, ghost lo0: nat, ghost b0: nat, ghost lo: nat, ghost b: nat)
      returns (h': Links, p0': int, ghost q: nat)
    requires Around(h, z, x, up, p0, up0) && x in h && x != 0 && u.Node? && h[x].size == u.size && h[x].parent == up
    requires c.Node? && Repr(h, c, Child(h, x, right), x) && Repr(h, o, Child(h, x, !right), x)
    requires Ordered(c, lo, b) && SidesDiffer(c, o, u.size) && Ordered(Plug(z, u), lo0, b0) &&
      Ordered(Plug(z, t), lo0, b0)
    requires !InContext(z, u.size) && forall q :: HasSize(c, q) ==> !InContext(z, q)
    requires t == Node(Leaf(c).size, Leaf(c).ring, if right then o else Prune(c), if right then Prune(c) else o)
    ensures Repr(h', Plug(z, t), p0', up0) && Resized(h, h')
    ensures (q == u.size || HasSize(c, q)) && OnlySizes(h, h', {q} + Around4(z, u.size, t))
  {
    var r;
    h', r, q := TakeLeaf(h, x, right, c, o, u.size, lo, b);
    AroundFrame(h, h', z, x, up, p0, up0, {q});
    ghost var h1 := h';
    h', p0' := Replace(h', x, r, p0, z, u, up, up0, Leaf(c), t.left, t.right, lo0, b0);
    FrameTrans(h, h1, h', {q}, {t.size} + Tops(t.left, t.right) + if z.Root? then {} else {z.size});
  }

  lemma SidesIn(h: Links, u: Tree, x: int, up: int, right: bool)
    requires Repr(h, u, x, up) && u.Node?
    ensures x in h && h[x].size == u.size && h[x].parent == up && x != 0
    ensures Repr(h, Side(u, right), Child(h, x, right), x) && Repr(h, Side(u, !right), Child(h, x, !right), x)
  {
  }

  lemma FrameTrans(h: Links, h1: Links, h': Links, A: set<nat>, B: set<nat>)
    requires OnlySizes(h, h1, A) && Resized(h, h1) && OnlySizes(h1, h', B)
    ensures OnlySizes(h, h', A + B)
  {
  }

  /** Sizes that changes may touch: those of the tree before or after. */
  lemma Touched(z: Context, u: Tree, t: Tree, x: int, s: nat, w: Tree, lo0: nat, b0: nat, q: nat)
    requires Plug(z, u) == w && Plug(z, t) == Unlink(w, x, s, lo0, b0) && Ordered(w, lo0, b0) && Has(w, x, s)
    requires HasSize(u, q) || HasSize(t, q) || (!z.Root? && q == z.size)
    ensures HasSize(w, q)
  {
    if HasSize(t, q) {
      SizeIn(z, t, q);
      UnlinkSizes(w, x, s, lo0, b0, q);
    } else {
      SizeIn(z, u, q);
    }
  }

  lemma UpNotNull(h: Links, z: Context, p: int, up: int, p0: int, up0: int)
    requires Around(h, z, p, up, p0, up0) && up0 != 0
    ensures up != 0
  {
  }

  /** x is alone in its ring: the rightmost leaf on its right takes its place. */
  method FillRight(h: Links, x: int, p0: int, ghost z: Context, ghost u: Tree, ghost up: int, ghost up0: int,
      ghost t: Tree,
                   ghost lo0: nat, ghost b0: nat, ghost lo: nat, ghost b: nat)
      returns (h': Links, p0': int, ghost q: nat)
    requires Around(h, z, x, up, p0, up0) && Repr(h, u, x, up) && u.Node? && u.right.Node?
    requires t == Node(Leaf(u.right).size, Leaf(u.right).ring, u.left, Prune(u.right))
    requires Ordered(u, lo, b) && Ordered(Plug(z, u), lo0, b0) && Ordered(Plug(z, t), lo0, b0)
    ensures Repr(h', Plug(z, t), p0', up0) && Resized(h, h')
    ensures HasSize(u, q) && OnlySizes(h, h', {q} + Around4(z, u.size, t))
  {
    SidesIn(h, u, x, up, true);
    ghost var hi, k := NodeParts(z, u, lo0, b0, lo, b);
    h', p0', q := FillFrom(h, x, true, p0, z, u, u.right, u.left, up, up0, t, lo0, b0, hi, k);
  }

  /** x is alone in its ring and has nothing on its right: the rightmost leaf on its left takes its place. */
  method FillLeft(h: Links, x: int, p0: int, ghost z: Context, ghost u: Tree, ghost up: int, ghost up0: int,
      ghost t: Tree,
                  ghost lo0: nat, ghost b0: nat, ghost lo: nat, ghost b: nat)
      returns (h': Links, p0': int, ghost q: nat)
    requires Around(h, z, x, up, p0, up0) && Repr(h, u, x, up) && u.Node? && u.left.Node? && u.right.Nil?
    requires t == Node(Leaf(u.left).size, Leaf(u.left).ring, Prune(u.left), Nil)
    requires Ordered(u, lo, b) && Ordered(Plug(z, u), lo0, b0) && Ordered(Plug(z, t), lo0, b0)
    ensures Repr(h', Plug(z, t), p0', up0) && Resized(h, h')
    ensures HasSize(u, q) && OnlySizes(h, h', {q} + Around4(z, u.size, t))
  {
    SidesIn(h, u, x, up, false);
    ghost var hi, k := NodeParts(z, u, lo0, b0, lo, b);
    h', p0', q := FillFrom(h, x, false, p0, z, u, u.left, u.right, up, up0, t, lo0, b0, lo, k);
  }

  /** x, alone in its ring, leaves the tree. */
  method LeaveNode(h: Links, x: int, p0: int, ghost z: Context, ghost u: Tree, ghost up: int, ghost up0: int,
      ghost lo0: nat, ghost b0: nat, ghost lo: nat, ghost b: nat) returns (h': Links, p0': int, ghost q: nat)
    requires Around(h, z, x, up, p0, up0) && Repr(h, u, x, up) && u.Node? && !InContext(z, u.size)
    requires Ordered(u, lo, b) && Ordered(Plug(z, u), lo0, b0) && Ordered(Plug(z, Emptied(u)), lo0, b0)
    ensures Repr(h', Plug(z, Emptied(u)), p0', up0) && Resized(h, h')
    ensures HasSize(u, q) && OnlySizes(h, h', {q} + Near(z, u, Emptied(u)))
  {
    RootIn(h, u, x, up);
    RootIn(h, u.left, h[x].left, x);
    RootIn(h, u.right, h[x].right, x);
    if h[x].right != 0 {
      h', p0', q := FillRight(h, x, p0, z, u, up, up0, Emptied(u), lo0, b0, lo, b);
    } else if h[x].left != 0 {
      h', p0', q := FillLeft(h, x, p0, z, u, up, up0, Emptied(u), lo0, b0, lo, b);
    } else {
      h', p0' := Cut(h, x, p0, z, u, up, up0, lo0, b0);
      q := u.size;
    }
  }

  ghost function Near(z: Context, u: Tree, t: Tree): set<nat>
    requires u.Node?
  {
    if t.Node? then Around4(z, u.size, t) else if z.Root? then {u.size} else {u.size, z.size}
  }

  /** unlink_large_chunk of a chunk in the trie w at p0 */
  method Detach(h: Links, x: int, p0: int, ghost w: Tree, ghost up0: int, ghost lo0: nat, ghost b0: nat)
      returns (h': Links, p0': int, ghost w': Tree, ghost S: set<nat>)
    requires Repr(h, w, p0, up0) && up0 != 0 && Ordered(w, lo0, b0) && x in h && Has(w, x, h[x].size)
    ensures w' == Unlink(w, x, h[x].size, lo0, b0) && Repr(h', w', p0', up0)
    ensures OnlySizes(h, h', S) && InTree(w, S) && Resized(h, h')
  {
    ghost var s := h[x].size;
    ghost var z, u, lo, b := Focus(Root, w, x, s, lo0, b0);
    ghost var p, up := Unplugged(h, z, u, p0, up0);
    UnlinkOrdered(w, x, s, lo0, b0);
    ghost var q;
    h', p0', q := DetachAt(h, x, p0, z, u, p, up, up0, lo0, b0, lo, b);
    ghost var t := Unlink(u, x, s, lo, b);
    w' := Plug(z, t);
    S := {q} + Near(z, u, t);
    forall q' | q' in S ensures HasSize(w, q') {
      if q' != q { NearHas(z, u, t, q'); }
      Touched(z, u, t, x, s, w, lo0, b0, q');
    }
  }

  lemma NearHas(z: Context, u: Tree, t: Tree, q: nat)
    requires u.Node? && q in Near(z, u, t)
    ensures HasSize(u, q) || HasSize(t, q) || (!z.Root? && q == z.size)
  {
  }

  /** The three ways to go: from the tail of a ring, from its head, or as the only chunk of a node. */
  method DetachAt(h: Links, x: int, p0: int, ghost z: Context, ghost u: Tree, ghost p: int, ghost up: int,
      ghost up0: int,
                  ghost lo0: nat, ghost b0: nat, ghost lo: nat, ghost b: nat)
      returns (h': Links, p0': int, ghost q: nat)
    requires Around(h, z, p, up, p0, up0) && Repr(h, u, p, up) && u.Node? && x in u.ring && up0 != 0
    requires Ordered(u, lo, b) && Ordered(Plug(z, u), lo0, b0) && Ordered(Plug(z, Unlink(u, x, u.size, lo, b)), lo0, b0)
    ensures Repr(h', Plug(z, Unlink(u, x, u.size, lo, b)), p0', up0) && Resized(h, h')
    ensures HasSize(u, q) && OnlySizes(h, h', {q} + Near(z, u, Unlink(u, x, u.size, lo, b)))
  {
    ghost var l, k := Separate(z, u, lo0, b0);
    OrderedParts(u, lo, b);
    UpNotNull(h, z, p, up, p0, up0);
    Alone(h, u.ring, u.size, x);
    q, p0' := u.size, p0;
    if h[x].bk != x {
      if h[x].parent == 0 {
        h' := LeaveTail(h, x, z, u, p, up, p0, up0);
      } else {
        h', p0' := LeaveHead(h, x, p0, z, u, up, up0, lo0, b0);
      }
    } else {
      h', p0', q := LeaveNode(h, x, p0, z, u, up, up0, lo0, b0, lo, b);
    }
  }
}
