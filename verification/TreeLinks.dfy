/** Tree bins in memory: chunks linked by child, parent, fd and bk pointers, and the tries they stand for. */
module TreeLinks {
  import opened Digits
  import opened Trie

  /** The fields of a free chunk in a tree bin; 0 is the null pointer. */
  datatype Link = Link(size: nat, fd: int, bk: int, left: int, right: int, parent: int)

  type Links = map<int, Link>

  function Succ(ring: seq<int>, i: nat): int
    requires i < |ring|
  {
    if i + 1 < |ring| then ring[i + 1] else ring[0]
  }

  /** fd and bk agree between position j of a ring and the next. */
  ghost predicate Linked(h: Links, ring: seq<int>, j: nat) {
    j < |ring| && ring[j] in h && Succ(ring, j) in h && h[ring[j]].fd == Succ(ring, j) && h[Succ(ring, j)].bk == ring[j]
  }

  /** fd leads around the ring and bk back; only the first chunk is in the tree. */
  ghost predicate Ringed(h: Links, ring: seq<int>, size: nat) {
    && (forall c :: c in ring ==> c in h && c != 0 && h[c].size == size)
    && (forall j {:trigger Linked(h, ring, j)} :: 0 <= j < |ring| ==> Linked(h, ring, j))
    && (|ring| > 0 ==> forall c :: c in ring && c != ring[0] ==> h[c].parent == 0 && h[c].left == 0 && h[c].right == 0)
  }

  /** p points to the tree t, whose parent pointer is up. */
  ghost predicate Repr(h: Links, t: Tree, p: int, up: int) {
    match t
    case Nil => p == 0
    case Node(size, ring, left, right) =>
      && |ring| > 0 && p == ring[0] && Ringed(h, ring, size)
      && h[p].parent == up && Repr(h, left, h[p].left, p) && Repr(h, right, h[p].right, p)
  }

  /** A tree with a hole, from the hole outwards. */
  datatype Context =
    | Root
    | OnLeft(outer: Context, size: nat, ring: seq<int>, other: Tree)
    | OnRight(outer: Context, size: nat, ring: seq<int>, other: Tree)

  function Plug(z: Context, t: Tree): Tree {
    match z
    case Root => t
    case OnLeft(outer, size, ring, other) => Plug(outer, Node(size, ring, t, other))
    case OnRight(outer, size, ring, other) => Plug(outer, Node(size, ring, other, t))
  }

  predicate InContext(z: Context, s: nat) {
    !z.Root? && (z.size == s || HasSize(z.other, s) || InContext(z.outer, s))
  }

  /** The context is in memory, with p where the hole is; what belongs there has parent up. */
  ghost predicate Around(h: Links, z: Context, p: int, up: int, root: int, rootUp: int) {
    match z
    case Root => p == root && up == rootUp
    case OnLeft(outer, size, ring, other) =>
      && |ring| > 0 && up == ring[0] && Ringed(h, ring, size)
      && h[up].left == p && Repr(h, other, h[up].right, up)
      && Around(h, outer, up, h[up].parent, root, rootUp)
    case OnRight(outer, size, ring, other) =>
      && |ring| > 0 && up == ring[0] && Ringed(h, ring, size)
      && h[up].right == p && Repr(h, other, h[up].left, up)
      && Around(h, outer, up, h[up].parent, root, rootUp)
  }

  /** A tree in memory is its context and what fills the hole. */
  lemma {:induction false} Plugged(h: Links, z: Context, t: Tree, p: int, up: int, root: int, rootUp: int)
    requires Around(h, z, p, up, root, rootUp) && Repr(h, t, p, up)
    ensures Repr(h, Plug(z, t), root, rootUp)
  {
    match z
    case Root =>
    case OnLeft(outer, size, ring, other) =>
      Plugged(h, outer, Node(size, ring, t, other), up, h[up].parent, root, rootUp);
    case OnRight(outer, size, ring, other) =>
      Plugged(h, outer, Node(size, ring, other, t), up, h[up].parent, root, rootUp);
  }

  /** What fills a hole of a tree in memory is found in memory. */
  lemma {:induction false} Unplugged(h: Links, z: Context, t: Tree, root: int, rootUp: int) returns (p: int, up: int)
    requires Repr(h, Plug(z, t), root, rootUp)
    ensures Around(h, z, p, up, root, rootUp) && Repr(h, t, p, up)
  {
    match z
    case Root =>
      p, up := root, rootUp;
    case OnLeft(outer, size, ring, other) =>
      var q, qUp := Unplugged(h, outer, Node(size, ring, t, other), root, rootUp);
      p, up := h[q].left, q;
    case OnRight(outer, size, ring, other) =>
      var q, qUp := Unplugged(h, outer, Node(size, ring, other, t), root, rootUp);
      p, up := h[q].right, q;
  }

  /** What fills the hole of an ordered tree is ordered, and shares no size with the rest. */
  lemma {:induction false} Separate(z: Context, t: Tree, lo: nat, k: nat) returns (lo': nat, k': nat)
    requires Ordered(Plug(z, t), lo, k)
    ensures Ordered(t, lo', k')
    ensures forall s :: HasSize(t, s) ==> !InContext(z, s)
  {
    match z {
      case Root =>
        lo', k' := lo, k;
      case OnLeft(outer, size, ring, other) =>
        var n := Node(size, ring, t, other);
        lo', k' := Separate(outer, n, lo, k);
        forall s | HasSize(t, s) ensures !InContext(z, s) {
          assert HasSize(n, s);
          SidesApart(n, lo', k', s);
        }
        k' := if k' > 0 then k' - 1 else 0;
      case OnRight(outer, size, ring, other) =>
        var n := Node(size, ring, other, t);
        lo', k' := Separate(outer, n, lo, k);
        forall s | HasSize(t, s) ensures !InContext(z, s) {
          assert HasSize(n, s);
          SidesApart(n, lo', k', s);
        }
        if k' > 0 { lo', k' := lo' + Pow2(k' - 1), k' - 1; }
    }
  }

  lemma SidesApart(t: Tree, lo: nat, k: nat, s: nat)
    requires t.Node? && Ordered(t, lo, k)
    ensures !(HasSize(t.left, s) && HasSize(t.right, s))
    ensures HasSize(t.left, s) || HasSize(t.right, s) ==> t.size != s
  {
    if HasSize(t.left, s) { SizeInRange(t.left, s, lo, k - 1); }
    if HasSize(t.right, s) { SizeInRange(t.right, s, lo + Pow2(k - 1), k - 1); }
  }

  /** Only chunks of these sizes were changed, or chunks added. */
  ghost predicate OnlySizes(h: Links, h': Links, S: set<nat>) {
    forall c :: c in h && h[c].size !in S ==> c in h' && h'[c] == h[c]
  }

  ghost predicate NoneOf(t: Tree, S: set<nat>) {
    forall s :: s in S ==> !HasSize(t, s)
  }

  lemma {:induction false} ReprFrame(h: Links, h': Links, t: Tree, p: int, up: int, S: set<nat>)
    requires Repr(h, t, p, up) && OnlySizes(h, h', S) && NoneOf(t, S)
    ensures Repr(h', t, p, up)
  {
    if t.Node? {
      ReprFrame(h, h', t.left, h[p].left, p, S);
      ReprFrame(h, h', t.right, h[p].right, p, S);
      assert HasSize(t, t.size);
      RingFrame(h, h', t.ring, t.size, S);
    }
  }

  lemma RingFrame(h: Links, h': Links, ring: seq<int>, size: nat, S: set<nat>)
    requires Ringed(h, ring, size) && OnlySizes(h, h', S) && size !in S
    ensures Ringed(h', ring, size) && forall c :: c in ring ==> h'[c] == h[c]
  {
    forall j | 0 <= j < |ring| ensures Linked(h', ring, j) {
      assert Linked(h, ring, j) && ring[j] in ring && Succ(ring, j) in ring;
    }
  }

  lemma {:induction false} AroundFrame(h: Links, h': Links, z: Context, p: int, up: int, root: int, rootUp: int,
      S: set<nat>)
    requires Around(h, z, p, up, root, rootUp) && OnlySizes(h, h', S)
    requires forall s :: s in S ==> !InContext(z, s)
    ensures Around(h', z, p, up, root, rootUp)
  {
    if !z.Root? {
      RingFrame(h, h', z.ring, z.size, S);
      ReprFrame(h, h', z.other, if z.OnLeft? then h[up].right else h[up].left, up, S);
      AroundFrame(h, h', z.outer, up, h[up].parent, root, rootUp, S);
    }
  }

  function SetFd(h: Links, p: int, v: int): Links
    requires p in h
  {
    h[p := h[p].(fd := v)]
  }

  function SetBk(h: Links, p: int, v: int): Links
    requires p in h
  {
    h[p := h[p].(bk := v)]
  }

  function SetLeft(h: Links, p: int, v: int): Links
    requires p in h
  {
    h[p := h[p].(left := v)]
  }

  function SetRight(h: Links, p: int, v: int): Links
    requires p in h
  {
    h[p := h[p].(right := v)]
  }

  function SetParent(h: Links, p: int, v: int): Links
    requires p in h
  {
    h[p := h[p].(parent := v)]
  }

  /** The ring survives changes to tree pointers of its first chunk. */
  lemma SameRing(h: Links, h': Links, ring: seq<int>, size: nat)
    requires Ringed(h, ring, size) && |ring| > 0 && NoRepeats(ring)
    requires forall c :: c in h ==> c in h'
    requires forall c :: c in ring && c != ring[0] ==> h'[c] == h[c]
    requires var l, l' := h[ring[0]], h'[ring[0]]; l'.fd == l.fd && l'.bk == l.bk && l'.size == l.size
    ensures Ringed(h', ring, size)
  {
    forall j | 0 <= j < |ring| ensures Linked(h', ring, j) {
      assert Linked(h, ring, j) && ring[j] in ring && Succ(ring, j) in ring;
    }
  }

  /** The slot that the hole in a context is gets another pointer. */
  lemma SlotWritten(h: Links, z: Context, p: int, up: int, root: int, rootUp: int, p': int)
    requires Around(h, z, p, up, root, rootUp) && !z.Root? && NoRepeats(z.ring)
    requires !InContext(z.outer, z.size) && !HasSize(z.other, z.size)
    ensures up in h
    ensures var h' := if z.OnLeft? then SetLeft(h, up, p') else SetRight(h, up, p');
      Around(h', z, p', up, root, rootUp) && OnlySizes(h, h', {z.size})
  {
    var h' := if z.OnLeft? then SetLeft(h, up, p') else SetRight(h, up, p');
    SameRing(h, h', z.ring, z.size);
    ReprFrame(h, h', z.other, if z.OnLeft? then h[up].right else h[up].left, up, {z.size});
    AroundFrame(h, h', z.outer, up, h[up].parent, root, rootUp, {z.size});
  }

  /** The innermost node of a context differs in size from the rest. */
  lemma InnerApart(z: Context, t: Tree, lo: nat, k: nat)
    requires Ordered(Plug(z, t), lo, k) && !z.Root?
    ensures NoRepeats(z.ring) && !InContext(z.outer, z.size) && !HasSize(z.other, z.size)
  {
    var n := if z.OnLeft? then Node(z.size, z.ring, t, z.other) else Node(z.size, z.ring, z.other, t);
    var lo', k' := Separate(z.outer, n, lo, k);
    assert HasSize(n, z.size);
    SidesApart(n, lo', k', z.size);
  }

  /** The root of a tree gets another parent pointer. */
  lemma Reparented(h: Links, t: Tree, p: int, up: int, up': int)
    requires Repr(h, t, p, up) && t.Node? && NoRepeats(t.ring) && !HasSize(t.left, t.size) && !HasSize(t.right, t.size)
    ensures p in h
    ensures var h' := SetParent(h, p, up'); Repr(h', t, p, up') && OnlySizes(h, h', {t.size})
  {
    var h' := SetParent(h, p, up');
    SameRing(h, h', t.ring, t.size);
    ReprFrame(h, h', t.left, h[p].left, p, {t.size});
    ReprFrame(h, h', t.right, h[p].right, p, {t.size});
  }

  /** A chunk of a size already in the tree is chained behind the tree node. */
  lemma Chained(h: Links, t: Tree, p: int, up: int, x: int)
    requires Repr(h, t, p, up) && t.Node? && NoRepeats(t.ring) && !HasSize(t.left, t.size) && !HasSize(t.right, t.size)
    requires x !in h && x != 0
    ensures p in h && h[p].fd in h
    ensures var f := h[p].fd;
      var h' := SetBk(SetFd(h, p, x), f, x)[x := Link(t.size, f, p, 0, 0, 0)];
      Repr(h', t.(ring := [t.ring[0], x] + t.ring[1..]), p, up) && OnlySizes(h, h', {t.size})
  {
    var f := h[p].fd;
    Neighbours(h, t.ring, t.size, 0);
    var h' := SetBk(SetFd(h, p, x), f, x)[x := Link(t.size, f, p, 0, 0, 0)];
    ReprFrame(h, h', t.left, h[p].left, p, {t.size});
    ReprFrame(h, h', t.right, h[p].right, p, {t.size});
    ChainedRing(h, h', t.ring, t.size, x);
  }

  lemma ChainedRing(h: Links, h': Links, ring: seq<int>, size: nat, x: int)
    requires |ring| > 0 && NoRepeats(ring) && Ringed(h, ring, size) && x !in h && x != 0
    requires var p, f := ring[0], h[ring[0]].fd;
      f in h && h' == SetBk(SetFd(h, p, x), f, x)[x := Link(size, f, p, 0, 0, 0)]
    ensures Ringed(h', [ring[0], x] + ring[1..], size)
    ensures h'[ring[0]].left == h[ring[0]].left && h'[ring[0]].right == h[ring[0]].right
    ensures h'[ring[0]].parent == h[ring[0]].parent
  {
    var r := [ring[0], x] + ring[1..];
    assert forall c :: c in r <==> c in ring || c == x;
    forall j | 0 <= j < |r| ensures Linked(h', r, j) {
      ChainedLink(h, h', ring, size, x, j);
    }
  }

  lemma ChainedLink(h: Links, h': Links, ring: seq<int>, size: nat, x: int, j: nat)
    requires |ring| > 0 && NoRepeats(ring) && Ringed(h, ring, size) && x !in h && j <= |ring|
    requires var p, f := ring[0], h[ring[0]].fd;
      f in h && h' == SetBk(SetFd(h, p, x), f, x)[x := Link(size, f, p, 0, 0, 0)]
    ensures Linked(h', [ring[0], x] + ring[1..], j)
  {
    var r := [ring[0], x] + ring[1..];
    Neighbours(h, ring, size, 0);
    if j >= 2 {
      assert r[j] == ring[j - 1] && Succ(r, j) == Succ(ring, j - 1);
      assert Linked(h, ring, j - 1) && ring[j - 1] in ring && Succ(ring, j - 1) in ring;
    }
  }

  /** A chunk is taken out of a ring of several: its neighbours are linked. */
  lemma RingClosed(h: Links, ring: seq<int>, size: nat, x: int)
    requires |ring| > 1 && NoRepeats(ring) && Ringed(h, ring, size) && x in ring
    ensures x in h && h[x].fd in h && h[x].bk in h
    ensures var f, r := h[x].fd, h[x].bk;
      var h' := SetFd(SetBk(h, f, r), r, f);
      Ringed(h', Unring(ring, x), size) && OnlySizes(h, h', {size}) && NoRepeats(Unring(ring, x))
  {
    UnringHas(ring, x);
    var i := Position(ring, x);
    var f, r := h[x].fd, h[x].bk;
    Neighbours(h, ring, size, i);
    var h', r' := SetFd(SetBk(h, f, r), r, f), Unring(ring, x);
    if i == 0 { FirstOut(h, h', ring, size, r'); } else { LaterOut(h, h', ring, size, i, r'); }
  }

  /** Relinking neighbours leaves the tree pointers alone. */
  lemma OnlyRing(h: Links, f: int, r: int)
    requires f in h && r in h
    ensures var h' := SetFd(SetBk(h, f, r), r, f);
      && h'.Keys == h.Keys
      && forall c :: c in h ==>
        h'[c].size == h[c].size && h'[c].parent == h[c].parent && h'[c].left == h[c].left && h'[c].right == h[c].right
  {
  }

  lemma Neighbours(h: Links, ring: seq<int>, size: nat, i: nat)
    requires Ringed(h, ring, size) && i < |ring|
    ensures ring[i] in h && h[ring[i]].fd == Succ(ring, i) &&
      h[ring[i]].bk == ring[if i == 0 then |ring| - 1 else i - 1]
    ensures h[ring[i]].fd in h && h[ring[i]].bk in h
  {
    var j := if i == 0 then |ring| - 1 else i - 1;
    assert Succ(ring, j) == ring[i];
    assert Linked(h, ring, i) && Linked(h, ring, j);
    assert Succ(ring, i) in ring && ring[j] in ring;
  }

  lemma FirstOut(h: Links, h': Links, ring: seq<int>, size: nat, r': seq<int>)
    requires |ring| > 1 && r' == [ring[|ring| - 1]] + ring[1..|ring| - 1] && NoRepeats(ring) && Ringed(h, ring, size)
    requires var f, r := Succ(ring, 0), ring[|ring| - 1];
      f in h && r in h && h' == SetFd(SetBk(h, f, r), r, f)
    ensures forall j :: 0 <= j < |r'| ==> Linked(h', r', j)
  {
    var n := |ring|;
    forall j | 0 <= j < n - 1 ensures Linked(h', r', j) {
      var j' := if j == 0 then n - 1 else j;
      assert Linked(h, ring, j') && Linked(h, ring, 0) && Linked(h, ring, j);
      assert r'[j] == ring[j'];
      assert Succ(r', j) == if j == 0 && n == 2 then ring[1] else Succ(ring, j);
    }
  }

  lemma LaterOut(h: Links, h': Links, ring: seq<int>, size: nat, i: nat, r': seq<int>)
    requires 0 < i < |ring| && r' == ring[..i] + ring[i + 1..] && NoRepeats(ring) && Ringed(h, ring, size)
    requires var f, r := Succ(ring, i), ring[i - 1];
      f in h && r in h && h' == SetFd(SetBk(h, f, r), r, f)
    ensures forall j :: 0 <= j < |r'| ==> Linked(h', r', j)
  {
    forall j | 0 <= j < |ring| - 1 ensures Linked(h', r', j) {
      var j' := if j < i then j else j + 1;
      assert Linked(h, ring, j') && Linked(h, ring, i);
      assert r'[j] == ring[j'];
      assert Succ(r', j) == Succ(ring, if j == i - 1 then i else j');
    }
  }

  ghost predicate NodeOk(left: Tree, right: Tree, ring: seq<int>, size: nat, lo: nat, k: nat) {
    Ordered(Node(size, ring, left, right), lo, k)
  }

  /** A tree pointer of r is set: the ring r heads and the trees below others do not notice. */
  lemma PointerSet(h: Links, ring: seq<int>, size: nat, l: Link, left: Tree, c: int, cUp: int, right: Tree, d: int,
      dUp: int)
    requires |ring| > 0 && NoRepeats(ring) && Ringed(h, ring, size)
    requires ring[0] in h && l.fd == h[ring[0]].fd && l.bk == h[ring[0]].bk && l.size == size
    requires Repr(h, left, c, cUp) && Repr(h, right, d, dUp) && !HasSize(left, size) && !HasSize(right, size)
    ensures var h' := h[ring[0] := l];
      Ringed(h', ring, size) && Repr(h', left, c, cUp) && Repr(h', right, d, dUp) && OnlySizes(h, h', {size})
  {
    var h' := h[ring[0] := l];
    SameRing(h, h', ring, size);
    ReprFrame(h, h', left, c, cUp, {size});
    ReprFrame(h, h', right, d, dUp, {size});
  }

  /** The tree at c gets the parent r: a ring and a tree of other sizes do not notice. */
  lemma ChildMoved(h: Links, ring: seq<int>, size: nat, r: int, t: Tree, c: int, cUp: int, other: Tree, d: int,
      dUp: int)
    requires Ringed(h, ring, size) && t.Node? && Repr(h, t, c, cUp) && Repr(h, other, d, dUp)
    requires NoRepeats(t.ring) && !HasSize(t.left, t.size) && !HasSize(t.right, t.size)
    requires t.size != size && !HasSize(other, t.size)
    ensures c in h
    ensures var h' := SetParent(h, c, r);
      && Ringed(h', ring, size) && (forall e :: e in ring ==> h'[e] == h[e])
      && Repr(h', t, c, r) && Repr(h', other, d, dUp) && OnlySizes(h, h', {t.size})
  {
    Reparented(h, t, c, cUp, r);
    var h' := SetParent(h, c, r);
    RingFrame(h, h', ring, size, {t.size});
    ReprFrame(h, h', other, d, dUp, {t.size});
  }

  function AdoptLeft(h: Links, r: int, c: int): Links
    requires r in h && (c != 0 ==> c in h)
  {
    if c != 0 then SetParent(SetLeft(h, r, c), c, r) else h
  }

  function AdoptRight(h: Links, r: int, c: int): Links
    requires r in h && (c != 0 ==> c in h)
  {
    if c != 0 then SetParent(SetRight(h, r, c), c, r) else h
  }

  lemma RootIn(h: Links, t: Tree, p: int, up: int)
    requires Repr(h, t, p, up)
    ensures p != 0 <==> t.Node?
    ensures t.Node? ==> p in h && h[p].size == t.size && p == t.ring[0]
  {
  }

  /** A subtree that can hang below a node of this size, beside the other. */
  ghost predicate Hangs(t: Tree, other: Tree, size: nat) {
    !HasSize(t, size) && (t.Node? ==>
      NoRepeats(t.ring) && !HasSize(t.left, t.size) && !HasSize(t.right, t.size) && t.size != size &&
        !HasSize(other, t.size))
  }

  lemma BothHang(left: Tree, right: Tree, ring: seq<int>, size: nat, lo: nat, k: nat)
    requires NodeOk(left, right, ring, size, lo, k)
    ensures Hangs(left, right, size) && Hangs(right, left, size) && NoRepeats(ring)
  {
    SizesApart(left, right, ring, size, lo, k);
    if left.Node? { OrderedParts(left, lo, k - 1); }
    if right.Node? { OrderedParts(right, lo + Pow2(k - 1), k - 1); }
  }

  /** The left subtree changes from x to r. */
  lemma LeftTaken(h: Links, x: int, r: int, ring: seq<int>, size: nat, left: Tree, c: int, right: Tree, d: int)
    requires |ring| > 0 && r == ring[0] && Ringed(h, ring, size) && NoRepeats(ring)
    requires left.Node? && Hangs(left, right, size) && !HasSize(right, size)
    requires Repr(h, left, c, x) && Repr(h, right, d, x)
    ensures c in h
    ensures var h' := AdoptLeft(h, r, c); Ringed(h', ring, size) && Repr(h', left, c, r) && Repr(h', right, d, x)
  {
    PointerSet(h, ring, size, h[r].(left := c), left, c, x, right, d, x);
    ChildMoved(SetLeft(h, r, c), ring, size, r, left, c, x, right, d, x);
  }

  /** The right subtree changes from x to r. */
  lemma RightTaken(h: Links, x: int, r: int, ring: seq<int>, size: nat, left: Tree, c: int, right: Tree, d: int)
    requires |ring| > 0 && r == ring[0] && Ringed(h, ring, size) && NoRepeats(ring)
    requires right.Node? && Hangs(right, left, size) && !HasSize(left, size)
    requires Repr(h, left, c, r) && Repr(h, right, d, x)
    ensures d in h
    ensures var h' := AdoptRight(h, r, d); Ringed(h', ring, size) && Repr(h', left, c, r) && Repr(h', right, d, r)
  {
    PointerSet(h, ring, size, h[r].(right := d), left, c, r, right, d, x);
    ChildMoved(SetRight(h, r, d), ring, size, r, right, d, x, left, c, r);
  }

  lemma OrderedParts(t: Tree, lo: nat, k: nat)
    requires t.Node? && Ordered(t, lo, k)
    ensures NoRepeats(t.ring) && !HasSize(t.left, t.size) && !HasSize(t.right, t.size) && HasSize(t, t.size)
  {
  }

  lemma SizesApart(left: Tree, right: Tree, ring: seq<int>, size: nat, lo: nat, k: nat)
    requires NodeOk(left, right, ring, size, lo, k)
    ensures left.Node? ==> left.size != size && !HasSize(right, left.size)
    ensures right.Node? ==> right.size != size && !HasSize(left, right.size)
    ensures !HasSize(left, size) && !HasSize(right, size)
  {
    var t := Node(size, ring, left, right);
    if left.Node? { SidesApart(t, lo, k, left.size); }
    if right.Node? { SidesApart(t, lo, k, right.size); }
  }

  /** r gets the parent and the children of x. */
  function TakeOver(h: Links, x: int, r: int): Links
    requires x in h && r in h
    requires (h[x].left != 0 ==> h[x].left in h) && (h[x].right != 0 ==> h[x].right in h)
  {
    AdoptRight(AdoptLeft(SetParent(h, r, h[x].parent), r, h[x].left), r, h[x].right)
  }

  /** The tree under x is now under r. */
  lemma TookOver(h: Links, x: int, r: int, ring: seq<int>, size: nat, left: Tree, right: Tree)
    requires x in h && |ring| > 0 && r == ring[0] && Ringed(h, ring, size) && NoRepeats(ring)
    requires h[r].left == 0 && h[r].right == 0 && Hangs(left, right, size) && Hangs(right, left, size)
    requires Repr(h, left, h[x].left, x) && Repr(h, right, h[x].right, x)
    ensures (h[x].left != 0 ==> h[x].left in h) && (h[x].right != 0 ==> h[x].right in h)
    ensures Repr(TakeOver(h, x, r), Node(size, ring, left, right), r, h[x].parent)
    ensures OnlySizes(h, TakeOver(h, x, r), {size} + Tops(left, right))
  {
    var c, d := h[x].left, h[x].right;
    RootIn(h, left, c, x);
    RootIn(h, right, d, x);
    var h1 := SetParent(h, r, h[x].parent);
    PointerSet(h, ring, size, h[r].(parent := h[x].parent), left, c, x, right, d, x);
    if left.Node? { LeftTaken(h1, x, r, ring, size, left, c, right, d); }
    if right.Node? { RightTaken(AdoptLeft(h1, r, c), x, r, ring, size, left, c, right, d); }
  }

  ghost function Tops(left: Tree, right: Tree): set<nat> {
    (if left.Node? then {left.size} else {}) + if right.Node? then {right.size} else {}
  }

  /** The search in tree w, at p0, has come to the subtree u at p. */
  ghost predicate Reached(h: Links, w: Tree, p0: int, up0: int, z: Context, u: Tree, p: int, up: int) {
    Plug(z, u) == w && Around(h, z, p, up, p0, up0) && Repr(h, u, p, up)
  }

  function Deeper(z: Context, u: Tree, right: bool): Context
    requires u.Node?
  {
    if right then OnRight(z, u.size, u.ring, u.left) else OnLeft(z, u.size, u.ring, u.right)
  }

  function Side(u: Tree, right: bool): Tree
    requires u.Node?
  {
    if right then u.right else u.left
  }

  /** One step down, to either side. */
  lemma StepDown(h: Links, w: Tree, p0: int, up0: int, z: Context, u: Tree, p: int, up: int, right: bool)
    requires Reached(h, w, p0, up0, z, u, p, up) && u.Node?
    ensures p in h
    ensures Reached(h, w, p0, up0, Deeper(z, u, right), Side(u, right), if right then h[p].right else h[p].left, p)
  {
    assert Plug(Deeper(z, u, right), Side(u, right)) == Plug(z, u);
  }

  /** The sizes on the way to the hole are in the tree. */
  lemma {:induction false} SizeIn(z: Context, u: Tree, s: nat)
    requires InContext(z, s) || HasSize(u, s)
    ensures HasSize(Plug(z, u), s)
  {
    match z
    case Root =>
    case OnLeft(outer, size, ring, other) => SizeIn(outer, Node(size, ring, u, other), s);
    case OnRight(outer, size, ring, other) => SizeIn(outer, Node(size, ring, other, u), s);
  }

  lemma Replanted(h: Links, h': Links, z: Context, up: int, p0: int, up0: int, r: int, t: Tree, S: set<nat>)
    requires Around(h, z, r, up, p0, up0) && OnlySizes(h, h', S) && Repr(h', t, r, up)
    requires forall q :: q in S ==> !InContext(z, q)
    ensures Repr(h', Plug(z, t), p0, up0)
  {
    AroundFrame(h, h', z, r, up, p0, up0, S);
    Plugged(h', z, t, r, up, p0, up0);
  }
}
