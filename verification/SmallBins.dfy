/** The small bins of malloc.c: one circular list of free chunks for each size below 256. */
module SmallBinning {
  import opened Digits
  import opened BinMaps

  /** The fields of a free chunk in a list; a list's header has only fd and bk. */
  datatype Node = Node(size: nat, fd: int, bk: int)

  type Nodes = map<int, Node>

  const MIN_LARGE := 256

  /** smallbin_at(i), the header of list i; no chunk has this address. */
  function Header(i: nat): int {
    -1 - i
  }

  /** small_index */
  function SmallIndex(s: nat): nat { s / 8 }

  /** small_index2size */
  function SmallSize(i: nat): nat { 8 * i }

  function Succ(ring: seq<int>, i: nat): int
    requires i < |ring|
  {
    if i + 1 < |ring| then ring[i + 1] else ring[0]
  }

  ghost predicate Linked(f: Nodes, ring: seq<int>, j: nat) {
    j < |ring| && ring[j] in f && Succ(ring, j) in f && f[ring[j]].fd == Succ(ring, j) && f[Succ(ring, j)].bk == ring[j]
  }

  ghost predicate NoRepeats(ring: seq<int>) {
    forall i, j :: 0 <= i < j < |ring| ==> ring[i] != ring[j]
  }

  /** fd leads around the ring and bk back. */
  ghost predicate Circular(f: Nodes, ring: seq<int>) {
    NoRepeats(ring) && forall j {:trigger Linked(f, ring, j)} :: 0 <= j < |ring| ==> Linked(f, ring, j)
  }

  type Lists = map<nat, seq<int>>

  ghost predicate Chunk(f: Nodes, i: nat, c: int) {
    c > 0 && c in f && f[c].size == SmallSize(i)
  }

  /** An empty list's header is stale: only its bit counts. */
  ghost predicate ListOk(f: Nodes, smallmap: nat, lists: Lists, i: nat) {
    && i in lists && Header(i) in f && (On(smallmap, i) <==> lists[i] != [])
    && (lists[i] != [] ==> Circular(f, [Header(i)] + lists[i]))
    && forall c {:trigger Chunk(f, i, c)} :: c in lists[i] ==> Chunk(f, i, c)
  }

  ghost predicate InList(f: Nodes, lists: Lists, c: int)
    requires c in f
  {
    var i := SmallIndex(f[c].size);
    16 <= f[c].size < MIN_LARGE && f[c].size % 8 == 0 && i in lists && c in lists[i]
  }

  ghost predicate ListsOk(f: Nodes, smallmap: nat, lists: Lists) {
    && smallmap < Pow2(BINS)
    && (forall i: nat {:trigger ListOk(f, smallmap, lists, i)} :: i < BINS ==> ListOk(f, smallmap, lists, i))
    && (forall c {:trigger InList(f, lists, c)} :: c in f && c > 0 ==> InList(f, lists, c))
    && (forall c :: c in f && c <= 0 ==> exists i: nat :: i < BINS && c == Header(i))
  }

  ghost function ChunksOf(f: Nodes): map<int, nat> {
    map c | c in f && c > 0 :: f[c].size
  }

  /** Other lists do not notice changes to chunks of one list and its header. */
  lemma OtherList(f: Nodes, f': Nodes, smallmap: nat, smallmap': nat, lists: Lists, lists': Lists, i: nat, j: nat)
    requires ListOk(f, smallmap, lists, j) && i != j && j in lists' && lists'[j] == lists[j]
    requires On(smallmap', j) <==> On(smallmap, j)
    requires forall c :: c in f && c != Header(i) && (c > 0 ==> f[c].size != SmallSize(i)) ==> c in f' && f'[c] == f[c]
    ensures ListOk(f', smallmap', lists', j)
  {
    var ring := [Header(j)] + lists[j];
    forall c | c in lists[j] ensures Chunk(f', j, c) { assert Chunk(f, j, c); }
    if lists[j] != [] {
      forall k | 0 <= k < |ring| ensures Linked(f', ring, k) {
        assert Linked(f, ring, k);
        RingMember(lists[j], j, k);
        RingMember(lists[j], j, if k + 1 < |ring| then k + 1 else 0);
        assert lists[j] != [] && forall c :: c in lists[j] ==> Chunk(f, j, c);
      }
    }
  }

  lemma RingMember(list: seq<int>, i: nat, k: nat)
    requires k <= |list|
    ensures var c := ([Header(i)] + list)[k]; c == Header(i) || c in list
  {
  }

  /** A chunk pushed in front of a list. */
  lemma Pushed(f: Nodes, f': Nodes, i: nat, list: seq<int>, x: int, s: nat, b: int)
    requires x > 0 && x !in f && b == Header(i) && b in f && (list != [] ==> Circular(f, [b] + list))
    requires forall c :: c in list ==> c > 0
    requires var g := if list == [] then b else list[0];
      g in f && f' == (var f1 := f[b := f[b].(fd := x)]; f1[g := f1[g].(bk := x)])[x := Node(s, g, b)]
    ensures Circular(f', [b, x] + list)
  {
    var r, r' := [b] + list, [b, x] + list;
    assert forall k :: 0 <= k < |r| ==> r[k] == b || r[k] in list;
    forall j | 0 <= j < |r'| ensures Linked(f', r', j) {
      if list != [] {
        assert Linked(f, r, 0);
        if j >= 2 {
          assert Linked(f, r, j - 1);
          assert r'[j] == r[j - 1] && Succ(r', j) == Succ(r, j - 1);
        }
      }
    }
    forall k, l | 0 <= k < l < |r'| ensures r'[k] != r'[l] {
      PushedApart(f, r, list, x, b, k, l);
    }
  }

  lemma PushedApart(f: Nodes, r: seq<int>, list: seq<int>, x: int, b: int, k: nat, l: nat)
    requires r == [b] + list && (list != [] ==> Circular(f, r)) && x !in f && b in f && x != b && k < l <= |list| + 1
    ensures ([b, x] + list)[k] != ([b, x] + list)[l]
  {
    if l >= 2 {
      assert Linked(f, r, l - 1);
      if k != 1 { assert r[if k == 0 then 0 else k - 1] != r[l - 1]; }
    }
  }

  /** A chunk taken out of a list: its neighbours are linked. */
  lemma Taken(f: Nodes, f': Nodes, r: seq<int>, i: nat, r': seq<int>)
    requires Circular(f, r) && 0 < i < |r| && r' == r[..i] + r[i + 1..]
    requires var g, b := Succ(r, i), r[i - 1];
      g in f && b in f && f' == (var f1 := f[g := f[g].(bk := b)]; f1[b := f1[b].(fd := g)])
    ensures Circular(f', r')
  {
    forall j | 0 <= j < |r'| ensures Linked(f', r', j) {
      var j' := if j < i then j else j + 1;
      assert Linked(f, r, j') && Linked(f, r, i);
      assert r'[j] == r[j'];
      assert Succ(r', j) == Succ(r, if j == i - 1 then i else j');
    }
    forall k, l | 0 <= k < l < |r'| ensures r'[k] != r'[l] {
      assert r'[k] == r[if k < i then k else k + 1] && r'[l] == r[if l < i then l else l + 1];
    }
  }

  lemma Around(f: Nodes, r: seq<int>, i: nat)
    requires Circular(f, r) && i < |r|
    ensures r[i] in f && f[r[i]].fd == Succ(r, i) && f[r[i]].bk == r[if i == 0 then |r| - 1 else i - 1]
    ensures f[r[i]].fd in f && f[r[i]].bk in f
  {
    assert Linked(f, r, i) && Linked(f, r, if i == 0 then |r| - 1 else i - 1);
  }

  function Without(list: seq<int>, k: nat): seq<int>
    requires k < |list|
  {
    list[..k] + list[k + 1..]
  }

  lemma WithoutHas(list: seq<int>, k: nat, ring: seq<int>, h: int)
    requires k < |list| && ring == [h] + list && NoRepeats(ring)
    ensures forall c :: c in Without(list, k) <==> c in list && c != list[k]
    ensures ring[..k + 1] + ring[k + 2..] == [h] + Without(list, k)
  {
    forall c | c in list && c != list[k] ensures c in Without(list, k) {
      var j :| 0 <= j < |list| && list[j] == c;
      assert Without(list, k)[if j < k then j else j - 1] == c;
    }
    forall c | c in Without(list, k) ensures c in list && c != ring[k + 1] {
      var j :| 0 <= j < |list| - 1 && Without(list, k)[j] == c;
      assert ring[if j < k then j + 1 else j + 2] == c;
    }
  }

  /** Chunks of other sizes and other headers are as before; chunks but x keep their sizes. */
  ghost predicate OnlyList(f: Nodes, f': Nodes, i: nat, x: int) {
    && f'.Keys + {x} == f.Keys + {x}
    && (forall c :: c in f && c != Header(i) && c != x && (c > 0 ==> f[c].size != SmallSize(i)) ==> f'[c] == f[c])
    && (forall c :: c in f && c > 0 && c != x ==> f'[c].size == f[c].size)
    && (x in f' ==> f'[x].size == SmallSize(i)) && (x in f ==> f[x].size == SmallSize(i))
  }

  /** One list changes by x, the others stay. */
  lemma OneList(f: Nodes, f': Nodes, smallmap: nat, smallmap': nat, lists: Lists, list: seq<int>, i: nat, x: int)
    requires ListsOk(f, smallmap, lists) && i < BINS && smallmap' < Pow2(BINS) && x > 0 && OnlyList(f, f', i, x)
    requires ListOk(f', smallmap', lists[i := list], i)
    requires forall j: nat :: j != i ==> (On(smallmap', j) <==> On(smallmap, j))
    requires i in lists && 16 <= SmallSize(i) && forall c :: c in lists[i] || c == x ==> (c in f' ==> c in list)
    ensures ListsOk(f', smallmap', lists[i := list])
  {
    var lists' := lists[i := list];
    forall j: nat | j < BINS ensures ListOk(f', smallmap', lists', j) {
      if j != i {
        assert ListOk(f, smallmap, lists, j);
        OtherList(f, f', smallmap, smallmap', lists, lists', i, j);
      }
    }
    forall c | c in f' && c > 0 ensures InList(f', lists', c) { StillInList(f, f', smallmap, lists, list, i, x, c); }
    forall c | c in f' && c <= 0 ensures exists j: nat :: j < BINS && c == Header(j) {
      if c == Header(i) { } else { assert c in f; }
    }
  }

  lemma StillInList(f: Nodes, f': Nodes, smallmap: nat, lists: Lists, list: seq<int>, i: nat, x: int, c: int)
    requires ListsOk(f, smallmap, lists) && i < BINS && OnlyList(f, f', i, x) && c in f' && c > 0
    requires i in lists && 16 <= SmallSize(i) && forall d :: d in lists[i] || d == x ==> (d in f' ==> d in list)
    ensures InList(f', lists[i := list], c)
  {
    if c != x { assert InList(f, lists, c); }
  }

  class SmallBins {
    var f: Nodes
    var smallmap: nat
    ghost var lists: Lists

    ghost predicate Valid()
      reads this
    {
      ListsOk(f, smallmap, lists)
    }

    /** The chunks in the bins with their sizes. */
    ghost function Held(): map<int, nat>
      reads this
    {
      ChunksOf(f)
    }

    /** init_bins: no list has chunks */
    constructor ()
      ensures Valid() && Held() == map[]
    {
      f := map i: int | -BINS <= i < 0 :: Node(0, i, i);
      smallmap := 0;
      lists := map i: nat {:trigger Header(i)} | i < BINS :: [];
      new;
      forall i: nat ensures !On(smallmap, i) { ZeroOn(i); }
      forall c | c in f && c <= 0 ensures exists i: nat :: i < BINS && c == Header(i) { assert c == Header(-1 - c); }
    }

    /** insert_small_chunk */
    method Insert(x: int, s: nat)
      requires Valid() && x > 0 && x !in f && 16 <= s < MIN_LARGE && s % 8 == 0
      modifies this
      ensures Valid() && Held() == old(Held())[x := s]
    {
      var i := SmallIndex(s);
      var b := Header(i);
      assert ListOk(f, smallmap, lists, i);
      var g := b;
      var m := smallmap;
      if !On(smallmap, i) {
        m := MarkBin(m, i);
      } else {
        Around(f, [b] + lists[i], 0);
        g := f[b].fd;
      }
      forall c | c in lists[i] ensures c > 0 { assert Chunk(f, i, c); }
      var f1 := f[b := f[b].(fd := x)];
      f1 := f1[g := f1[g].(bk := x)][x := Node(s, g, b)];
      ghost var lists' := lists[i := [x] + lists[i]];
      Pushed(f, f1, i, lists[i], x, s, b);
      Inserted(f, f1, smallmap, m, lists, i, x, s, g);
      f, smallmap, lists := f1, m, lists';
    }

    /** unlink_small_chunk */
    method Unlink(x: int)
      requires Valid() && x in f && x > 0
      modifies this
      ensures Valid() && Held() == old(Held()) - {x}
    {
      var i := SmallIndex(f[x].size);
      assert InList(f, lists, x) && ListOk(f, smallmap, lists, i);
      ghost var k :| 0 <= k < |lists[i]| && lists[i][k] == x;
      ghost var r := [Header(i)] + lists[i];
      Around(f, r, k + 1);
      var g, b := f[x].fd, f[x].bk;
      LastOne(f, r, k + 1);
      var f1, m := f, smallmap;
      if b == g {
        m := ClearBin(m, i);
      } else {
        f1 := f1[g := f1[g].(bk := b)];
        f1 := f1[b := f1[b].(fd := g)];
        Taken(f, f1, r, k + 1, r[..k + 1] + r[k + 2..]);
      }
      Removed(f, f1, smallmap, m, lists, i, k, x, g, b);
      f, smallmap, lists := f1 - {x}, m, lists[i := Without(lists[i], k)];
    }

    /** b->fd of a list that is not empty, and its size */
    method First(i: nat) returns (p: int)
      requires Valid() && i < BINS && On(smallmap, i)
      ensures p in Held() && Held()[p] == SmallSize(i)
    {
      assert ListOk(f, smallmap, lists, i);
      Around(f, [Header(i)] + lists[i], 0);
      p := f[Header(i)].fd;
      assert Chunk(f, i, p);
    }

    /** The bits tell which sizes there are. */
    lemma Sizes(i: nat)
      requires Valid() && i < BINS
      ensures On(smallmap, i) <==> exists c :: c in Held() && Held()[c] == SmallSize(i)
    {
      assert ListOk(f, smallmap, lists, i);
      forall c | c in Held() && Held()[c] == SmallSize(i) ensures On(smallmap, i) { assert InList(f, lists, c); }
      if On(smallmap, i) {
        assert Chunk(f, i, lists[i][0]);
        assert lists[i][0] in Held();
      }
    }
  }

  /** The neighbours of a chunk in a list are the same only if it is the only one. */
  lemma LastOne(f: Nodes, r: seq<int>, i: nat)
    requires Circular(f, r) && 0 < i < |r|
    ensures Succ(r, i) == r[i - 1] <==> |r| == 2
  {
    if |r| > 2 { assert Succ(r, i) == r[if i + 1 < |r| then i + 1 else 0]; }
  }

  /** What it takes for x to have been unlinked: k is its place in list i, g and b its neighbours. */
  ghost predicate Unlinking(f: Nodes, f1: Nodes, smallmap: nat, m: nat, lists: Lists, i: nat, k: nat, x: int, g: int,
      b: int)
  {
    && ListsOk(f, smallmap, lists) && i < BINS && m < Pow2(BINS) && i in lists && k < |lists[i]| && lists[i][k] == x
    && (forall j: nat :: On(m, j) <==> (j != i || |lists[i]| > 1) && On(smallmap, j))
    && f1.Keys == f.Keys && (forall c :: c in f && c != g && c != b ==> f1[c] == f[c])
    && (forall c :: c in f && c > 0 ==> f1[c].size == f[c].size)
    && (g == Header(i) || g in lists[i]) && (b == Header(i) || b in lists[i])
    && (|lists[i]| > 1 ==> Circular(f1, ([Header(i)] + lists[i])[..k + 1] + ([Header(i)] + lists[i])[k + 2..]))
  }

  lemma RestOk(f: Nodes, f1: Nodes, smallmap: nat, m: nat, lists: Lists, i: nat, k: nat, x: int, g: int, b: int)
    requires Unlinking(f, f1, smallmap, m, lists, i, k, x, g, b)
    ensures x > 0 && x in f && f[x].size == SmallSize(i) && 16 <= SmallSize(i)
    ensures ListOk(f1 - {x}, m, lists[i := Without(lists[i], k)], i)
    ensures forall c :: c in Without(lists[i], k) <==> c in lists[i] && c != x
  {
    var list, f' := Without(lists[i], k), f1 - {x};
    assert ListOk(f, smallmap, lists, i) && Chunk(f, i, x) && InList(f, lists, x);
    WithoutHas(lists[i], k, [Header(i)] + lists[i], Header(i));
    forall c | c in list ensures Chunk(f', i, c) { assert Chunk(f, i, c); }
    if list != [] { CircularWithout(f1, [Header(i)] + list, x); }
  }

  /** One chunk fewer. */
  lemma Removed(f: Nodes, f1: Nodes, smallmap: nat, m: nat, lists: Lists, i: nat, k: nat, x: int, g: int, b: int)
    requires Unlinking(f, f1, smallmap, m, lists, i, k, x, g, b)
    ensures ListsOk(f1 - {x}, m, lists[i := Without(lists[i], k)]) && ChunksOf(f1 - {x}) == ChunksOf(f) - {x}
  {
    RestOk(f, f1, smallmap, m, lists, i, k, x, g, b);
    assert ListOk(f, smallmap, lists, i);
    if g != Header(i) { assert Chunk(f, i, g); }
    if b != Header(i) { assert Chunk(f, i, b); }
    OneList(f, f1 - {x}, smallmap, m, lists, Without(lists[i], k), i, x);
    SizesWithout(f, f1 - {x}, x);
  }

  lemma CircularWithout(f: Nodes, r: seq<int>, x: int)
    requires Circular(f, r) && x !in r
    ensures Circular(f - {x}, r)
  {
    forall j | 0 <= j < |r| ensures Linked(f - {x}, r, j) {
      assert Linked(f, r, j) && r[j] in r && Succ(r, j) in r;
    }
  }

  /** clear_smallmap */
  method ClearBin(m: nat, i: nat) returns (m': nat)
    requires m < Pow2(BINS) && i < BINS
    ensures m' < Pow2(BINS) && forall j: nat :: On(m', j) <==> j != i && On(m, j)
  {
    m' := Unmark(m, i);
    AndBelow(m, Not(BitAt(i), BINS));
    forall j: nat ensures On(m', j) <==> j != i && On(m, j) { Unmarked(m, i, j); }
  }

  lemma Inserted(f: Nodes, f': Nodes, smallmap: nat, m: nat, lists: Lists, i: nat, x: int, s: nat, g: int)
    requires ListsOk(f, smallmap, lists) && i < BINS && m < Pow2(BINS) && x > 0 && x !in f && s == SmallSize(i) &&
      16 <= s < MIN_LARGE
    requires forall j: nat :: On(m, j) <==> j == i || On(smallmap, j)
    requires i in lists && Circular(f', [Header(i), x] + lists[i]) && (g == Header(i) || g in lists[i])
    requires f'.Keys == f.Keys + {x} && f'[x].size == s
    requires forall c :: c in f && c != Header(i) && c != g ==> f'[c] == f[c]
    requires forall c :: c in f && c > 0 ==> f'[c].size == f[c].size
    ensures ListsOk(f', m, lists[i := [x] + lists[i]]) && ChunksOf(f') == ChunksOf(f)[x := s]
  {
    var list := [x] + lists[i];
    assert ListOk(f, smallmap, lists, i);
    assert [Header(i), x] + lists[i] == [Header(i)] + list;
    forall c | c in list ensures Chunk(f', i, c) {
      if c != x { assert Chunk(f, i, c); }
    }
    if g in lists[i] { assert Chunk(f, i, g); }
    OneList(f, f', smallmap, m, lists, list, i, x);
    SizesAdded(f, f', x, s);
  }

  lemma SizesAdded(f: Nodes, f': Nodes, x: int, s: nat)
    requires f'.Keys == f.Keys + {x} && x > 0 && f'[x].size == s && forall c :: c in f && c > 0 && c != x ==>
      f'[c].size == f[c].size
    ensures ChunksOf(f') == ChunksOf(f)[x := s]
  {
    forall c | c in ChunksOf(f') ensures c in ChunksOf(f)[x := s] && ChunksOf(f)[x := s][c] == f'[c].size {
      if c != x { assert f'[c].size == f[c].size; }
    }
  }

  lemma SizesWithout(f: Nodes, f': Nodes, x: int)
    requires f'.Keys == f.Keys - {x} && forall c :: c in f' && c > 0 ==> f'[c].size == f[c].size
    ensures ChunksOf(f') == ChunksOf(f) - {x}
  {
    forall c | c in ChunksOf(f') ensures c in ChunksOf(f) - {x} && (ChunksOf(f) - {x})[c] == f'[c].size {
      assert f'[c].size == f[c].size;
    }
    assert (ChunksOf(f) - {x}).Keys == ChunksOf(f').Keys;
  }

  /** mark_smallmap */
  method MarkBin(m: nat, i: nat) returns (m': nat)
    requires m < Pow2(BINS) && i < BINS
    ensures m' < Pow2(BINS) && forall j: nat :: On(m', j) <==> j == i || On(m, j)
  {
    m' := Mark(m, i);
    OrBelow(m, BitAt(i), BINS);
    forall j: nat ensures On(m', j) <==> j == i || On(m, j) { Marked(m, i, j); }
  }
}
