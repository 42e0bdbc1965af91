/**
  * All words of a malloc.c heap in one memory: heads, feet and what users write, the links of chunks in
  * bins, and the records of segments. Each kind has its own words, so that no step of the allocator
  * can touch a user's memory by writing a link or a record, and no user can touch those.
  */
module WholeMemories {
  import opened Tiling
  import opened Words
  import opened Ownership
  import opened Segments
  import opened Steps
  import opened Moves
  import opened Swapping
  import opened Heaps
  import opened Payloads
  import SmallBinning
  import TreeLinks
  import Binning

  const MIN_LARGE := 256

  /** fd and bk of a small chunk; fd, bk, both children, parent and index of a large one */
  function LinkEnd(size: int): int { if size < MIN_LARGE then 4 * WORD else 8 * WORD }

  predicate LinkWord(o: Owners, c: int, x: int) {
    c in o.binned && c + 2 * WORD <= x < c + LinkEnd(o.binned[c])
  }

  /** base, size, next and flags of a segment, in the chunk that keeps its record */
  predicate RecordWord(o: Owners, r: int, x: int) {
    r in o.records && r + 2 * WORD <= x < r + 6 * WORD
  }

  /** A word of the allocator's own lists. */
  ghost predicate ListWord(o: Owners, x: int) {
    exists c {:trigger LinkWord(o, c, x)} {:trigger RecordWord(o, c, x)} :: LinkWord(o, c, x) || RecordWord(o, c, x)
  }

  /** The chunk such a word lies in, which is not a user's. */
  lemma ListWordInside(s: State, c: int, x: int)
    requires Consistent(s) && (LinkWord(s.o, c, x) || RecordWord(s.o, c, x))
    ensures c in s.T && s.T[c].Chunk? && c !in s.o.live && c + 2 * WORD <= x < c + s.T[c].size
  {
    if c in s.o.records {
      var i :| 1 <= i < |s.segs| && s.segs[i].record == c;
      assert EndOk(s.T, s.segs[i], s.o.records);
    }
  }

  /** No link and no record is in a user's memory. */
  lemma ListsApart(s: State, d: int, x: int)
    requires Sound(s) && d in s.o.live
    ensures d in s.T && (InPayload(s.T, d, x) ==> !ListWord(s.o, x))
  {
    assert Look(0);
    CellAt(s.T, d);
    if c :| LinkWord(s.o, c, x) || RecordWord(s.o, c, x) {
      ListWordInside(s, c, x);
      CellAt(s.T, c);
      if c < d { Before(c, d); } else if d < c { Before(d, c); }
    }
  }

  /** Nor is one where a head or a foot is. */
  lemma HeadersApart(s: State, d: int)
    requires Sound(s) && d in s.T
    ensures !ListWord(s.o, d) && !ListWord(s.o, d + WORD)
  {
    assert Look(0);
    CellAt(s.T, d);
    forall x | x == d || x == d + WORD ensures !ListWord(s.o, x) {
      if c :| LinkWord(s.o, c, x) || RecordWord(s.o, c, x) {
        ListWordInside(s, c, x);
        CellAt(s.T, c);
        if c < d { Before(c, d); } else if d < c { Before(d, c); }
      }
    }
  }

  /** Small chunks are in lists, large ones in trees. */
  ghost predicate Linked(o: Owners, f: SmallBinning.Nodes, t: TreeLinks.Links) {
    && (forall c {:trigger c in f} :: c in f && c > 0 ==> c in o.binned && o.binned[c] < MIN_LARGE)
    && (forall c {:trigger c in t} :: c in t ==> c in o.binned && o.binned[c] >= MIN_LARGE)
  }

  /** The word at x of a chunk in a list. */
  function SmallLink(f: SmallBinning.Nodes, x: int): (w: int)
    requires InSmall(f, x)
  {
    if x - 8 in f && x - 8 > 0 then f[x - 8].fd else f[x - 12].bk
  }

  predicate InSmall(f: SmallBinning.Nodes, x: int) {
    (x - 8 in f && x - 8 > 0) || (x - 12 in f && x - 12 > 0)
  }

  /** The word at x of a chunk in a tree. */
  function LargeLink(t: TreeLinks.Links, x: int): int
    requires InLarge(t, x)
  {
    if x - 8 in t then t[x - 8].fd
    else if x - 12 in t then t[x - 12].bk
    else if x - 16 in t then t[x - 16].left
    else if x - 20 in t then t[x - 20].right
    else t[x - 24].parent
  }

  predicate InLarge(t: TreeLinks.Links, x: int) {
    x - 8 in t || x - 12 in t || x - 16 in t || x - 20 in t || x - 24 in t
  }

  /** The word at x of the entry that keeps segment i. */
  predicate InRecord(segs: seq<Segment>, i: int, x: int) {
    1 <= i < |segs| && (x == segs[i].record + 8 || x == segs[i].record + 12 || x == segs[i].record + 16)
  }

  function RecordField(segs: seq<Segment>, i: int, x: int): int
    requires InRecord(segs, i, x)
  {
    if x == segs[i].record + 8 then segs[i].base
    else if x == segs[i].record + 12 then segs[i].size
    else if i + 1 < |segs| then segs[i + 1].record + 2 * WORD else 0
  }

  /** The word at x, whatever it is for. */
  ghost function Word(m: Memory, f: SmallBinning.Nodes, t: TreeLinks.Links, segs: seq<Segment>, x: int): int {
    if InSmall(f, x) then SmallLink(f, x)
    else if InLarge(t, x) then LargeLink(t, x)
    else if i :| InRecord(segs, i, x) then RecordField(segs, i, x)
    else Get(m, x)
  }

  /** What is not a word of the lists is in the memory of heads, feet and users. */
  lemma PlainWord(s: State, f: SmallBinning.Nodes, t: TreeLinks.Links, x: int)
    requires Sound(s) && Linked(s.o, f, t) && !ListWord(s.o, x)
    ensures Word(s.m, f, t, s.segs, x) == Get(s.m, x)
  {
    assert Look(0);
    forall c | c in s.o.binned ensures !LinkWord(s.o, c, x) { }
    forall i | 1 <= i < |s.segs| ensures !InRecord(s.segs, i, x) {
      assert EndOk(s.T, s.segs[i], s.o.records) && !RecordWord(s.o, s.segs[i].record, x);
    }
  }

  /** Whatever the allocator does from s to s', in memory and in its lists: the users' words stay. */
  lemma WordsKept(s: State, f: SmallBinning.Nodes, t: TreeLinks.Links, s': State, f': SmallBinning.Nodes,
      t': TreeLinks.Links, p: int, c: int, x: int)
    requires Sound(s) && Linked(s.o, f, t) && Sound(s') && Linked(s'.o, f', t') && Preserved(s, s', p)
    requires c in s.o.live && c != p && c in s.T && InPayload(s.T, c, x)
    ensures c in s'.o.live && c in s'.T && InPayload(s'.T, c, x) &&
      Word(s'.m, f', t', s'.segs, x) == Word(s.m, f, t, s.segs, x)
  {
    assert Intact(s, s', c);
    ListsApart(s, c, x);
    ListsApart(s', c, x);
    PlainWord(s, f, t, x);
    PlainWord(s', f', t', x);
  }

  /** A user who writes its own memory changes no other word, and the heap stays in order. */
  lemma UserWord(s: State, f: SmallBinning.Nodes, t: TreeLinks.Links, c: int, x: int, v: int, y: int)
    requires Sound(s) && Linked(s.o, f, t) && c in s.o.live && c in s.T && InPayload(s.T, c, x)
    ensures Sound(s.(m := s.m[x := v])) && Preserved(s, s.(m := s.m[x := v]), c)
    ensures Word(s.m[x := v], f, t, s.segs, y) == if y == x then v else Word(s.m, f, t, s.segs, y)
  {
    UserWrites(s, s.m[x := v], c);
    ListsApart(s, c, x);
    PlainWord(s, f, t, x);
    PlainWord(s.(m := s.m[x := v]), f, t, x);
  }

  /** The lists and trees of the bins have the free chunks in them. */
  lemma BinsLinked(h: Heap)
    requires h.Valid()
    ensures Linked(h.View().o, h.bins.small.f, h.bins.large.h)
  {
    assert Binning.Unfold(0);
    forall c | c in h.bins.small.f && c > 0 ensures c in h.bins.held && h.bins.held[c] < MIN_LARGE {
      assert c in h.bins.small.Held();
      h.bins.Has(c);
    }
    forall c | c in h.bins.large.h ensures c in h.bins.held && h.bins.held[c] >= MIN_LARGE {
      assert c in h.bins.large.Held();
      h.bins.Has(c);
    }
  }

  ghost function WordAt(h: Heap, x: int): int
    reads h, h.bins, h.bins.small, h.bins.large
  {
    Word(h.m, h.bins.small.f, h.bins.large.h, h.segs, x)
  }

  /** In the users' memory it is what the memory has. */
  lemma UserWordAt(h: Heap, c: int, x: int)
    requires h.Valid() && c in h.live && c in h.T && InPayload(h.T, c, x)
    ensures WordAt(h, x) == Get(h.m, x)
  {
    BinsLinked(h);
    ListsApart(h.View(), c, x);
    PlainWord(h.View(), h.bins.small.f, h.bins.large.h, x);
  }
}
