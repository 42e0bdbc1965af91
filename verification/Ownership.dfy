/** Who holds each chunk of a malloc.c heap: a user, a segment record, a bin, dv or top. */
module Ownership {
  import opened Tiling

  /** binned gives the size of every chunk in a bin; dv and top are 0 when there is none. */
  datatype Owners = Owners(
    binned: map<int, int>, dv: int, dvsize: int, top: int, topsize: int, live: set<int>, records: set<int>)

  datatype Role = User | Bin | Victim | Top

  predicate Held(T: Layout, o: Owners, c: int)
    requires c in T
  {
    match T[c]
    case Chunk(_, u, _) => if u then c in o.live || c in o.records else c in o.binned || c == o.dv || c == o.top
    case Fence(_) => true
    case Foot => true
    case Mapped(_, _) => c in o.live
  }

  ghost predicate BinnedOk(T: Layout, o: Owners, a: int, b: int) {
    forall c {:trigger c in o.binned} :: c in o.binned ==>
      c > 0 && !(a <= c < b) && c in T && T[c] == Chunk(o.binned[c], false, true) && o.binned[c] >= MIN_CHUNK
      && c != o.dv && c != o.top
  }

  ghost predicate UsedOk(T: Layout, o: Owners, a: int, b: int) {
    && (forall c {:trigger c in o.live} :: c in o.live ==>
      !(a <= c < b) && c in T && c !in o.records
      && (T[c].Mapped? || (T[c].Chunk? && T[c].cinuse && T[c].size >= MIN_CHUNK)))
    && (forall c {:trigger c in o.records} :: c in o.records ==>
      !(a <= c < b) && c in T && T[c].Chunk? && T[c].cinuse)
  }

  ghost predicate SpecialOk(T: Layout, o: Owners, a: int, b: int) {
    && (if o.dv == 0 then o.dvsize == 0 else
      !(a <= o.dv < b) && o.dv in T && T[o.dv] == Chunk(o.dvsize, false, true) && o.dvsize >= MIN_CHUNK &&
        o.dv != o.top)
    && (if o.top == 0 then o.topsize == 0 else
      !(a <= o.top < b) && o.top in T && T[o.top] == Chunk(o.topsize, false, true)
      && o.top + o.topsize in T && T[o.top + o.topsize] == Foot)
  }

  /** Every cell has its one owner, those from a up to b excepted, which have none. */
  ghost predicate OwnedBut(T: Layout, o: Owners, a: int, b: int) {
    && (forall c {:trigger Held(T, o, c)} :: c in T && !(a <= c < b) ==> Held(T, o, c))
    && BinnedOk(T, o, a, b) && UsedOk(T, o, a, b) && SpecialOk(T, o, a, b)
  }

  ghost predicate Owned(T: Layout, o: Owners) {
    OwnedBut(T, o, 0, 0)
  }

  /** The same owners without the chunk at c. */
  function Drop(o: Owners, c: int): Owners {
    Owners(o.binned - {c},
      if o.dv == c then 0 else o.dv, if o.dv == c then 0 else o.dvsize,
      if o.top == c then 0 else o.top, if o.top == c then 0 else o.topsize,
      o.live - {c}, o.records)
  }

  function Give(o: Owners, c: int, n: int, role: Role): Owners {
    match role
    case User => o.(live := o.live + {c})
    case Bin => o.(binned := o.binned[c := n])
    case Victim => o.(dv := c, dvsize := n)
    case Top => o.(top := c, topsize := n)
  }

  /** The chunk at c, next to the gap, joins it. */
  lemma TakeOut(T: Layout, o: Owners, a: int, b: int, c: int)
    requires Tiled(T) && OwnedBut(T, o, a, b) && a <= b && c in T && T[c].Chunk? && c !in o.records
    requires c == b || c + T[c].size == a
    ensures OwnedBut(T, Drop(o, c), if c == b then a else c, if c == b then b + T[c].size else b)
  {
    assert CellOk(T, c);
    forall d | d in T && d != c && !(a <= d < b) ensures Held(T, Drop(o, c), d) {
      assert Held(T, o, d);
    }
  }

  /** A gap anywhere can be opened at c. */
  lemma OpenAt(T: Layout, o: Owners, c: int)
    requires Owned(T, o)
    ensures OwnedBut(T, o, c, c)
  {
    forall d | d in T ensures Held(T, o, d) {
      assert Held(T, o, d);
    }
  }

  /** What the chunks in the gap become changes nothing for the others. */
  lemma SameOwners(T: Layout, T': Layout, o: Owners, a: int, b: int)
    requires Tiled(T) && OwnedBut(T, o, a, b) && SameOutside(T, T', a, b) && a < b
    requires T[b].Chunk? && !T[b].cinuse ==> PrevInUse(T'[b])
    ensures OwnedBut(T', o, a, b)
  {
    SameFree(T, T', o, a, b);
    forall c | c in T' && !(a <= c < b) ensures Held(T', o, c) {
      assert Held(T, o, c);
    }
  }

  lemma SameFree(T: Layout, T': Layout, o: Owners, a: int, b: int)
    requires Tiled(T) && BinnedOk(T, o, a, b) && SpecialOk(T, o, a, b) && SameOutside(T, T', a, b) && a < b
    requires T[b].Chunk? && !T[b].cinuse ==> PrevInUse(T'[b])
    ensures BinnedOk(T', o, a, b) && SpecialOk(T', o, a, b)
  {
    assert CellOk(T, a) && CellOk(T, b);
    if o.top != 0 { assert CellOk(T, o.top); }
  }

  /** The chunk at the start of the gap gets an owner. */
  lemma HandOver(T: Layout, o: Owners, a: int, b: int, role: Role)
    requires Tiled(T) && OwnedBut(T, o, a, b) && a in T && T[a].Chunk? && a + T[a].size <= b
    requires match role {
      case User => T[a].cinuse && T[a].size >= MIN_CHUNK
      case Bin => !T[a].cinuse && T[a].size >= MIN_CHUNK
      case Victim => !T[a].cinuse && T[a].size >= MIN_CHUNK && o.dv == 0
      case Top => !T[a].cinuse && a + T[a].size in T && T[a + T[a].size].Foot? && o.top == 0
    }
    ensures OwnedBut(T, Give(o, a, T[a].size, role), a + T[a].size, b)
  {
    assert CellOk(T, a);
    var o' := Give(o, a, T[a].size, role);
    forall c | c in T && !(a + T[a].size <= c < b) ensures Held(T, o', c) {
      if c != a { assert Held(T, o, c) && CellOk(T, c); }
    }
  }

  /** An empty gap is none. */
  lemma Closed(T: Layout, o: Owners, a: int, b: int)
    requires OwnedBut(T, o, a, b) && a >= b
    ensures Owned(T, o)
  {
    forall c | c in T ensures Held(T, o, c) {
      assert Held(T, o, c);
    }
  }

  /** Each owner's share of a Drop. */
  lemma DropUser(T: Layout, o: Owners, a: int, b: int, c: int)
    requires OwnedBut(T, o, a, b) && c in o.live && c > 0 && T[c].Chunk?
    ensures c !in o.records && Drop(o, c) == o.(live := o.live - {c})
  {
    assert c !in o.binned;
    assert o.binned - {c} == o.binned;
  }

  lemma DropBinned(T: Layout, o: Owners, a: int, b: int, c: int)
    requires OwnedBut(T, o, a, b) && c in o.binned
    ensures c !in o.records && Drop(o, c) == o.(binned := o.binned - {c})
  {
    assert o.live - {c} == o.live;
  }

  lemma DropVictim(T: Layout, o: Owners, a: int, b: int)
    requires OwnedBut(T, o, a, b) && o.dv != 0
    ensures o.dv !in o.records && Drop(o, o.dv) == o.(dv := 0, dvsize := 0)
  {
    assert o.live - {o.dv} == o.live && o.binned - {o.dv} == o.binned;
  }

  lemma DropTop(T: Layout, o: Owners, a: int, b: int)
    requires OwnedBut(T, o, a, b) && o.top != 0
    ensures o.top !in o.records && Drop(o, o.top) == o.(top := 0, topsize := 0)
  {
    assert o.live - {o.top} == o.live && o.binned - {o.top} == o.binned;
  }
}
