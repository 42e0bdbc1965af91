/** The state sets of the Earley parser: for every configuration a vector with two lists linked through it. */
module EarleySets {

  /**
    * The vector of one configuration, with the indices of the source less 5: at i there is the element
    * behind i, or -1, if i is in the set, and nothing otherwise. The entries below are those in front:
    * the configuration next in the work list at -5, the tail and the head of the list of elements that
    * have been dealt with at -4 and -3, the tail and the head of the list of new elements at -2 and -1.
    */
  type Cells = map<int, int>

  const NEXT := -5
  const DONE_TAIL := -4
  const DONE_HEAD := -3
  const NEW_TAIL := -2
  const NEW_HEAD := -1

  ghost predicate NoRepeats(list: seq<nat>) {
    forall a, b :: 0 <= a < b < |list| ==> list[a] != list[b]
  }

  /** The links lead through the list, and then to -1. */
  ghost predicate Chain(s: Cells, first: int, list: seq<nat>)
    decreases |list|
  {
    if list == [] then first == -1
    else first == list[0] && first in s && Chain(s, s[first], list[1..])
  }

  /** Links elsewhere do not matter. */
  lemma {:induction false} ChainFrame(s: Cells, s': Cells, first: int, list: seq<nat>)
    requires Chain(s, first, list) && forall x :: x in list ==> x in s' && (x in s ==> s'[x] == s[x])
    ensures Chain(s', first, list)
    decreases |list|
  {
    if list != [] { ChainFrame(s, s', s[first], list[1..]); }
  }

  /** A second list behind the first. */
  lemma {:induction false} ChainJoin(s: Cells, s': Cells, first: int, a: seq<nat>, b: seq<nat>)
    requires Chain(s, first, a) && a != [] && b != [] && NoRepeats(a) && Chain(s', b[0], b)
    requires forall x :: x in a && x != a[|a| - 1] ==> x in s' && (x in s ==> s'[x] == s[x])
    requires a[|a| - 1] in s' && s'[a[|a| - 1]] == b[0]
    ensures Chain(s', first, a + b)
    decreases |a|
  {
    if |a| == 1 {
      assert (a + b)[1..] == b;
    } else {
      assert a[0] in a && a[0] != a[|a| - 1];
      ChainJoin(s, s', s[first], a[1..], b);
      assert (a + b)[1..] == a[1..] + b;
    }
  }

  /** The vector holds the elements of both lists, each once. */
  ghost predicate SetOk(s: Cells, done: seq<nat>, late: seq<nat>) {
    && {DONE_TAIL, DONE_HEAD, NEW_TAIL, NEW_HEAD} <= s.Keys
    && Chain(s, s[DONE_HEAD], done) && Chain(s, s[NEW_HEAD], late)
    && s[DONE_TAIL] == (if done == [] then DONE_HEAD else done[|done| - 1])
    && s[NEW_TAIL] == (if late == [] then NEW_HEAD else late[|late| - 1])
    && NoRepeats(done + late)
    && (forall x: nat :: x in s <==> x in done + late)
  }

  /** The vector of a configuration that has no elements yet. */
  function NewSet(): Cells {
    map[DONE_TAIL := DONE_HEAD, DONE_HEAD := -1, NEW_TAIL := NEW_HEAD, NEW_HEAD := -1]
  }

  lemma NewSetOk()
    ensures SetOk(NewSet(), [], [])
  {
  }

  /** The element i behind the new ones. */
  function WithNew(s: Cells, i: nat): Cells
    requires NEW_TAIL in s
  {
    s[i := -1][s[NEW_TAIL] := i][NEW_TAIL := i]
  }

  lemma WithNewOk(s: Cells, done: seq<nat>, late: seq<nat>, i: nat)
    requires SetOk(s, done, late) && i !in s
    ensures SetOk(WithNew(s, i), done, late + [i])
  {
    var s', tail := WithNew(s, i), s[NEW_TAIL];
    assert i !in done + late;
    forall x | x in done ensures x in s' && s'[x] == s[x] {
      LastApart(done, late, x);
      assert x in done + late;
    }
    ChainFrame(s, s', s[DONE_HEAD], done);
    assert Chain(s', i, [i]);
    if late == [] {
      assert late + [i] == [i];
    } else {
      NoRepeatsTail(done, late);
      forall x | x in late && x != tail ensures x in s' && s'[x] == s[x] { assert x in done + late; }
      ChainJoin(s, s', s[NEW_HEAD], late, [i]);
    }
    Longer(done, late, i);
  }

  lemma NoRepeatsTail(a: seq<nat>, b: seq<nat>)
    requires NoRepeats(a + b)
    ensures NoRepeats(a) && NoRepeats(b)
  {
    forall x, y | 0 <= x < y < |b| ensures b[x] != b[y] {
      assert (a + b)[|a| + x] == b[x] && (a + b)[|a| + y] == b[y];
    }
    forall x, y | 0 <= x < y < |a| ensures a[x] != a[y] {
      assert (a + b)[x] == a[x] && (a + b)[y] == a[y];
    }
  }

  lemma LastApart(a: seq<nat>, b: seq<nat>, x: nat)
    requires NoRepeats(a + b) && x in a
    ensures x !in b
  {
    var p :| 0 <= p < |a| && a[p] == x;
    forall q | 0 <= q < |b| ensures b[q] != x {
      assert (a + b)[p] == x && (a + b)[|a| + q] == b[q];
    }
  }

  lemma Longer(a: seq<nat>, b: seq<nat>, i: nat)
    requires NoRepeats(a + b) && i !in a + b
    ensures NoRepeats(a + (b + [i])) && forall x :: x in a + (b + [i]) <==> x in a + b || x == i
  {
    assert a + (b + [i]) == a + b + [i];
  }

  /** conf_set_merge_new! */
  function Merged(s: Cells): Cells
    requires {DONE_TAIL, NEW_TAIL, NEW_HEAD} <= s.Keys
  {
    s[s[DONE_TAIL] := s[NEW_HEAD]][DONE_TAIL := s[NEW_TAIL]][NEW_TAIL := -1][NEW_HEAD := -1]
  }

  lemma MergedOk(s: Cells, done: seq<nat>, late: seq<nat>)
    requires SetOk(s, done, late) && late != []
    ensures SetOk(Merged(s), done + late, []) && Chain(Merged(s), s[NEW_HEAD], late)
  {
    var s' := Merged(s);
    NoRepeatsTail(done, late);
    forall x | x in late ensures x in s' && s'[x] == s[x] {
      if x in done { LastApart(done, late, x); }
      assert x in done + late;
    }
    ChainFrame(s, s', s[NEW_HEAD], late);
    if done == [] {
      assert done + late == late;
    } else {
      forall x | x in done && x != done[|done| - 1] ensures x in s' && s'[x] == s[x] { assert x in done + late; }
      assert done[|done| - 1] in done + late;
      ChainJoin(s, s', s[DONE_HEAD], done, late);
    }
    assert done + late + [] == done + late;
  }

  type Pairs = set<(nat, nat)>

  /** The work list: its head, and the configurations in it. */
  ghost predicate Work(sets: map<nat, Cells>, first: int, work: seq<nat>)
    decreases |work|
  {
    if work == [] then first == -1
    else first == work[0] && work[0] in sets && NEXT in sets[work[0]] && Work(sets, sets[work[0]][NEXT], work[1..])
  }

  lemma {:induction false} WorkFrame(sets: map<nat, Cells>, sets': map<nat, Cells>, first: int, work: seq<nat>)
    requires Work(sets, first, work)
    requires forall c ::
      c in work ==> c in sets' && (c in sets && NEXT in sets[c] ==> NEXT in sets'[c] && sets'[c][NEXT] == sets[c][NEXT])
    ensures Work(sets', first, work)
    decreases |work|
  {
    if work != [] { WorkFrame(sets, sets', sets[work[0]][NEXT], work[1..]); }
  }

  /** The lists behind the sets of a state: elements dealt with, new elements, and the work list. */
  datatype Lists = Lists(done: map<nat, seq<nat>>, late: map<nat, seq<nat>>, work: seq<nat>)

  ghost predicate EntryOk(sets: map<nat, Cells>, g: Lists, num: nat, c: nat)
    requires c in sets
  {
    c in g.done && c in g.late && Kept(sets[c], g.done[c], g.late[c], num)
  }

  /** To mention it makes the definition of Kept available, which keeps it out of proofs that have no use for it. */
  ghost predicate Open(u: int) { true }

  /** The same for State.Valid. */
  ghost predicate Unlock(u: int) { true }

  ghost predicate Kept(s: Cells, done: seq<nat>, late: seq<nat>, num: nat) {
    forall u {:trigger Open(u)} :: Open(u) ==> SetOk(s, done, late) && forall x :: x in done + late ==> x <= num
  }

  lemma Look(s: Cells, done: seq<nat>, late: seq<nat>, num: nat)
    requires Kept(s, done, late, num)
    ensures SetOk(s, done, late) && forall x :: x in done + late ==> x <= num
  {
    assert Open(0);
  }

  ghost predicate StateOk(sets: map<nat, Cells>, head: int, g: Lists, num: nat, nbConfs: nat) {
    && g.done.Keys == g.late.Keys == sets.Keys && (forall c: nat {:trigger c in sets} :: c in sets ==> c < nbConfs)
    && (forall c: nat {:trigger EntryOk(sets, g, num, c)} :: c in sets ==> EntryOk(sets, g, num, c))
    && Work(sets, head, g.work) && NoRepeats(g.work)
    && (forall c: nat {:trigger c in g.work} :: c in g.work <==> c in g.late && g.late[c] != [])
  }

  /** Element i of configuration c is there: its link is. */
  predicate HasPair(sets: map<nat, Cells>, c: nat, i: nat) {
    c in sets && i in sets[c]
  }

  ghost predicate DonePair(g: Lists, c: nat, i: nat) {
    c in g.done && i in g.done[c]
  }

  lemma Members(sets: map<nat, Cells>, head: int, g: Lists, num: nat, nbConfs: nat, c: nat, i: nat)
    requires StateOk(sets, head, g, num, nbConfs)
    ensures HasPair(sets, c, i) ==> c < nbConfs && i <= num && c in g.done && i in g.done[c] + g.late[c]
    ensures DonePair(g, c, i) ==> HasPair(sets, c, i)
    ensures HasPair(sets, c, i) && head < 0 ==> DonePair(g, c, i)
  {
    if c in sets {
      assert EntryOk(sets, g, num, c);
      Look(sets[c], g.done[c], g.late[c], num);
      if DonePair(g, c, i) { assert i in g.done[c] + g.late[c]; }
      if head < 0 {
        assert g.work == [];
        assert c !in g.work;
      }
    }
  }

  lemma KeptNone(num: nat)
    ensures Kept(NewSet(), [], [], num)
  {
    NewSetOk();
  }

  lemma KeptNew(s: Cells, done: seq<nat>, late: seq<nat>, num: nat, i: nat)
    requires Kept(s, done, late, num) && i !in s && i <= num && NEW_TAIL in s
    ensures Kept(WithNew(s, i), done, if late == [] then [i] else late + [i], num)
    ensures NEXT in s ==> NEXT in WithNew(s, i) && WithNew(s, i)[NEXT] == s[NEXT]
    ensures forall x: nat :: x in WithNew(s, i) <==> x in s || x == i
    ensures forall x :: x in done ==> x in s && x in WithNew(s, i) && WithNew(s, i)[x] == s[x]
  {
    Look(s, done, late, num);
    forall x | x in done ensures x in s && x in WithNew(s, i) && WithNew(s, i)[x] == s[x] {
      LastApart(done, late, x);
      assert x in done + late;
    }
    WithNewOk(s, done, late, i);
    assert late == [] ==> late + [i] == [i];
  }

  /** The entry for the work list is in neither list. */
  lemma KeptNext(s: Cells, done: seq<nat>, late: seq<nat>, num: nat, next: int)
    requires Kept(s, done, late, num)
    ensures Kept(s[NEXT := next], done, late, num)
  {
    Look(s, done, late, num);
    ChainFrame(s, s[NEXT := next], s[DONE_HEAD], done);
    ChainFrame(s, s[NEXT := next], s[NEW_HEAD], late);
  }

  lemma KeptMerged(s: Cells, done: seq<nat>, late: seq<nat>, num: nat)
    requires Kept(s, done, late, num) && late != []
    ensures {DONE_TAIL, NEW_TAIL, NEW_HEAD} <= s.Keys && Kept(Merged(s), done + late, [], num) &&
      Chain(Merged(s), s[NEW_HEAD], late)
    ensures forall x: nat :: x in Merged(s) <==> x in s
  {
    Look(s, done, late, num);
    MergedOk(s, done, late);
    assert done + late + [] == done + late;
  }

  /** A new vector. */
  lemma MadeOk(sets: map<nat, Cells>, head: int, g: Lists, num: nat, nbConfs: nat, c: nat)
    requires StateOk(sets, head, g, num, nbConfs) && c !in sets && c < nbConfs
    ensures StateOk(sets[c := NewSet()], head, Lists(g.done[c := []], g.late[c := []], g.work), num, nbConfs)
  {
    var sets', g' := sets[c := NewSet()], Lists(g.done[c := []], g.late[c := []], g.work);
    KeptNone(num);
    WorkFrame(sets, sets', head, g.work);
    forall d: nat | d in sets' ensures EntryOk(sets', g', num, d) {
      if d != c { assert EntryOk(sets, g, num, d); }
    }
  }

  /** A new element, in a vector that has new ones already. */
  lemma AddedOk(sets: map<nat, Cells>, head: int, g: Lists, num: nat, nbConfs: nat, c: nat, i: nat)
    requires StateOk(sets, head, g, num, nbConfs) && c in sets && i !in sets[c] && i <= num && NEW_TAIL in sets[c]
    requires c in g.late && g.late[c] != []
    ensures StateOk(sets[c := WithNew(sets[c], i)], head, g.(late := g.late[c := g.late[c] + [i]]), num, nbConfs)
  {
    var sets', g' := sets[c := WithNew(sets[c], i)], g.(late := g.late[c := g.late[c] + [i]]);
    assert EntryOk(sets, g, num, c);
    KeptNew(sets[c], g.done[c], g.late[c], num, i);
    WorkFrame(sets, sets', head, g.work);
    forall d: nat | d in sets' ensures EntryOk(sets', g', num, d) {
      if d != c { assert EntryOk(sets, g, num, d); }
    }
  }

  /** The first new element of a vector, which joins the work list. */
  lemma FirstOk(sets: map<nat, Cells>, head: int, g: Lists, num: nat, nbConfs: nat, c: nat, i: nat)
    requires StateOk(sets, head, g, num, nbConfs) && c in sets && i !in sets[c] && i <= num && NEW_TAIL in sets[c]
    requires c in g.late && g.late[c] == []
    ensures var s := WithNew(sets[c], i)[NEXT := head];
      StateOk(sets[c := s], c, Lists(g.done, g.late[c := [i]], [c] + g.work), num, nbConfs)
  {
    var s := WithNew(sets[c], i);
    var sets', g' := sets[c := s[NEXT := head]], Lists(g.done, g.late[c := [i]], [c] + g.work);
    assert EntryOk(sets, g, num, c) && c !in g.work;
    KeptNew(sets[c], g.done[c], [], num, i);
    KeptNext(s, g.done[c], [i], num, head);
    WorkFrame(sets, sets', head, g.work);
    forall d: nat | d in sets' ensures EntryOk(sets', g', num, d) {
      if d != c { assert EntryOk(sets, g, num, d); }
    }
  }

  /** The first configuration of the work list, once its new elements have been merged. */
  lemma PoppedOk(sets: map<nat, Cells>, head: nat, g: Lists, num: nat, nbConfs: nat)
    requires StateOk(sets, head, g, num, nbConfs)
    ensures g.work != [] && head == g.work[0] && head in sets && head in g.done && head in g.late && g.late[head] != []
    ensures {NEXT, DONE_TAIL, NEW_TAIL, NEW_HEAD} <= sets[head].Keys
    ensures var list := g.done[head] + g.late[head];
      StateOk(sets[head := Merged(sets[head])], sets[head][NEXT],
        Lists(g.done[head := list], g.late[head := []], g.work[1..]), num, nbConfs)
    ensures Chain(Merged(sets[head]), sets[head][NEW_HEAD], g.late[head])
  {
    var c := head;
    assert c in g.work && EntryOk(sets, g, num, c);
    KeptMerged(sets[c], g.done[c], g.late[c], num);
    var sets' := sets[c := Merged(sets[c])];
    var g' := Lists(g.done[c := g.done[c] + g.late[c]], g.late[c := []], g.work[1..]);
    assert forall d :: d in g.work[1..] ==> d in g.work && d != c;
    WorkFrame(sets, sets', sets[c][NEXT], g.work[1..]);
    forall d: nat | d in sets' ensures EntryOk(sets', g', num, d) {
      if d != c { assert EntryOk(sets, g, num, d); }
    }
    forall d: nat ensures d in g'.work <==> d in g'.late && g'.late[d] != [] {
      if d in g.work && d != c { assert d in g.work[1..]; }
    }
  }

  /** Configuration c with each of the elements. */
  ghost function Row(c: nat, list: seq<nat>): Pairs {
    set x | x in list :: (c, x)
  }

  lemma RowMore(c: nat, list: seq<nat>, k: nat)
    requires k < |list|
    ensures Row(c, list[..k]) + {(c, list[k])} == Row(c, list[..k + 1])
  {
    assert list[..k + 1] == list[..k] + [list[k]];
  }

  ghost predicate AllPairs(sets: map<nat, Cells>, all: Pairs) {
    forall c: nat, i: nat {:trigger (c, i) in all} {:trigger HasPair(sets, c, i)} :: (c, i) in all <==>
      HasPair(sets, c, i)
  }

  ghost predicate DonePairs(g: Lists, dealt: Pairs) {
    forall c: nat, i: nat {:trigger (c, i) in dealt} {:trigger DonePair(g, c, i)} :: (c, i) in dealt <==>
      DonePair(g, c, i)
  }

  lemma PairsAdded(sets: map<nat, Cells>, all: Pairs, c: nat, s: Cells, i: nat)
    requires AllPairs(sets, all) && c in sets && forall x: nat :: x in s <==> x in sets[c] || x == i
    ensures AllPairs(sets[c := s], all + {(c, i)})
  {
    forall d: nat, x: nat ensures (d, x) in all + {(c, i)} <==> HasPair(sets[c := s], d, x) {
      assert (d, x) in all <==> HasPair(sets, d, x);
    }
  }

  lemma PairsMade(sets: map<nat, Cells>, g: Lists, all: Pairs, dealt: Pairs, c: nat)
    requires AllPairs(sets, all) && DonePairs(g, dealt) && c !in sets && c !in g.done
    ensures AllPairs(sets[c := NewSet()], all) && DonePairs(g.(done := g.done[c := []]), dealt)
  {
    forall d: nat, x: nat ensures (d, x) in all <==> HasPair(sets[c := NewSet()], d, x) {
      assert (d, x) in all <==> HasPair(sets, d, x);
    }
    forall d: nat, x: nat ensures (d, x) in dealt <==> DonePair(g.(done := g.done[c := []]), d, x) {
      assert (d, x) in dealt <==> DonePair(g, d, x);
    }
  }

  lemma PairsPopped(sets: map<nat, Cells>, g: Lists, all: Pairs, dealt: Pairs, c: nat, s: Cells, elems: seq<nat>)
    requires AllPairs(sets, all) && DonePairs(g, dealt) && c in sets && c in g.done && forall x: nat :: x in s <==>
      x in sets[c]
    ensures AllPairs(sets[c := s], all) && DonePairs(g.(done := g.done[c := g.done[c] + elems]), dealt + Row(c, elems))
  {
    forall d: nat, x: nat ensures (d, x) in all <==> HasPair(sets[c := s], d, x) {
      assert (d, x) in all <==> HasPair(sets, d, x);
    }
    forall d: nat, x: nat
      ensures (d, x) in dealt + Row(c, elems) <==> DonePair(g.(done := g.done[c := g.done[c] + elems]), d, x)
    {
      assert (d, x) in dealt <==> DonePair(g, d, x);
    }
  }

  /** The links of elements that have been dealt with stay as they are. */
  ghost predicate SameLinks(sets: map<nat, Cells>, sets': map<nat, Cells>, dealt: Pairs) {
    forall c: nat, x: nat {:trigger (c, x) in dealt} :: (c, x) in dealt ==>
      c in sets && c in sets' && x in sets[c] && x in sets'[c] && sets'[c][x] == sets[c][x]
  }

  /** So their lists can be followed further. */
  lemma SameChain(sets: map<nat, Cells>, sets': map<nat, Cells>, dealt: Pairs, c: nat, first: int, list: seq<nat>)
    requires SameLinks(sets, sets', dealt) && c in sets && c in sets' && Chain(sets[c], first, list)
    requires forall x :: x in list ==> (c, x) in dealt
    ensures Chain(sets'[c], first, list)
  {
    ChainFrame(sets[c], sets'[c], first, list);
  }

  /** A state of the parser: the sets of elements of all configurations at one place of the input. */
  class State {
    const num: nat
    const nbConfs: nat
    var head: int
    var sets: map<nat, Cells>
    ghost var g: Lists

    /** All elements, each with its configuration, and those that have been dealt with. */
    ghost var all: Pairs
    ghost var dealt: Pairs

    ghost predicate Valid()
      reads this
    {
      forall u {:trigger Unlock(u)} :: Unlock(u) ==> Ordered()
    }

    ghost predicate Ordered()
      reads this
    {
      && StateOk(sets, head, g, num, nbConfs)
      && AllPairs(sets, all) && DonePairs(g, dealt)
    }

    /** What is in the state is in range; what has been dealt with is in it, and all is once there is no work. */
    lemma InRange(c: nat, i: nat)
      requires Valid()
      ensures (c, i) in all ==> c < nbConfs && i <= num
      ensures (c, i) in dealt ==> (c, i) in all
      ensures (c, i) in all && head < 0 ==> (c, i) in dealt
    {
      assert Unlock(0);
      Members(sets, head, g, num, nbConfs, c, i);
    }

    /** The links tell what is in the state. */
    lemma Present(c: nat, i: nat)
      requires Valid()
      ensures HasPair(sets, c, i) <==> (c, i) in all
    {
      assert Unlock(0);
    }

    /** The list of the elements of c that have been dealt with. */
    lemma ListOf(c: nat) returns (elems: seq<nat>)
      requires Valid() && c in sets
      ensures DONE_HEAD in sets[c] && Chain(sets[c], sets[c][DONE_HEAD], elems)
      ensures forall x: nat {:trigger x in elems} :: x in elems <==> (c, x) in dealt
      ensures forall x :: x in elems ==> x <= num
    {
      assert Unlock(0);
      assert EntryOk(sets, g, num, c);
      elems := g.done[c];
      Look(sets[c], g.done[c], g.late[c], num);
      forall x: nat ensures x in elems <==> (c, x) in dealt {
        assert (c, x) in dealt <==> DonePair(g, c, x);
      }
      forall x | x in elems ensures x <= num { assert x in g.done[c] + g.late[c]; }
    }

    /** A configuration without a vector has no elements. */
    lemma NoneOf(c: nat)
      requires Valid() && c !in sets
      ensures forall x: nat :: (c, x) !in all && (c, x) !in dealt
    {
      assert Unlock(0);
      forall x: nat ensures (c, x) !in all && (c, x) !in dealt {
        Members(sets, head, g, num, nbConfs, c, x);
      }
    }

    lemma LinksThere()
      requires Valid()
      ensures SameLinks(sets, sets, dealt)
    {
      assert Unlock(0);
      forall c: nat, x: nat | (c, x) in dealt ensures c in sets && x in sets[c] {
        assert DonePair(g, c, x);
        Members(sets, head, g, num, nbConfs, c, x);
      }
    }

    /** make_states: a state with nothing in it */
    constructor (num: nat, nbConfs: nat)
      ensures Valid() && this.num == num && this.nbConfs == nbConfs && head == -1 && all == {} && dealt == {}
    {
      this.num, this.nbConfs := num, nbConfs;
      head, sets := -1, map[];
      g, all, dealt := Lists(map[], map[], []), {}, {};
    }

    /** conf_set_get*: the vector of c, which is made if there is none */
    method GetSet(c: nat)
      requires Valid() && c < nbConfs
      modifies this
      ensures Valid() && c in sets && all == old(all) && dealt == old(dealt)
      ensures SameLinks(old(sets), sets, dealt)
      ensures forall d: nat {:trigger d in sets} :: d in old(sets) ==> d in sets && sets[d] == old(sets[d])
    {
      assert Unlock(0);
      LinksThere();
      if c !in sets {
        MadeOk(sets, head, g, num, nbConfs, c);
        PairsMade(sets, g, all, dealt, c);
        sets := sets[c := NewSet()];
        g := Lists(g.done[c := []], g.late[c := []], g.work);
      }
    }

    /** conf_set_adjoin */
    method Adjoin(c: nat, i: nat)
      requires Valid() && c in sets && i !in sets[c] && i <= num
      modifies this
      ensures Valid() && all == old(all) + {(c, i)} && dealt == old(dealt)
      ensures SameLinks(old(sets), sets, dealt)
      ensures forall d: nat {:trigger d in sets} :: d in old(sets) && d != c ==> d in sets && sets[d] == old(sets[d])
    {
      LinksThere();
      NewLink(c, i);
      var tail := sets[c][NEW_TAIL];
      var s := WithNew(sets[c], i);
      if tail < 0 {
        g := Lists(g.done, g.late[c := [i]], [c] + g.work);
        sets, head := sets[c := s[NEXT := head]], c;
      } else {
        g := g.(late := g.late[c := g.late[c] + [i]]);
        sets := sets[c := s];
      }
      all := all + {(c, i)};
    }

    /** What a new element does to the state. */
    lemma NewLink(c: nat, i: nat)
      requires Valid() && c in sets && i !in sets[c] && i <= num
      ensures NEW_TAIL in sets[c] && c in g.late && c in g.done
      ensures var s := WithNew(sets[c], i);
        if sets[c][NEW_TAIL] < 0 then
          && StateOk(sets[c := s[NEXT := head]], c, Lists(g.done, g.late[c := [i]], [c] + g.work), num, nbConfs)
          && AllPairs(sets[c := s[NEXT := head]], all + {(c, i)}) && SameLinks(sets, sets[c := s[NEXT := head]], dealt)
        else
          && StateOk(sets[c := s], head, g.(late := g.late[c := g.late[c] + [i]]), num, nbConfs)
          && AllPairs(sets[c := s], all + {(c, i)}) && SameLinks(sets, sets[c := s], dealt)
      ensures DonePairs(g, dealt)
    {
      assert Unlock(0);
      assert EntryOk(sets, g, num, c);
      Look(sets[c], g.done[c], g.late[c], num);
      KeptNew(sets[c], g.done[c], g.late[c], num, i);
      var s := WithNew(sets[c], i);
      forall x: nat | (c, x) in dealt ensures x in g.done[c] { assert DonePair(g, c, x); }
      LinksThere();
      if sets[c][NEW_TAIL] < 0 {
        PairsAdded(sets, all, c, s[NEXT := head], i);
        FirstOk(sets, head, g, num, nbConfs, c, i);
      } else {
        PairsAdded(sets, all, c, s, i);
        AddedOk(sets, head, g, num, nbConfs, c, i);
      }
    }

    /** The head of the work list is taken, and its new elements are merged with the others. */
    method Pop() returns (c: nat, first: int, ghost elems: seq<nat>)
      requires Valid() && head >= 0
      modifies this
      ensures Valid() && c == old(head) && c < nbConfs && all == old(all) && dealt == old(dealt) + Row(c, elems)
      ensures elems != [] && Row(c, elems) !! old(dealt) && c in sets && Chain(sets[c], first, elems) &&
        forall x :: x in elems ==> x <= num
      ensures forall d: nat {:trigger d in sets} :: d in old(sets) && d != c ==> d in sets && sets[d] == old(sets[d])
    {
      assert Unlock(0);
      c := head;
      PoppedOk(sets, c, g, num, nbConfs);
      assert EntryOk(sets, g, num, c);
      Look(sets[c], g.done[c], g.late[c], num);
      KeptMerged(sets[c], g.done[c], g.late[c], num);
      first := sets[c][NEW_HEAD];
      elems := g.late[c];
      forall x | x in elems ensures (c, x) !in dealt && x <= num {
        assert x in g.done[c] + g.late[c];
        if x in g.done[c] { LastApart(g.done[c], g.late[c], x); }
      }
      PairsPopped(sets, g, all, dealt, c, Merged(sets[c]), elems);
      head := sets[c][NEXT];
      g := Lists(g.done[c := g.done[c] + elems], g.late[c := []], g.work[1..]);
      sets := sets[c := Merged(sets[c])];
      dealt := dealt + Row(c, elems);
    }

    /** conf_set_union: the elements that are linked behind the head of another vector's list */
    method Union(c: nat, other: Cells, ghost elems: seq<nat>)
      requires Valid() && c in sets && DONE_HEAD in other && Chain(other, other[DONE_HEAD], elems)
      requires forall x :: x in elems ==> x <= num
      modifies this
      ensures Valid() && all == old(all) + Row(c, elems) && dealt == old(dealt)
      ensures SameLinks(old(sets), sets, dealt)
      ensures forall d: nat {:trigger d in sets} :: d in old(sets) && d != c ==> d in sets && sets[d] == old(sets[d])
    {
      assert Unlock(0);
      LinksThere();
      var i := other[DONE_HEAD];
      ghost var k := 0;
      while i >= 0
        invariant Valid() && Ordered() && c in sets && k <= |elems| && Chain(other, i, elems[k..])
        invariant all == old(all) + Row(c, elems[..k]) && dealt == old(dealt) && SameLinks(old(sets), sets, dealt)
        invariant forall d: nat {:trigger d in sets} :: d in old(sets) && d != c ==>
          d in sets && sets[d] == old(sets[d])
        decreases |elems| - k
      {
        assert elems[k] in elems;
        if i !in sets[c] {
          Adjoin(c, i);
        } else {
          assert HasPair(sets, c, i) && (c, i) in all;
        }
        RowMore(c, elems, k);
        assert elems[k..][1..] == elems[k + 1..];
        i := other[i];
        k := k + 1;
      }
      assert elems[..k] == elems;
    }
  }
}
