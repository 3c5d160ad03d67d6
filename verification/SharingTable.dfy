/** The writer's hash table of objects already met: open addressing, linear probing, and
    entries of earlier calls that count as free. */
module SharingTable {
  import opened Dumping

  datatype Entry = Entry(ofs: nat, obj: int)

  /** An entry made during this call. */
  predicate Live(e: Entry, initialOfs: nat) {
    e.ofs >= initialOfs
  }

  /** The first place where an object may be. The low bits of an address say nothing. */
  function Hash(ws: nat, v: int, size: nat): (h: nat)
    requires size > 0 && ws > 0
    ensures h < size
  {
    v / ws % size
  }

  function Next(h: nat, size: nat): nat {
    if h + 1 >= size then 0 else h + 1
  }

  /** Probing from `h`, one meets `j` before `p`. */
  ghost predicate Between(h: int, j: int, p: int) {
    if h <= p then h <= j < p else j >= h || j < p
  }

  /** No probe that starts at `h` stops before `p`. */
  ghost predicate Crowded(es: seq<Entry>, initialOfs: nat, h: int, p: int) {
    forall j :: 0 <= j < |es| && Between(h, j, p) ==> Live(es[j], initialOfs)
  }

  ghost predicate EntryOk(ws: nat, es: seq<Entry>, initialOfs: nat, order: seq<int>, k: int, p: int)
    requires ws > 0
  {
    && 0 <= k < |order| && 0 <= p < |es| && es[p] == Entry(initialOfs + k, order[k])
    && Crowded(es, initialOfs, Hash(ws, order[k], |es|), p)
  }

  /** The objects whose numbers are in `pos` are in the table, at those places, and no others are. */
  ghost predicate TableOk(ws: nat, es: seq<Entry>, initialOfs: nat, order: seq<int>, pos: map<int, int>) {
    && ws > 0 && |es| > 0 && Distinct(order)
    && (forall k :: k in pos ==> EntryOk(ws, es, initialOfs, order, k, pos[k]))
    && (forall i :: 0 <= i < |es| && Live(es[i], initialOfs) ==> es[i].ofs - initialOfs in pos && pos[es[i].ofs - initialOfs] == i)
  }

  ghost predicate Full(pos: map<int, int>, n: nat) {
    forall k :: k in pos <==> 0 <= k < n
  }

  lemma FreshTable(ws: nat, es: seq<Entry>, initialOfs: nat, order: seq<int>)
    requires ws > 0 && |es| > 0 && Distinct(order) && forall i :: 0 <= i < |es| ==> !Live(es[i], initialOfs)
    ensures TableOk(ws, es, initialOfs, order, map[])
  {
  }

  ghost function Keys(es: seq<Entry>, initialOfs: nat, n: nat): set<int>
    requires n <= |es|
  {
    if n == 0 then {} else Keys(es, initialOfs, n - 1) + {es[n - 1].ofs - initialOfs}
  }

  lemma {:induction false} KeysDiffer(ws: nat, es: seq<Entry>, initialOfs: nat, order: seq<int>, pos: map<int, int>, n: nat)
    requires TableOk(ws, es, initialOfs, order, pos) && n <= |es|
    requires forall i :: 0 <= i < n ==> Live(es[i], initialOfs)
    ensures |Keys(es, initialOfs, n)| == n
    ensures forall k :: k in Keys(es, initialOfs, n) ==> k in pos && pos[k] < n
  {
    if n > 0 {
      KeysDiffer(ws, es, initialOfs, order, pos, n - 1);
    }
  }

  lemma AllLive(ws: nat, es: seq<Entry>, initialOfs: nat, order: seq<int>, pos: map<int, int>)
    requires TableOk(ws, es, initialOfs, order, pos)
    requires forall i :: 0 <= i < |es| ==> Live(es[i], initialOfs)
    ensures |es| <= |pos|
  {
    hide TableOk, Keys, Live;
    KeysDiffer(ws, es, initialOfs, order, pos, |es|);
    assert forall k :: k in Keys(es, initialOfs, |es|) ==> k in pos.Keys;
    Subset(Keys(es, initialOfs, |es|), pos.Keys);
  }

  /** With fewer objects than places, some place is free, so probing comes to an end. */
  lemma SomeFree(ws: nat, es: seq<Entry>, initialOfs: nat, order: seq<int>, pos: map<int, int>) returns (e: nat)
    requires TableOk(ws, es, initialOfs, order, pos) && |pos| < |es|
    ensures e < |es| && !Live(es[e], initialOfs)
  {
    hide TableOk;
    if forall i :: 0 <= i < |es| ==> Live(es[i], initialOfs) {
      AllLive(ws, es, initialOfs, order, pos);
      assert false;
    } else {
      e :| 0 <= e < |es| && !Live(es[e], initialOfs);
    }
  }

  lemma FullSize(pos: map<int, int>, n: nat)
    requires Full(pos, n)
    ensures |pos| == n
    decreases n
  {
    if n == 0 {
      assert forall k :: k in pos.Keys ==> k in pos;
      Subset(pos.Keys, {});
      assert pos.Keys == {};
    } else {
      var rest := pos - {n - 1};
      FullSize(rest, n - 1);
      assert pos.Keys == rest.Keys + {n - 1};
    }
  }

  /** How far a probe at `h` is from the free place `e`. */
  ghost function Distance(h: nat, e: nat, size: nat): nat
    requires e < size && h < size
  {
    if h <= e then e - h else e + size - h
  }

  lemma ProbeOn(es: seq<Entry>, initialOfs: nat, h0: nat, h: nat, e: nat)
    requires h0 < |es| && h < |es| && e < |es| && Live(es[h], initialOfs) && !Live(es[e], initialOfs) && Crowded(es, initialOfs, h0, h)
    ensures Next(h, |es|) < |es| && Distance(Next(h, |es|), e, |es|) < Distance(h, e, |es|)
    ensures Crowded(es, initialOfs, h0, Next(h, |es|))
  {
  }

  /** None of the places probed holds `v`. */
  ghost predicate NotBefore(es: seq<Entry>, h0: int, h: int, v: int) {
    forall j :: 0 <= j < |es| && Between(h0, j, h) ==> es[j].obj != v
  }

  /** A probe that ends at a free place shows that the object is not in the table. */
  lemma ProbeMissed(ws: nat, es: seq<Entry>, initialOfs: nat, order: seq<int>, pos: map<int, int>, h: nat, v: int)
    requires TableOk(ws, es, initialOfs, order, pos) && Full(pos, |order|)
    requires h < |es| && !Live(es[h], initialOfs) && NotBefore(es, Hash(ws, v, |es|), h, v)
    ensures v !in order
  {
    forall k | 0 <= k < |order| ensures order[k] != v {
      assert EntryOk(ws, es, initialOfs, order, k, pos[k]);
    }
  }

  /** A live entry for `v` gives its number. */
  lemma ProbeHit(ws: nat, es: seq<Entry>, initialOfs: nat, order: seq<int>, pos: map<int, int>, h: nat, v: int)
    requires TableOk(ws, es, initialOfs, order, pos) && h < |es| && Live(es[h], initialOfs) && es[h].obj == v
    ensures v in order && IndexOf(order, v) == es[h].ofs - initialOfs
  {
    var k := es[h].ofs - initialOfs;
    assert EntryOk(ws, es, initialOfs, order, k, pos[k]);
    assert order[k] == v;
  }

  /** An object is entered at the first free place after its hash code. */
  lemma Enter(ws: nat, es: seq<Entry>, initialOfs: nat, order: seq<int>, pos: map<int, int>, h: nat, k: nat)
    requires TableOk(ws, es, initialOfs, order, pos) && k < |order| && k !in pos
    requires h < |es| && !Live(es[h], initialOfs) && Crowded(es, initialOfs, Hash(ws, order[k], |es|), h)
    ensures TableOk(ws, es[h := Entry(initialOfs + k, order[k])], initialOfs, order, pos[k := h])
  {
    hide Hash, Between;
    var es', pos' := es[h := Entry(initialOfs + k, order[k])], pos[k := h];
    forall j | j in pos' ensures EntryOk(ws, es', initialOfs, order, j, pos'[j]) {
      if j != k {
        assert EntryOk(ws, es, initialOfs, order, j, pos[j]);
      }
    }
  }

  lemma MoreObjects(ws: nat, es: seq<Entry>, initialOfs: nat, order: seq<int>, pos: map<int, int>, v: int)
    requires TableOk(ws, es, initialOfs, order, pos) && v !in order
    ensures TableOk(ws, es, initialOfs, order + [v], pos)
  {
    hide Crowded, Hash;
    forall k | k in pos ensures EntryOk(ws, es, initialOfs, order + [v], k, pos[k]) {
      assert EntryOk(ws, es, initialOfs, order, k, pos[k]);
      assert (order + [v])[k] == order[k];
    }
  }
}
