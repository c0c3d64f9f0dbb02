/** A table whose next insertion loses an element: 127 keys that share a hash fill
    the slots from 0 on, and key 200 sits in its own bucket after them. */
module RobinHoodLoss {
  import opened Collections
  import opened Bits
  import opened RobinHoodLayout
  import opened RobinHoodCrowd
  import opened RobinHood

  const SHARING: nat := 127

  predicate Stored(k: nat) {
    k < SHARING || k == 200
  }

  ghost predicate Hashes(hash: nat -> Word) {
    (forall k :: 0 <= k < SHARING ==> hash(k) == 0) && hash(200) == 200
  }

  function ByteAt(i: nat): nat {
    if i < SHARING then 2 * i + 2 else if i == 200 then 2 else 0
  }

  ghost function Places(): map<nat, nat> {
    map k | k in Indices(SHARING) + {200} :: k
  }

  /** 256 buckets at the coarsest scale, filled */
  ghost predicate Arrays(g: Geometry<nat>, info: seq<nat>, nodes: seq<Node<nat, int>>) {
    && Hashes(g.hash) && g.n == 256 && g.inc == 2 && g.shift == 63 && |nodes| == g.n && |info| == g.n + 8
    && info[g.n..] == TAIL
    && (forall i :: 0 <= i < g.n ==> info[i] == ByteAt(i))
    && (forall i :: 0 <= i < g.n ==> (nodes[i].Pair? <==> Stored(i)) && (Stored(i) ==> nodes[i].key == i))
  }

  /** The arrays and fields of the table */
  ghost predicate Filled(t: Table<nat, int>)
    reads t, t.info, t.keyVals
  {
    && t.loadPercent == 80 && 512 <= t.maxBuckets < 0x1000_0000_0000_0000
    && t.bits == 8 && t.maxAllowed == 0 && t.numElements == 128 && t.at == Places()
    && Arrays(t.Geo(), t.info[..], t.keyVals[..])
  }

  lemma Powers()
    ensures Pow2(1) == 2 && Pow2(8) == 256 && Pow2(9) == 512
  {
  }

  lemma {:induction false} ShrZero(k: nat)
    ensures Shr(0, k) == 0
  {
    if k > 0 { ShrZero(k - 1); }
  }

  lemma Homes(hash: nat -> Word, n: nat, k: nat)
    requires Hashes(hash) && (n == 256 || n == 512) && Stored(k)
    ensures HomeOf(n, hash, k) == if k == 200 then 200 else 0
    ensures Shr(hash(k), 63) == 0
  {
    Powers();
    AndMaskBelow(hash(k), if n == 256 then 8 else 9);
    ShrZero(63);
    if k == 200 { ShrSmall(); }
  }

  lemma ShrSmall()
    ensures Shr(200, 63) == 0
  {
    assert Shr(200, 8) == 0;
    ShrZero(55);
    assert Shr(200, 63) == 0;
  }

  lemma PlacesCount()
    ensures |Places()| == 128
  {
    var keys := Indices(SHARING) + {200};
    assert Places().Keys == keys && |keys| == SHARING + 1;
    assert |Places()| == |Places().Keys|;
  }

  lemma SlotFine(g: Geometry<nat>, info: seq<nat>, nodes: seq<Node<nat, int>>, i: nat, h: nat)
    requires Arrays(g, info, nodes) && i < g.n && h == if i == 200 then 200 else 0
    ensures SlotShape(g, info[i], nodes[i], i)
  {
    if Stored(i) {
      Homes(g.hash, g.n, i);
      InfoAtGrows(g.inc, Tag(g, i), Dist(h, i, g.n));
    }
  }

  lemma ArraysIndexed(g: Geometry<nat>, info: seq<nat>, nodes: seq<Node<nat, int>>, at: map<nat, nat>)
    requires Arrays(g, info, nodes) && at == Places()
    ensures Indexed(nodes, at) && Fits(g, 0, info)
  {
  }

  lemma CoarsestScale(g: Geometry<nat>)
    requires g.n > 0 && g.inc == 2 && g.shift == 63
    ensures Sized(g)
  {
    Powers();
  }

  lemma ArraysLaidOut(g: Geometry<nat>, info: seq<nat>, nodes: seq<Node<nat, int>>, at: map<nat, nat>)
    requires Arrays(g, info, nodes) && at == Places()
    ensures Layout(g, info, nodes, at) && Fits(g, 0, info)
  {
    CoarsestScale(g);
    ArraysIndexed(g, info, nodes, at);
    forall i: nat | i < g.n
      ensures SlotShape(g, info[i], nodes[i], i)
    {
      SlotFine(g, info, nodes, i, if i == 200 then 200 else 0);
    }
    forall i: nat | i < g.n
      ensures OrderedAt(g, info, i)
    {
      SlotOrdered(g, info, nodes, i);
    }
  }

  lemma SlotOrdered(g: Geometry<nat>, info: seq<nat>, nodes: seq<Node<nat, int>>, i: nat)
    requires Arrays(g, info, nodes) && i < g.n
    ensures OrderedAt(g, info, i)
  {
    assert info[i] == ByteAt(i) && info[Prev(i, g.n)] == ByteAt(Prev(i, g.n));
  }

  lemma FilledIsValid(t: Table<nat, int>)
    requires Filled(t)
    ensures t.Valid()
  {
    Powers();
    PlacesCount();
    ArraysLaidOut(t.Geo(), t.info[..], t.keyVals[..], t.at);
  }

  lemma Unmovable(t: Table<nat, int>)
    requires Filled(t) && t.Valid()
    ensures !t.Movable(512)
  {
    var nodes := t.keyVals[..];
    var keys := Upto(nodes, t.at, 200).Keys;
    assert keys == Indices(SHARING);
    var crowd := AtHome(512, t.hash, keys, 0, 1);
    forall k | k in keys
      ensures k in crowd
    {
      Homes(t.hash, 512, k);
    }
    SubsetCard(keys, crowd);
    assert Crowded(512, t.hash, keys, FARTHEST);
    assert !MovesNext(512, t.hash, nodes, t.at, 200);
  }

  /** The next new key makes the insertion throw, with the map cut down. */
  lemma LosesOne(t: Table<nat, int>)
    requires Filled(t)
    ensures t.Valid() && t.LosesPairs()
  {
    FilledIsValid(t);
    Unmovable(t);
  }
}
