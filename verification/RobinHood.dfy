/** The robin-hood hash table itself: one array of nodes, one array of info
    bytes, and the methods that update both in place. */
module RobinHood {
  import opened Bits
  import opened RobinHoodLayout
  import opened RobinHoodCrowd

  const INITIAL_NUM_ELEMENTS: nat := 8
  const INITIAL_INFO_INC: nat := 32
  const INITIAL_HASH_SHIFT: nat := 59

  /** How a growing operation ends: the source throws overflow_error either at
      the load check or while moving elements, and bad_alloc when it cannot
      allocate. */
  datatype Outcome = Done | LoadOverflow | MoveOverflow | BadAlloc

  /** How one round of an insertion's retry loop ends */
  datatype Round = Found | Inserted | Grown | Failed(outcome: Outcome)

  lemma MaskNext(i: nat, k: nat)
    requires i < Pow2(k)
    ensures And(i + 1, Pow2(k) - 1) == Next(i, Pow2(k))
  {
    if i + 1 < Pow2(k) {
      AndMaskBelow(i + 1, k);
    } else {
      AndMaskWraps(k);
    }
  }

  lemma BelowWord(k: nat)
    requires Pow2(k) < WORD
    ensures k < 64
  {
    Pow2Of64();
    if k >= 64 {
      Pow2Mono(64, k);
    }
  }

  lemma MaskPrev(i: Word, k: nat)
    requires i < Pow2(k) < WORD
    ensures And((i - 1) % WORD, Pow2(k) - 1) == Prev(i, Pow2(k))
  {
    if i > 0 {
      AndMaskBelow(i - 1, k);
    } else {
      AllOnes(k, 64);
    }
  }

  /** A full word masked with 2^k - 1 */
  lemma AllOnes(k: nat, width: nat)
    requires Pow2(k) < WORD && width == 64
    ensures And(WORD - 1, Pow2(k) - 1) == Pow2(k) - 1
  {
    BelowWord(k);
    Pow2Of64();
    AndMaskOfOnes(width, k);
  }

  datatype Op<K, V> = Insert(key: K, val: V) | Index(key: K) | Erase(key: K) | Clear | Reserve(count: Word)

  /** What an operation does to a plain finite map */
  ghost function Apply<K, V>(m: map<K, V>, op: Op<K, V>, zero: V): map<K, V> {
    match op
    case Insert(k, v) => if k in m then m else m[k := v]
    case Index(k) => if k in m then m else m[k := zero]
    case Erase(k) => m - {k}
    case Clear => map[]
    case Reserve(_) => m
  }

  ghost function ApplyAll<K, V>(m: map<K, V>, ops: seq<Op<K, V>>, zero: V): map<K, V> {
    if ops == [] then m else Apply(ApplyAll(m, ops[..|ops| - 1], zero), ops[|ops| - 1], zero)
  }

  lemma ApplyAllStep<K, V>(m: map<K, V>, ops: seq<Op<K, V>>, i: nat, zero: V)
    requires i < |ops|
    ensures ApplyAll(m, ops[..i + 1], zero) == Apply(ApplyAll(m, ops[..i], zero), ops[i], zero)
  {
    assert ops[..i + 1][..i] == ops[..i];
  }

  lemma DoublingWraps(k: nat, size: nat, d: nat)
    requires size == Pow2(k) < WORD && d == size * 2 % WORD
    ensures if d == 0 then k == 63 else d == Pow2(k + 1) && size < d < WORD
  {
    Pow2Of64();
    BelowWord(k);
    if k == 63 {
      assert Pow2(64) == 2 * Pow2(63);
    } else {
      Pow2Mono(k + 2, 64);
    }
  }

  /** The load limits of the powers of two from 8 up to 2^k are all too low. */
  ghost predicate SmallerFail(k: nat, minAllowed: nat, loadPercent: nat) {
    forall m :: 3 <= m < k ==> CalcMaxNumElementsAllowed(Pow2(m), loadPercent) < minAllowed
  }

  lemma OneMoreFails(k: nat, size: nat, minAllowed: nat, loadPercent: nat)
    requires SmallerFail(k, minAllowed, loadPercent) && size == Pow2(k)
    requires CalcMaxNumElementsAllowed(size, loadPercent) < minAllowed
    ensures SmallerFail(k + 1, minAllowed, loadPercent)
  {
  }

  /** The least power of two from 8 on whose load limit reaches minAllowed, or
      zero when doubling runs out of the word first */
  method PickSize(minAllowed: nat, loadPercent: nat) returns (newSize: nat, ghost k: nat)
    ensures k >= 3 && SmallerFail(k, minAllowed, loadPercent)
    ensures if newSize == 0 then k == 64
            else newSize == Pow2(k) < WORD && CalcMaxNumElementsAllowed(newSize, loadPercent) >= minAllowed
  {
    newSize, k := INITIAL_NUM_ELEMENTS, 3;
    assert Pow2(3) == INITIAL_NUM_ELEMENTS;
    while newSize != 0 && CalcMaxNumElementsAllowed(newSize, loadPercent) < minAllowed
      invariant k >= 3 && if newSize == 0 then k == 64 else newSize == Pow2(k) < WORD
      invariant SmallerFail(k, minAllowed, loadPercent)
      decreases if newSize == 0 then 0 else WORD - newSize
    {
      ghost var was := newSize;
      newSize := newSize * 2 % WORD;
      DoublingWraps(k, was, newSize);
      OneMoreFails(k, was, minAllowed, loadPercent);
      k := k + 1;
    }
  }

  /** Half of the size picked would not do. */
  lemma HalfTooSmall(k: nat, newSize: nat, minAllowed: nat, loadPercent: nat)
    requires k >= 3 && newSize == Pow2(k)
    requires SmallerFail(k, minAllowed, loadPercent)
    ensures newSize > INITIAL_NUM_ELEMENTS ==> CalcMaxNumElementsAllowed(newSize / 2, loadPercent) < minAllowed
  {
    if k > 3 {
      assert newSize / 2 == Pow2(k - 1);
    } else {
      assert Pow2(3) == INITIAL_NUM_ELEMENTS;
    }
  }

  class Table<K(==), V> {
    const hash: K -> Word
    const loadPercent: nat
    /** The most buckets the allocator can provide */
    const maxBuckets: nat
    /** What operator[] stores under a new key */
    const zero: V

    var keyVals: array<Node<K, V>>
    var info: array<nat>
    var numElements: nat
    var mask: nat
    var maxAllowed: nat
    var infoInc: nat
    var hashShift: nat
    ghost var bits: nat
    ghost var at: map<K, nat>

    ghost function Geo(): Geometry<K>
      reads this
    {
      Geometry(mask + 1, infoInc, hashShift, hash)
    }

    /** Sizes of the arrays, the mask and the constants */
    ghost predicate Framed()
      reads this
    {
      && 10 < loadPercent < 100
      && maxBuckets < 0x1000_0000_0000_0000
      && mask + 1 == Pow2(bits) < WORD
      && (bits == 0 || (bits >= 3 && mask + 1 <= maxBuckets))
      && keyVals.Length == mask + 1
      && info.Length == mask + 1 + 8
    }

    /** Every info byte fits, for the present growth limit */
    ghost predicate Fit()
      requires Framed()
      reads this, info
    {
      Fits(Geo(), maxAllowed, info[..])
    }

    /** Move the element before idx into idx */
    method MoveUp(idx: nat) returns (prevIdx: nat)
      requires Framed() && Fit() && idx <= mask && info[Prev(idx, mask + 1)] + infoInc <= 255
      modifies info, keyVals, this`maxAllowed
      ensures prevIdx == Prev(idx, mask + 1)
      ensures info[..] == old(info[..])[idx := old(info[prevIdx]) + infoInc]
      ensures keyVals[..] == old(keyVals[..])[idx := old(keyVals[prevIdx])]
      ensures maxAllowed == 0 || maxAllowed == old(maxAllowed)
      ensures maxAllowed == 0 && old(maxAllowed) > 0 ==> info[idx] + infoInc > 255
      ensures Fit()
    {
      MaskPrev(idx, bits);
      prevIdx := And((idx - 1) % WORD, mask);
      keyVals[idx] := keyVals[prevIdx];
      info[idx] := (info[prevIdx] + infoInc) % 256;
      if info[idx] + infoInc > 0xFF {
        maxAllowed := 0;
      }
    }

    /** Shift everything from insertionIdx up by one element, into start */
    method ShiftUp(start: nat, insertionIdx: nat) returns (ghost w: nat)
      requires Framed() && Fit() && start <= mask && insertionIdx <= mask
      requires forall x :: 0 <= x <= mask ==> info[x] + infoInc <= 255
      modifies info, keyVals, this`maxAllowed
      ensures Shifting(Geo(), old(info[..]), old(keyVals[..]), info[..], keyVals[..], insertionIdx, start, insertionIdx)
      ensures maxAllowed == 0 || maxAllowed == old(maxAllowed)
      ensures maxAllowed == 0 && old(maxAllowed) > 0 ==> w <= mask && w != insertionIdx && info[w] + infoInc > 255
      ensures Fit()
    {
      var idx: nat := start;
      w := 0;
      ghost var info0, nodes0 := info[..], keyVals[..];
      while idx != insertionIdx
        invariant idx <= mask && Fit() && (maxAllowed == 0 || maxAllowed == old(maxAllowed))
        invariant Shifting(Geo(), info0, nodes0, info[..], keyVals[..], insertionIdx, start, idx)
        invariant maxAllowed == 0 && old(maxAllowed) > 0 ==> AtLimit(w, insertionIdx, idx)
        decreases Dist(insertionIdx, idx, mask + 1)
      {
        idx, w := ShiftOne(idx, start, insertionIdx, info0, nodes0, w);
      }
    }

    /** Slot w, which the shift has passed, holds a byte at its limit. */
    ghost predicate AtLimit(w: nat, insertionIdx: nat, idx: nat)
      reads this, info
    {
      && w <= mask && idx <= mask && insertionIdx <= mask && w < info.Length && info[w] + infoInc > 255
      && Dist(insertionIdx, idx, mask + 1) < Dist(insertionIdx, w, mask + 1)
    }

    /** One round of the shift */
    method ShiftOne(
      here: nat, ghost start: nat, ghost insertionIdx: nat, ghost info0: seq<nat>, ghost nodes0: seq<Node<K, V>>,
      ghost w0: nat)
      returns (idx: nat, ghost w: nat)
      requires Framed() && Fit() && start <= mask && insertionIdx <= mask && here <= mask && here != insertionIdx
      requires |info0| == info.Length && |nodes0| == keyVals.Length
      requires forall x :: 0 <= x <= mask ==> info0[x] + infoInc <= 255
      requires Shifting(Geo(), info0, nodes0, info[..], keyVals[..], insertionIdx, start, here)
      modifies info, keyVals, this`maxAllowed
      ensures idx == Prev(here, mask + 1) && Fit() && (maxAllowed == 0 || maxAllowed == old(maxAllowed))
      ensures Shifting(Geo(), info0, nodes0, info[..], keyVals[..], insertionIdx, start, idx)
      ensures maxAllowed == 0 && old(maxAllowed) > 0 ==> AtLimit(w, insertionIdx, idx)
      ensures old(maxAllowed == 0 && AtLimit(w0, insertionIdx, here)) ==> AtLimit(w, insertionIdx, idx)
    {
      ShiftingStep(Geo(), info0, nodes0, info[..], keyVals[..], insertionIdx, start, here);
      w := if maxAllowed > 0 then here else w0;
      idx := MoveUp(here);
    }

    /** The growth limit was set to zero for a reason: a byte that is at its limit,
        or too few buckets for any element. */
    ghost predicate Tight()
      requires Framed()
      reads this, info
    {
      maxAllowed == 0 ==>
        CalcMaxNumElementsAllowed(mask + 1, loadPercent) == 0 || exists x :: 0 <= x <= mask && info[x] + infoInc > 255
    }

    /** What an operation that throws has come up against: a table with no hash
        bit left to give up that is not half full, the same while moving
        elements, or more buckets than there is memory for */
    ghost predicate Blocked(outcome: Outcome)
      reads this
    {
      match outcome
      case Done => true
      case LoadOverflow =>
        && mask > 0 && infoInc <= 2 && numElements >= maxAllowed
        && numElements * 2 < CalcMaxNumElementsAllowed(mask + 1, loadPercent)
      case MoveOverflow => infoInc <= 2 && maxAllowed == 0
      case BadAlloc => mask + 1 > maxBuckets
    }

    /** The table's invariant, and through `Model` its meaning */
    ghost predicate Valid()
      reads this, info, keyVals
    {
      && Framed()
      && TableInv(Geo(), maxAllowed, numElements, loadPercent, info[..], keyVals[..], at)
    }

    ghost function Model(): map<K, V>
      requires Valid()
      reads this, info, keyVals
    {
      Contents(keyVals[..], at)
    }

    constructor (hash: K -> Word, loadPercent: nat, maxBuckets: nat, zero: V)
      requires 10 < loadPercent < 100 && maxBuckets < 0x1000_0000_0000_0000
      ensures Valid() && Model() == map[] && fresh(info) && fresh(keyVals)
      ensures this.hash == hash && this.loadPercent == loadPercent && this.maxBuckets == maxBuckets && this.zero == zero
    {
      this.hash, this.loadPercent, this.maxBuckets, this.zero := hash, loadPercent, maxBuckets, zero;
      keyVals := new Node<K, V>[1](_ => Raw);
      info := new nat[9](_ => 0);
      numElements, mask, maxAllowed := 0, 0, 0;
      infoInc, hashShift := INITIAL_INFO_INC, INITIAL_HASH_SHIFT;
      bits, at := 0, map[];
      new;
      assert Pow2(5) == 32;
    }

    method KeyToIdx(key: K) returns (idx: nat, inf: nat)
      requires Valid()
      ensures idx == Home(Geo(), key) && inf == InfoAt(infoInc, Tag(Geo(), key), 0)
    {
      idx := hash(key);
      inf := infoInc + Shr(idx, hashShift);
      idx := And(idx, mask);
    }

    /** The index after idx, wrapping around at the end */
    method NextIdx(idx: nat) returns (r: nat)
      requires Framed() && idx <= mask
      ensures r == Next(idx, mask + 1)
    {
      MaskNext(idx, bits);
      r := And(idx + 1, mask);
    }

    lemma RawSlot() returns (e: nat)
      requires Valid()
      ensures e <= mask && keyVals[..][e].Raw?
    {
      HasRaw(keyVals[..], at);
      e :| 0 <= e < |keyVals[..]| && keyVals[..][e].Raw?;
    }

    /** A lookup for key stands at slot idx with byte inf after j steps. */
    ghost predicate Looking(key: K, e: nat, j: nat, idx: nat, inf: nat)
      requires Valid()
      reads this, info, keyVals
    {
      && idx <= mask && inf >= infoInc >= 2
      && (key in at ==> Probe(Geo(), info[..], keyVals[..], at, key, e, j, idx, inf))
    }

    /** Compare one slot with the key, and step on when it is not the key's */
    method ProbeSlot(key: K, idx: nat, inf: nat, ghost e: nat, ghost j: nat) returns (hit: bool, idx': nat, inf': nat)
      requires Valid() && Looking(key, e, j, idx, inf)
      ensures hit ==> key in at && at[key] == idx == idx'
      ensures !hit ==> Looking(key, e, j + 1, idx', inf') && inf' == inf + infoInc && (key in at ==> at[key] != idx)
    {
      ghost var g, infos, nodes := Geo(), info[..], keyVals[..];
      ZeroIsRaw(g, infos, nodes, idx);
      hit, idx', inf' := inf == info[idx] && key == keyVals[idx].key, idx, inf;
      if hit {
        assert nodes[idx].key == key;
      } else {
        if key in at {
          if at[key] == idx {
            ProbeHits(g, infos, nodes, at, key, e, j, idx, inf);
          }
          if inf > infos[idx] {
            ProbeStops(g, infos, nodes, at, key, e, j, idx, inf);
          }
          ProbeStep(g, infos, nodes, at, key, e, j, idx, inf);
        }
        idx' := NextIdx(idx);
        inf' := inf + infoInc;
      }
    }

    method StartLooking(key: K) returns (idx: nat, inf: nat, ghost e: nat)
      requires Valid()
      ensures Looking(key, e, 0, idx, inf)
      ensures e <= mask && Probe(Geo(), info[..], keyVals[..], at, key, e, 0, idx, inf) && inf < 2 * infoInc
    {
      idx, inf := KeyToIdx(key);
      e := RawSlot();
      IncIsEven(Geo());
      TagBelowInc(Geo(), key);
    }

    lemma LookingEnds(key: K, e: nat, j: nat, idx: nat, inf: nat)
      requires Valid() && Looking(key, e, j, idx, inf) && inf > info[idx]
      ensures key !in at
    {
      if key in at {
        ProbeStops(Geo(), info[..], keyVals[..], at, key, e, j, idx, inf);
      }
    }

    /** findIdx: the slot of key, or the end position when it is not stored. The
        loop looks at two slots before it tests whether to go on. */
    method FindIdx(key: K) returns (idx: nat)
      requires Valid()
      ensures key in Model() ==> idx <= mask && keyVals[idx] == Pair(key, Model()[key])
      ensures key !in Model() ==> idx == if mask == 0 then 0 else mask + 1
    {
      var inf, hit;
      ghost var e;
      idx, inf, e := StartLooking(key);
      ghost var j := 0;
      while true
        invariant Looking(key, e, j, idx, inf) && inf <= 255 + 2 * infoInc
        decreases 256 + 2 * infoInc - inf
      {
        hit, idx, inf := ProbeSlot(key, idx, inf, e, j);
        if hit {
          return;
        }
        hit, idx, inf := ProbeSlot(key, idx, inf, e, j + 1);
        if hit {
          return;
        }
        j := j + 2;
        if inf > info[idx] {
          break;
        }
      }
      LookingEnds(key, e, j, idx, inf);
      idx := if mask == 0 then 0 else mask + 1;
    }

    // -------------------------------------------------------------- erasing

    /** Move the element at nextIdx one slot back, into the gap at idx */
    method MoveDown(idx: nat, nextIdx: nat, ghost info0: seq<nat>, ghost nodes0: seq<Node<K, V>>,
                    ghost start: nat, ghost e: nat)
      requires Framed() && Fit() && Sized(Geo()) && Shaped(Geo(), info0, nodes0)
      requires start <= mask && nodes0[start].Pair? && e <= mask && nodes0[e].Raw?
      requires Closing(Geo(), info0, nodes0, info[..], keyVals[..], start, idx)
      requires nextIdx == Next(idx, mask + 1) && info[nextIdx] >= 2 * infoInc
      modifies info, keyVals
      ensures Closing(Geo(), info0, nodes0, info[..], keyVals[..], start, nextIdx) && Fit()
      ensures Dist(start, idx, mask + 1) < Dist(start, nextIdx, mask + 1) <= Dist(start, e, mask + 1)
    {
      ghost var info1, nodes1 := info[..], keyVals[..];
      info[idx] := (info[nextIdx] - infoInc) % 256;
      keyVals[idx] := keyVals[nextIdx];
      ClosingStep(Geo(), info0, nodes0, info1, nodes1, info[..], keyVals[..], start, idx, nextIdx, e);
    }

    /** Move displaced followers of start one slot back each; the last one's
        slot is left to be vacated. */
    method CloseGap(start: nat, ghost e: nat) returns (idx: nat)
      requires Framed() && Fit() && Sized(Geo()) && Shaped(Geo(), info[..], keyVals[..])
      requires start <= mask && keyVals[start].Pair? && e <= mask && keyVals[e].Raw?
      modifies info, keyVals
      ensures idx <= mask && Fit()
      ensures Closing(Geo(), old(info[..]), old(keyVals[..]), info[..], keyVals[..], start, idx)
      ensures !FollowerAway(Geo(), old(info[..]), idx)
    {
      ghost var g, info0, nodes0 := Geo(), info[..], keyVals[..];
      idx := start;
      var nextIdx := NextIdx(idx);
      while info[nextIdx] >= 2 * infoInc
        invariant idx <= mask && nextIdx == Next(idx, mask + 1)
        invariant Closing(g, info0, nodes0, info[..], keyVals[..], start, idx) && Fit()
        invariant Dist(start, idx, mask + 1) <= Dist(start, e, mask + 1)
        decreases Dist(start, e, mask + 1) - Dist(start, idx, mask + 1)
      {
        MoveDown(idx, nextIdx, info0, nodes0, start, e);
        idx := nextIdx;
        nextIdx := NextIdx(idx);
      }
      ClosingReads(g, info0, nodes0, info[..], keyVals[..], start, idx, e);
    }

    /** Close the gap at start by moving displaced followers back */
    method ShiftDown(start: nat, ghost e: nat) returns (ghost r: nat)
      requires Framed() && Fit() && Sized(Geo()) && Shaped(Geo(), info[..], keyVals[..])
      requires start <= mask && keyVals[start].Pair? && e <= mask && keyVals[e].Raw?
      modifies info, keyVals
      ensures r <= mask && RunAfter(Geo(), old(info[..]), start, r)
      ensures ErasedAt(Geo(), old(info[..]), old(keyVals[..]), info[..], keyVals[..], start, r)
      ensures info[mask + 1..] == old(info[mask + 1..]) && Fit()
    {
      ghost var info0, nodes0 := info[..], keyVals[..];
      var idx := CloseGap(start, e);
      ClosingDone(Geo(), info0, nodes0, info[..], keyVals[..], start, idx);
      ghost var info1 := info[..];
      IncIsEven(Geo());
      info[idx] := 0;
      keyVals[idx] := Raw;
      r := idx;
      assert info[mask + 1..] == info1[mask + 1..] == info0[mask + 1..];
    }

    /** Shift down over the element at idx and count one less */
    method Drop(idx: nat)
      requires Valid() && idx <= mask && keyVals[idx].Pair?
      modifies this, info, keyVals
      ensures Valid() && info == old(info) && keyVals == old(keyVals) && mask == old(mask)
      ensures Model() == old(Model()) - {old(keyVals[idx].key)}
    {
      ghost var g, allowed, num, load := Geo(), maxAllowed, numElements, loadPercent;
      ghost var info0, nodes0, at0 := info[..], keyVals[..], at;
      ghost var e := RawSlot();
      ghost var r := ShiftDown(idx, e);
      ghost var info1, nodes1 := info[..], keyVals[..];
      ghost var at1 := EraseKeepsTable(g, allowed, num, load, info0, nodes0, at0, info1, nodes1, idx, r, e);
      Recount(numElements - 1, at1);
    }

    /** Record a new element count, with the slots already in place */
    method Recount(num: nat, ghost at1: map<K, nat>)
      requires Framed() && TableInv(Geo(), maxAllowed, num, loadPercent, info[..], keyVals[..], at1)
      modifies this`numElements, this`at
      ensures Valid() && numElements == num && at == at1
    {
      ghost var g, info1, nodes1 := Geo(), info[..], keyVals[..];
      numElements := num;
      at := at1;
      assert Geo() == g && info[..] == info1 && keyVals[..] == nodes1;
    }

    /** The search loop of erase, which tests after every slot */
    method Locate(key: K) returns (found: bool, idx: nat)
      requires Valid()
      ensures found <==> key in at
      ensures found ==> idx == at[key]
    {
      var inf, hit;
      ghost var e;
      idx, inf, e := StartLooking(key);
      ghost var j := 0;
      while true
        invariant Looking(key, e, j, idx, inf) && inf <= 255 + 2 * infoInc
        decreases 256 + 2 * infoInc - inf
      {
        hit, idx, inf := ProbeSlot(key, idx, inf, e, j);
        if hit {
          return true, idx;
        }
        j := j + 1;
        if inf > info[idx] {
          break;
        }
      }
      LookingEnds(key, e, j, idx, inf);
      found := false;
    }

    method Erase(key: K) returns (erased: nat)
      requires Valid()
      modifies this, info, keyVals
      ensures Valid() && info == old(info) && keyVals == old(keyVals)
      ensures Model() == old(Model()) - {key}
      ensures erased == if key in old(Model()) then 1 else 0
    {
      var found, idx := Locate(key);
      erased := 0;
      if found {
        Drop(idx);
        erased := 1;
      }
    }

    // ------------------------------------------------------------ inserting

    /** The probe for key has made j steps and stands at idx with byte inf. */
    ghost predicate Probing(key: K, e: nat, j: nat, idx: nat, inf: nat)
      requires Valid()
      reads this, info, keyVals
    {
      Probe(Geo(), info[..], keyVals[..], at, key, e, j, idx, inf)
    }

    /** One step of a probe past a slot that is not the key's */
    method Advance(key: K, idx: nat, inf: nat, ghost e: nat, ghost j: nat) returns (idx': nat, inf': nat)
      requires Valid() && Probing(key, e, j, idx, inf)
      requires inf <= info[idx] && (key in at && at[key] == idx ==> inf < info[idx])
      ensures Probing(key, e, j + 1, idx', inf') && idx' <= mask
      ensures inf' == inf + infoInc && info[idx'] <= info[idx] + infoInc
      ensures j + 1 <= Dist(Home(Geo(), key), e, mask + 1)
    {
      ghost var g, infos, nodes := Geo(), info[..], keyVals[..];
      if key in at && at[key] == idx {
        ProbeHits(g, infos, nodes, at, key, e, j, idx, inf);
      }
      ProbeStep(g, infos, nodes, at, key, e, j, idx, inf);
      idx' := NextIdx(idx);
      inf' := inf + infoInc;
    }

    /** Skip the slots whose byte is greater than the probe's */
    method NextWhileLess(key: K, start: nat, inf0: nat, ghost e: nat)
      returns (idx: nat, inf: nat, ghost j: nat)
      requires Valid() && start <= mask && e <= mask && Probing(key, e, 0, start, inf0)
      ensures idx <= mask && Probing(key, e, j, idx, inf) && inf >= info[idx]
    {
      idx, inf, j := start, inf0, 0;
      while inf < info[idx]
        invariant idx <= mask && Probing(key, e, j, idx, inf)
        decreases Dist(Home(Geo(), key), e, mask + 1) - j
      {
        idx, inf := Advance(key, idx, inf, e, j);
        j := j + 1;
      }
    }

    /** The search that precedes an insertion: skip richer slots, then compare
        the slots whose byte equals the probe's. */
    method Seek(key: K) returns (found: bool, idx: nat, inf: nat, ghost j: nat)
      requires Valid()
      ensures found <==> key in at
      ensures found ==> idx == at[key]
      ensures !found ==> StopsAt(Geo(), info[..], key, j, idx, inf)
    {
      ghost var e;
      idx, inf, e := StartLooking(key);
      idx, inf, j := NextWhileLess(key, idx, inf, e);
      while inf == info[idx]
        invariant idx <= mask && Probing(key, e, j, idx, inf) && inf >= info[idx]
        decreases Dist(Home(Geo(), key), e, mask + 1) - j
      {
        var same := IsKeyAt(key, idx);
        if same {
          return true, idx, inf, j;
        }
        idx, inf := Advance(key, idx, inf, e, j);
        j := j + 1;
      }
      ProbeStops(Geo(), info[..], keyVals[..], at, key, e, j, idx, inf);
      found := false;
    }

    /** Compare the key in an occupied slot */
    method IsKeyAt(key: K, idx: nat) returns (same: bool)
      requires Valid() && idx <= mask && info[idx] > 0
      ensures same <==> key in at && at[key] == idx
    {
      MatchIsSlot(key, idx);
      same := key == keyVals[idx].key;
    }

    /** A slot with a nonzero byte holds a pair, and it is its key's own slot. */
    lemma MatchIsSlot(key: K, idx: nat)
      requires Valid() && idx <= mask && info[idx] > 0
      ensures keyVals[idx].Pair?
      ensures keyVals[idx].key == key <==> key in at && at[key] == idx
    {
      ghost var nodes := keyVals[..];
      assert nodes[idx] == keyVals[idx];
      ZeroIsRaw(Geo(), info[..], nodes, idx);
      assert nodes[idx].key in at;
    }

    /** Walk from start to the next raw slot */
    method FindEmpty(start: nat) returns (idx: nat)
      requires Valid() && start <= mask
      ensures idx <= mask && UsedUpTo(keyVals[..], start, idx)
    {
      ghost var e := RawSlot();
      ghost var g, infos, nodes := Geo(), info[..], keyVals[..];
      idx := start;
      while 0 != info[idx]
        invariant idx <= mask && UsedBefore(nodes, start, idx) && Dist(start, idx, mask + 1) <= Dist(start, e, mask + 1)
        decreases Dist(start, e, mask + 1) - Dist(start, idx, mask + 1)
      {
        ZeroIsRaw(g, infos, nodes, idx);
        UsedStep(nodes, start, idx, e);
        idx := NextIdx(idx);
      }
      ZeroIsRaw(g, infos, nodes, idx);
    }

    /** Make room at insertionIdx and write the new pair there */
    method WriteAt(key: K, val: V, insertionIdx: nat, insertionInfo: nat, ghost j: nat)
      returns (ghost e: nat, ghost w: nat)
      requires Valid() && maxAllowed > 0
      requires StopsAt(Geo(), info[..], key, j, insertionIdx, insertionInfo)
      modifies this`maxAllowed, info, keyVals
      ensures e <= mask && UsedUpTo(old(keyVals[..]), insertionIdx, e)
      ensures InsertedAt(Geo(), old(info[..]), old(keyVals[..]), info[..], keyVals[..],
                         insertionIdx, e, insertionInfo, key, val)
      ensures maxAllowed == 0 || maxAllowed == old(maxAllowed)
      ensures maxAllowed == 0 ==> w <= mask && info[w] + infoInc > 255
      ensures info[mask + 1..] == old(info[mask + 1..]) && Fit()
    {
      ghost var g, info0, nodes0 := Geo(), info[..], keyVals[..];
      InsertionByteFits(g, maxAllowed, info0, key, j, insertionIdx, insertionInfo);
      var idx := FindEmpty(insertionIdx);
      if insertionInfo + infoInc > 0xFF {
        maxAllowed := 0;
      }
      w := ShiftUp(idx, insertionIdx);
      ShiftingDone(g, info0, nodes0, info[..], keyVals[..], insertionIdx, idx, insertionInfo, key, val);
      SetSlot(insertionIdx, insertionInfo, key, val);
      e := idx;
      if insertionInfo + infoInc > 0xFF { w := insertionIdx; }
    }

    /** Put an absent key where its probe stopped */
    method Place(key: K, val: V, insertionIdx: nat, insertionInfo: nat, ghost j: nat)
      requires Valid() && mask > 0 && key !in at
      requires 0 < maxAllowed && numElements < CalcMaxNumElementsAllowed(mask + 1, loadPercent)
      requires StopsAt(Geo(), info[..], key, j, insertionIdx, insertionInfo)
      modifies this, info, keyVals
      ensures Valid() && info == old(info) && keyVals == old(keyVals) && mask == old(mask)
      ensures Model() == old(Model())[key := val] && at[key] == insertionIdx && Tight()
    {
      ghost var g, info0, nodes0, at0, allowed0 := Geo(), info[..], keyVals[..], at, maxAllowed;
      ghost var e, w := WriteAt(key, val, insertionIdx, insertionInfo, j);
      ghost var info1, nodes1, num := info[..], keyVals[..], numElements;
      ghost var at1 := InsertKeepsTable(g, allowed0, maxAllowed, num, loadPercent, info0, nodes0, at0, info1, nodes1,
                                        insertionIdx, e, insertionInfo, j, key, val);
      Recount(numElements + 1, at1);
    }

    method SetSlot(idx: nat, inf: nat, key: K, val: V)
      requires Framed() && Fit() && idx <= mask && inf <= 255 && (maxAllowed > 0 ==> inf + infoInc <= 255)
      modifies info, keyVals
      ensures info[..] == old(info[..])[idx := inf] && keyVals[..] == old(keyVals[..])[idx := Pair(key, val)]
      ensures info[mask + 1..] == old(info[mask + 1..]) && Fit()
    {
      keyVals[idx] := Pair(key, val);
      info[idx] := inf % 256;
    }

    // -------------------------------------------------------------- growing

    /** Halve the eight info bytes from lo on with one shift and one mask */
    method HalveWord(lo: nat)
      requires lo + 8 <= info.Length && forall x :: lo <= x < lo + 8 ==> info[x] <= 255
      modifies info
      ensures forall x :: lo <= x < lo + 8 ==> info[x] == old(info[x]) / 2
      ensures forall x :: 0 <= x < lo || lo + 8 <= x < info.Length ==> info[x] == old(info[x])
    {
      var bytes := info[lo..lo + 8];
      var out := ToBytes(And(FromBytes(bytes) / 2, SEVENS), |bytes|);
      HalveWordBytes(bytes);
      for t := 0 to |bytes|
        invariant forall x :: lo <= x < lo + t ==> info[x] == old(info[x]) / 2
        invariant forall x :: 0 <= x < lo || lo + t <= x < info.Length ==> info[x] == old(info[x])
      {
        info[lo + t] := out[t];
      }
    }

    /** The loop of try_increase_info over all words of info bytes */
    method HalveAll()
      requires Framed() && mask > 0 && forall x :: 0 <= x <= mask ==> info[x] <= 255
      modifies info
      ensures Halved(mask + 1, old(info[..]), info[..])
    {
      assert Pow2(bits) == 2 * Pow2(bits - 1) == 4 * Pow2(bits - 2) == 8 * Pow2(bits - 3);
      var numEntries := (mask + 1) / 8;
      for i := 0 to numEntries
        invariant forall x :: 0 <= x < 8 * i ==> info[x] == old(info[x]) / 2
        invariant forall x :: 8 * i <= x < info.Length ==> info[x] == old(info[x])
      {
        HalveWord(8 * i);
      }
    }

    /** Give up one hash bit in every info byte for one more bit of distance */
    method Rescale()
      requires Framed() && mask > 0 && infoInc > 2 && Fit()
      modifies this`infoInc, this`hashShift, this`maxAllowed, info
      ensures infoInc == old(infoInc) / 2 && hashShift == old(hashShift) + 1
      ensures maxAllowed == CalcMaxNumElementsAllowed(mask + 1, loadPercent)
      ensures Halved(mask + 1, old(info[..]), info[..])
    {
      infoInc := infoInc / 2;
      hashShift := hashShift + 1;
      HalveAll();
      maxAllowed := CalcMaxNumElementsAllowed(mask + 1, loadPercent);
    }

    method TryIncreaseInfo() returns (ok: bool)
      requires Valid() && mask > 0
      modifies this`infoInc, this`hashShift, this`maxAllowed, info
      ensures Valid() && Model() == old(Model())
      ensures ok == (old(infoInc) > 2)
      ensures ok ==> infoInc == old(infoInc) / 2 && maxAllowed == CalcMaxNumElementsAllowed(mask + 1, loadPercent)
      ensures !ok ==> maxAllowed == old(maxAllowed) && infoInc == old(infoInc)
    {
      ok := infoInc > 2;
      if ok {
        IncreaseInfo();
      }
    }

    method IncreaseInfo()
      requires Valid() && mask > 0 && infoInc > 2
      modifies this`infoInc, this`hashShift, this`maxAllowed, info
      ensures Valid() && keyVals[..] == old(keyVals[..])
      ensures infoInc == old(infoInc) / 2 && maxAllowed == CalcMaxNumElementsAllowed(mask + 1, loadPercent)
    {
      ghost var g, allowed, info0, nodes0 := Geo(), maxAllowed, info[..], keyVals[..];
      Rescale();
      RescaleKeepsTable(g, allowed, numElements, loadPercent, info0, nodes0, at, info[..]);
      assert keyVals[..] == nodes0;
    }

    /** Allocate n empty buckets; without memory the fields written so far stay */
    method InitData(n: nat, ghost k: nat) returns (ok: bool)
      requires 10 < loadPercent < 100 && maxBuckets < 0x1000_0000_0000_0000
      requires k >= 3 && n == Pow2(k)
      modifies this
      ensures (ok <==> n <= maxBuckets) && mask == n - 1
      ensures ok ==> Valid() && Model() == map[] && mask == n - 1 && fresh(info) && fresh(keyVals)
      ensures ok ==> maxAllowed == CalcMaxNumElementsAllowed(n, loadPercent) && infoInc == INITIAL_INFO_INC
    {
      assert Pow2(k) == 2 * Pow2(k - 1) && Pow2(k - 1) == 2 * Pow2(k - 2) && Pow2(k - 2) == 2 * Pow2(k - 3);
      numElements := 0;
      mask := n - 1;
      maxAllowed := CalcMaxNumElementsAllowed(n, loadPercent);
      ok := n <= maxBuckets;
      if ok {
        var nodes := new Node<K, V>[n](_ => Raw);
        var bytes := new nat[n + 8](i => if i == n then 1 else 0);
        keyVals, info := nodes, bytes;
        infoInc := INITIAL_INFO_INC;
        hashShift := INITIAL_HASH_SHIFT;
        bits, at := k, map[];
        FreshIsEmpty(n);
      }
    }

    lemma FreshIsEmpty(n: nat)
      requires Framed() && n == mask + 1 > 1 && infoInc == INITIAL_INFO_INC && hashShift == INITIAL_HASH_SHIFT
      requires maxAllowed == CalcMaxNumElementsAllowed(n, loadPercent)
      requires forall i :: 0 <= i < n ==> keyVals[i].Raw?
      requires forall i :: 0 <= i < n + 8 ==> info[i] == if i == n then 1 else 0
      ensures TableInv(Geo(), maxAllowed, 0, loadPercent, info[..], keyVals[..], map[])
      ensures Contents(keyVals[..], map[]) == map[]
    {
      assert Pow2(5) == 32;
      assert info[..][n..] == TAIL;
      EmptyTable(Geo(), maxAllowed, loadPercent, info[..], keyVals[..]);
    }

    /** With the growth limit tight, the table is full just when its keys crowd. */
    lemma FullTable()
      requires Valid() && Tight() && CalcMaxNumElementsAllowed(mask + 1, loadPercent) > 0
      ensures maxAllowed == 0 && infoInc <= 2 <==> Crowded(mask + 1, hash, at.Keys, FARTHEST)
    {
      var e := RawSlot();
      FullExactly(Geo(), maxAllowed, info[..], keyVals[..], at, e);
    }

    /** Give up hash bits if a byte is at its limit */
    method MakeRoom(ghost n: nat) returns (ok: bool)
      requires n == mask + 1
      requires Valid() && mask > 0 && Tight() && CalcMaxNumElementsAllowed(mask + 1, loadPercent) > 0
      modifies this`infoInc, this`hashShift, this`maxAllowed, info
      ensures Valid() && Model() == old(Model())
      ensures ok <==> !Crowded(n, hash, at.Keys, FARTHEST)
      ensures if ok then maxAllowed > 0 else Blocked(MoveOverflow)
    {
      FullTable();
      ok := true;
      if 0 == maxAllowed {
        ok := TryIncreaseInfo();
      }
    }

    /** Insert a pair whose key is known to be new */
    method InsertMove(key: K, val: V, ghost n: nat) returns (ok: bool)
      requires n == mask + 1 && Valid() && mask > 0 && key !in at && Tight()
      requires numElements < CalcMaxNumElementsAllowed(mask + 1, loadPercent)
      modifies this, info, keyVals
      ensures Valid() && mask == old(mask) && info == old(info) && keyVals == old(keyVals)
      ensures Model() == if ok then old(Model())[key := val] else old(Model())
      ensures ok <==> !Crowded(n, hash, old(at.Keys), FARTHEST)
      ensures if ok then Tight() else Blocked(MoveOverflow)
    {
      ok := MakeRoom(n);
      if !ok {
        return;
      }
      var idx, inf;
      ghost var j;
      idx, inf, j := SeekNew(key);
      Place(key, val, idx, inf, j);
      ok := true;
    }

    /** The search of insert_move, which need not compare keys */
    method SeekNew(key: K) returns (idx: nat, inf: nat, ghost j: nat)
      requires Valid() && key !in at
      ensures StopsAt(Geo(), info[..], key, j, idx, inf)
    {
      ghost var e;
      idx, inf, e := StartLooking(key);
      j := 0;
      while inf <= info[idx]
        invariant idx <= mask && Probing(key, e, j, idx, inf)
        decreases Dist(Home(Geo(), key), e, mask + 1) - j
      {
        idx, inf := Advance(key, idx, inf, e, j);
        j := j + 1;
      }
      ProbeStops(Geo(), info[..], keyVals[..], at, key, e, j, idx, inf);
    }

    /** The table holds exactly what the first i old slots held. */
    ghost predicate MovedTo(nodes: seq<Node<K, V>>, at0: map<K, nat>, i: nat)
      reads this, info, keyVals
    {
      && Valid() && mask > 0
      && Indexed(nodes, at0) && |at0| <= CalcMaxNumElementsAllowed(mask + 1, loadPercent)
      && Model() == Upto(nodes, at0, i)
    }

    /** Move old slot i, if it holds a pair, after those before it */
    method MoveOne(
      node: Node<K, V>, byte: nat, ghost nodes: seq<Node<K, V>>, ghost at0: map<K, nat>, ghost i: nat, ghost n: nat)
      returns (ok: bool)
      requires MovedTo(nodes, at0, i) && Tight() && n == mask + 1
      requires i < |nodes| && nodes[i] == node && (byte != 0 <==> node.Pair?)
      modifies this, info, keyVals
      ensures MovedTo(nodes, at0, if ok then i + 1 else i) && if ok then Tight() else Blocked(MoveOverflow)
      ensures ok <==> MovesNext(n, hash, nodes, at0, i)
      ensures mask == old(mask) && info == old(info) && keyVals == old(keyVals)
    {
      UptoStep(nodes, at0, i);
      ok := true;
      if byte != 0 {
        assert |Model()| == |Model().Keys| == |at.Keys| == |at|;
        ok := InsertMove(node.key, node.val, n);
      }
    }

    /** Move every pair of the old slots into the present, empty table */
    method MoveAll(nodes: seq<Node<K, V>>, bytes: seq<nat>, ghost at0: map<K, nat>, ghost n: nat)
      returns (ok: bool, ghost moved: nat)
      requires MovedTo(nodes, at0, 0) && Tight() && n == mask + 1
      requires |nodes| <= |bytes| && forall i :: 0 <= i < |nodes| ==> (bytes[i] != 0 <==> nodes[i].Pair?)
      modifies this, info, keyVals
      ensures MovedTo(nodes, at0, moved) && if ok then moved == |nodes| else Blocked(MoveOverflow)
      ensures (ok <==> AllMove(n, hash, nodes, at0)) && (!ok ==> StopsMoving(n, hash, nodes, at0, moved))
      ensures mask == old(mask) && info == old(info) && keyVals == old(keyVals)
    {
      var i := 0;
      ok := true;
      while ok && i < |nodes|
        invariant i <= |nodes| && MovedTo(nodes, at0, i) && if ok then Tight() else Blocked(MoveOverflow)
        invariant mask + 1 == n && info == old(info) && keyVals == old(keyVals)
        invariant if ok then FirstMove(n, hash, nodes, at0, i)
                  else StopsMoving(n, hash, nodes, at0, i) && !AllMove(n, hash, nodes, at0)
        decreases |nodes| - i, ok
      {
        ok := MoveOne(nodes[i], bytes[i], nodes, at0, i, n);
        FirstMoveStep(n, hash, nodes, at0, i, ok);
        if ok {
          i := i + 1;
        }
      }
      moved := i;
    }

    /** Fill the present, empty table with all pairs of the old slots */
    method Refill(nodes: seq<Node<K, V>>, bytes: seq<nat>, ghost at0: map<K, nat>, oldMaxElements: nat, ghost n: nat)
      returns (outcome: Outcome, ghost stop: nat)
      requires n == mask + 1
      requires MovedTo(nodes, at0, 0) && Tight() && (oldMaxElements <= 1 ==> Contents(nodes, at0) == map[])
      requires |nodes| <= |bytes| && forall i :: 0 <= i < |nodes| ==> (bytes[i] != 0 <==> nodes[i].Pair?)
      modifies this, info, keyVals
      ensures Valid() && (outcome.Done? || outcome.MoveOverflow?) && Blocked(outcome)
      ensures mask == old(mask) && info == old(info) && keyVals == old(keyVals)
      ensures outcome.Done? <==> AllMove(n, hash, nodes, at0)
      ensures outcome.Done? ==> Model() == Contents(nodes, at0)
      ensures outcome.MoveOverflow? ==> StopsMoving(n, hash, nodes, at0, stop) && Model() == Upto(nodes, at0, stop)
    {
      UptoAll(nodes, at0, 0);
      outcome, stop := Done, 0;
      if oldMaxElements > 1 {
        var ok;
        ok, stop := MoveAll(nodes, bytes, at0, n);
        UptoAll(nodes, at0, stop);
        outcome := if ok then Done else MoveOverflow;
      } else {
        NothingToMove(n, hash, nodes, at0);
      }
    }

    /** No key is stopped on its way to n buckets by the ones in slots before it. */
    ghost predicate Movable(n: nat)
      requires Valid()
      reads this, info, keyVals
    {
      AllMove(n, hash, keyVals[..], at)
    }

    /** The next insertion has to double the buckets, and there is a pair that it
        cannot move. */
    ghost predicate LosesPairs()
      requires Valid()
      reads this, info, keyVals
    {
      var allowed := CalcMaxNumElementsAllowed(mask + 1, loadPercent);
      && mask > 0 && numElements >= maxAllowed && (numElements >= allowed || infoInc <= 2) && numElements * 2 >= allowed
      && (mask + 1) * 2 <= maxBuckets && !Movable((mask + 1) * 2)
    }

    /** rehashPowerOfTwo: a failed move loses the pairs not moved yet */
    method RehashPowerOfTwo(numBuckets: nat, ghost k: nat) returns (outcome: Outcome, ghost stop: nat)
      requires Valid() && k >= 3 && numBuckets == Pow2(k)
      requires numElements <= CalcMaxNumElementsAllowed(numBuckets, loadPercent)
      modifies this
      ensures (outcome.BadAlloc? <==> numBuckets > maxBuckets) && mask == numBuckets - 1 && !outcome.LoadOverflow?
      ensures outcome.Done? <==> numBuckets <= maxBuckets && old(Movable(numBuckets))
      ensures !outcome.BadAlloc? ==> Valid() && fresh(info) && fresh(keyVals)
      ensures outcome.Done? ==> Model() == old(Model())
      ensures outcome.MoveOverflow? ==>
        && Blocked(MoveOverflow) && old(StopsMoving(numBuckets, hash, keyVals[..], at, stop))
        && Model() == old(Upto(keyVals[..], at, stop)) && Submap(Model(), old(Model()))
    {
      // the old arrays, which nothing writes any more
      OldSlots();
      ghost var nodes, at0 := keyVals[..], at;
      outcome, stop := Rebuild(keyVals[..], info[..], at, mask + 1, numBuckets, k);
      UptoAll(nodes, at0, stop);
    }

    /** Allocate n buckets and move the pairs of the old slots into them */
    method Rebuild(
      nodes: seq<Node<K, V>>, bytes: seq<nat>, ghost at0: map<K, nat>, oldMaxElements: nat, n: nat, ghost k: nat)
      returns (outcome: Outcome, ghost stop: nat)
      requires 10 < loadPercent < 100 && maxBuckets < 0x1000_0000_0000_0000 && k >= 3 && n == Pow2(k)
      requires Indexed(nodes, at0) && |at0| <= CalcMaxNumElementsAllowed(n, loadPercent)
      requires |nodes| <= |bytes| && forall i :: 0 <= i < |nodes| ==> (bytes[i] != 0 <==> nodes[i].Pair?)
      requires oldMaxElements <= 1 ==> Contents(nodes, at0) == map[]
      modifies this
      ensures (outcome.BadAlloc? <==> n > maxBuckets) && mask == n - 1 && !outcome.LoadOverflow?
      ensures outcome.Done? <==> n <= maxBuckets && AllMove(n, hash, nodes, at0)
      ensures !outcome.BadAlloc? ==> Valid() && fresh(info) && fresh(keyVals)
      ensures outcome.Done? ==> Model() == Contents(nodes, at0)
      ensures outcome.MoveOverflow? ==>
        Blocked(MoveOverflow) && StopsMoving(n, hash, nodes, at0, stop) && Model() == Upto(nodes, at0, stop)
    {
      var ok := InitData(n, k);
      outcome, stop := BadAlloc, 0;
      if ok {
        NoneMoved(nodes, at0);
        outcome, stop := Refill(nodes, bytes, at0, oldMaxElements, n);
      }
    }

    /** An empty table holds what the first 0 old slots held. */
    lemma NoneMoved(nodes: seq<Node<K, V>>, at0: map<K, nat>)
      requires Valid() && mask > 0 && Model() == map[]
      requires Indexed(nodes, at0) && |at0| <= CalcMaxNumElementsAllowed(mask + 1, loadPercent)
      ensures MovedTo(nodes, at0, 0)
    {
      UptoAll(nodes, at0, 0);
    }

    lemma FewMovable(n: nat)
      requires Valid()
      ensures numElements <= FARTHEST + 1 ==> Movable(n)
    {
      if numElements <= FARTHEST + 1 { FewMove(n, hash, keyVals[..], at); }
    }

    lemma OldSlots()
      requires Valid()
      ensures forall i :: 0 <= i <= mask ==> (info[i] != 0 <==> keyVals[i].Pair?)
      ensures forall i :: 0 <= i < |keyVals[..]| ==> (info[..][i] != 0 <==> keyVals[..][i].Pair?)
      ensures mask == 0 ==> Model() == map[]
      ensures Indexed(keyVals[..], at) && |at| == numElements
    {
      forall i | 0 <= i <= mask
        ensures info[i] != 0 <==> keyVals[i].Pair?
      {
        ZeroIsRaw(Geo(), info[..], keyVals[..], i);
        assert info[..][i] == info[i] && keyVals[..][i] == keyVals[i];
      }
    }

    /** Allocate the first buckets of a table that has none yet */
    method FirstData() returns (outcome: Outcome)
      requires Valid() && mask == 0
      modifies this
      ensures (outcome.Done? || outcome.BadAlloc?) && Blocked(outcome)
      ensures outcome.Done? ==> Valid() && Model() == old(Model()) && mask > 0 && fresh(info) && fresh(keyVals)
    {
      assert Pow2(3) == INITIAL_NUM_ELEMENTS;
      OldSlots();
      var ok := InitData(INITIAL_NUM_ELEMENTS, 3);
      outcome := if ok then Done else BadAlloc;
    }

    method DoubleData() returns (outcome: Outcome)
      requires Valid() && mask > 0 && CalcMaxNumElementsAllowed(mask + 1, loadPercent) <= numElements * 2
      modifies this
      ensures !outcome.BadAlloc? ==> Valid() && fresh(info) && fresh(keyVals)
      ensures outcome.Done? ==> Model() == old(Model())
      ensures outcome.MoveOverflow? ==> Submap(Model(), old(Model()))
      ensures !outcome.LoadOverflow? && Blocked(outcome)
      ensures outcome.MoveOverflow? ==> old(numElements) > FARTHEST + 1
      ensures (mask + 1 <= maxBuckets <==> !outcome.BadAlloc?) && mask + 1 == (old(mask) + 1) * 2
      ensures outcome.MoveOverflow? <==> mask + 1 <= maxBuckets && !old(Movable((mask + 1) * 2))
      ensures outcome.Done? ==> old(mask) < mask && old(mask) < GrowthBound(old(numElements))
    {
      GrowthIsBounded(mask + 1, loadPercent, numElements);
      AllowedGrows(mask + 1, loadPercent);
      FewMovable((mask + 1) * 2);
      ghost var stop;
      outcome, stop := RehashPowerOfTwo((mask + 1) * 2, bits + 1);
    }

    /** Make room for one more element */
    method IncreaseSize() returns (outcome: Outcome)
      requires Valid() && numElements >= maxAllowed
      modifies this, info
      ensures !outcome.BadAlloc? ==>
        Valid() && (info == old(info) || fresh(info)) && (keyVals == old(keyVals) || fresh(keyVals))
      ensures outcome.Done? || outcome.LoadOverflow? ==> Model() == old(Model())
      ensures outcome.MoveOverflow? ==> Submap(Model(), old(Model()))
      ensures outcome.Done? ==>
        || (old(mask) < mask && old(mask) < GrowthBound(old(numElements)))
        || (old(mask) == mask && infoInc < old(infoInc))
      ensures Blocked(outcome) && (outcome.MoveOverflow? ==> old(numElements) > FARTHEST + 1)
      ensures old(LosesPairs()) ==> outcome.MoveOverflow?
    {
      if 0 == mask {
        outcome := FirstData();
        return;
      }
      var allowed := CalcMaxNumElementsAllowed(mask + 1, loadPercent);
      if numElements < allowed {
        var ok := TryIncreaseInfo();
        if ok {
          return Done;
        }
      }
      if numElements * 2 < allowed {
        return LoadOverflow;
      }
      outcome := DoubleData();
    }

    /** One round of the retry loop shared by doInsert and doCreateByKey */
    method InsertRound(key: K, val: V) returns (round: Round, idx: nat)
      requires Valid()
      modifies this, info, keyVals
      ensures !(round.Failed? && round.outcome.BadAlloc?) ==>
        Valid() && (info == old(info) || fresh(info)) && (keyVals == old(keyVals) || fresh(keyVals))
      ensures round.Found? <==> key in old(Model())
      ensures round.Found? || round.Grown? || (round.Failed? && round.outcome.LoadOverflow?) ==> Model() == old(Model())
      ensures round.Inserted? ==> Model() == old(Model())[key := val]
      ensures round.Failed? && round.outcome.MoveOverflow? ==> Submap(Model(), old(Model()))
      ensures round.Found? || round.Inserted? ==> idx <= mask && keyVals[idx] == Pair(key, Model()[key])
      ensures round.Grown? ==>
        || (old(mask) < mask && old(mask) < GrowthBound(|old(Model())|))
        || (old(mask) == mask && infoInc < old(infoInc))
      ensures round.Failed? ==> !round.outcome.Done? && Blocked(round.outcome)
      ensures round.Failed? && round.outcome.MoveOverflow? ==> |old(Model())| > FARTHEST + 1
      ensures old(LosesPairs()) && key !in old(Model()) ==> round == Failed(MoveOverflow)
    {
      var found, inf;
      ghost var j;
      found, idx, inf, j := Seek(key);
      assert |Model()| == |Model().Keys| == |at.Keys| == |at|;
      if found {
        round := Found;
      } else if numElements >= maxAllowed {
        var outcome := IncreaseSize();
        round := if outcome.Done? then Grown else Failed(outcome);
      } else {
        Place(key, val, idx, inf, j);
        round := Inserted;
      }
    }

    /** The retry loop: rounds until there is room, the key turns up, or growing
        fails */
    method InsertRetry(key: K, val: V) returns (round: Round, idx: nat)
      requires Valid()
      modifies this, info, keyVals
      ensures !(round.Failed? && round.outcome.BadAlloc?) ==>
        Valid() && (info == old(info) || fresh(info)) && (keyVals == old(keyVals) || fresh(keyVals))
      ensures !round.Grown? && (round.Found? <==> key in old(Model()))
      ensures round.Found? || (round.Failed? && round.outcome.LoadOverflow?) ==> Model() == old(Model())
      ensures round.Inserted? ==> Model() == old(Model())[key := val]
      ensures round.Failed? && round.outcome.MoveOverflow? ==>
        Submap(Model(), old(Model())) && |old(Model())| > FARTHEST + 1
      ensures round.Found? || round.Inserted? ==> idx <= mask && keyVals[idx] == Pair(key, Model()[key])
      ensures round.Failed? ==> !round.outcome.Done? && Blocked(round.outcome)
      ensures old(LosesPairs()) && key !in old(Model()) ==> round == Failed(MoveOverflow)
    {
      ghost var bound, lost := GrowthBound(|Model()|), LosesPairs() && key !in Model();
      while true
        invariant Valid() && Model() == old(Model()) && (lost ==> LosesPairs())
        invariant (info == old(info) || fresh(info)) && (keyVals == old(keyVals) || fresh(keyVals))
        decreases if mask < bound then bound - mask else 0, infoInc
      {
        round, idx := InsertRound(key, val);
        if round != Grown {
          return;
        }
      }
    }

    /** doInsert: retry until there is room, the key turns up, or growing fails */
    method DoInsert(key: K, val: V) returns (outcome: Outcome, inserted: bool, idx: nat)
      requires Valid()
      modifies this, info, keyVals
      ensures !outcome.BadAlloc? ==>
        Valid() && (info == old(info) || fresh(info)) && (keyVals == old(keyVals) || fresh(keyVals))
      ensures outcome.Done? ==> Model() == if key in old(Model()) then old(Model()) else old(Model())[key := val]
      ensures outcome.Done? ==> idx <= mask && keyVals[idx] == Pair(key, Model()[key])
      ensures inserted <==> outcome.Done? && key !in old(Model())
      ensures !outcome.Done? ==> key !in old(Model()) && Blocked(outcome)
      ensures outcome.MoveOverflow? ==> |old(Model())| > FARTHEST + 1
      ensures old(LosesPairs()) && key !in old(Model()) ==> outcome.MoveOverflow?
      ensures outcome.LoadOverflow? ==> Model() == old(Model())
      ensures outcome.MoveOverflow? ==> Submap(Model(), old(Model()))
    {
      var round;
      round, idx := InsertRetry(key, val);
      match round
      case Failed(o) => return o, false, 0;
      case Found => return Done, false, idx;
      case Inserted => return Done, true, idx;
    }

    /** operator[]: the slot of key, after storing the default when it is new */
    method DoCreateByKey(key: K) returns (outcome: Outcome, idx: nat)
      requires Valid()
      modifies this, info, keyVals
      ensures !outcome.BadAlloc? ==>
        Valid() && (info == old(info) || fresh(info)) && (keyVals == old(keyVals) || fresh(keyVals))
      ensures outcome.Done? ==> Model() == if key in old(Model()) then old(Model()) else old(Model())[key := zero]
      ensures outcome.Done? ==> idx <= mask && keyVals[idx] == Pair(key, Model()[key])
      ensures !outcome.Done? ==> key !in old(Model()) && Blocked(outcome)
      ensures outcome.MoveOverflow? ==> |old(Model())| > FARTHEST + 1
      ensures outcome.LoadOverflow? ==> Model() == old(Model())
      ensures outcome.MoveOverflow? ==> Submap(Model(), old(Model()))
    {
      var round;
      round, idx := InsertRetry(key, zero);
      match round
      case Failed(o) => return o, 0;
      case Found => return Done, idx;
      case Inserted => return Done, idx;
    }

    /** Destroy all nodes and zero every info byte but the sentinel */
    method WipeSlots()
      requires Framed()
      modifies info, keyVals
      ensures forall i :: 0 <= i <= mask ==> keyVals[i].Raw? && info[i] == 0
      ensures info[mask + 1..] == old(info[mask + 1..])
    {
      for i := 0 to mask + 1
        invariant forall x :: 0 <= x < i ==> keyVals[x].Raw? && info[x] == 0
        invariant forall x :: mask < x < info.Length ==> info[x] == old(info[x])
      {
        keyVals[i] := Raw;
        info[i] := 0;
      }
    }

    /** clear keeps the buckets and the growth limit */
    method Clear()
      requires Valid()
      modifies this, info, keyVals
      ensures Valid() && Model() == map[]
      ensures mask == old(mask) && maxAllowed == old(maxAllowed) && info == old(info) && keyVals == old(keyVals)
    {
      if 0 == numElements {
        return;
      }
      ghost var tail := info[mask + 1..];
      assert mask > 0 && tail == TAIL;
      numElements := 0;
      at := map[];
      WipeSlots();
      infoInc := INITIAL_INFO_INC;
      hashShift := INITIAL_HASH_SHIFT;
      assert Pow2(5) == 32;
      assert info[..][mask + 1..] == info[mask + 1..];
      EmptyTable(Geo(), maxAllowed, loadPercent, info[..], keyVals[..]);
    }

    /** reserve: rehash into the least bucket count that covers both the request
        and the present elements */
    method Reserve(c: Word) returns (outcome: Outcome)
      requires Valid()
      modifies this
      ensures !outcome.BadAlloc? ==>
        Valid() && (info == old(info) || fresh(info)) && (keyVals == old(keyVals) || fresh(keyVals))
      ensures outcome.Done? || outcome.LoadOverflow? ==> Model() == old(Model())
      ensures outcome.Done? ==> CalcMaxNumElementsAllowed(mask + 1, loadPercent) >= c
      ensures outcome.Done? && mask >= INITIAL_NUM_ELEMENTS ==>
        CalcMaxNumElementsAllowed((mask + 1) / 2, loadPercent) < (if c >= old(numElements) then c else old(numElements))
      ensures outcome.LoadOverflow? ==>
        SmallerFail(64, if c >= old(numElements) then c else old(numElements), loadPercent)
      ensures !outcome.LoadOverflow? ==> Blocked(outcome)
      ensures outcome.MoveOverflow? ==> old(numElements) > FARTHEST + 1
      ensures outcome.MoveOverflow? ==> Submap(Model(), old(Model()))
    {
      var minElementsAllowed := if c >= numElements then c else numElements;
      var newSize;
      ghost var k;
      newSize, k := PickSize(minElementsAllowed, loadPercent);
      if newSize == 0 {
        return LoadOverflow;
      }
      ghost var limit := CalcMaxNumElementsAllowed(newSize, loadPercent);
      assert limit >= c && limit >= numElements;
      HalfTooSmall(k, newSize, minElementsAllowed, loadPercent);
      outcome := RehashTo(newSize, k);
    }

    /** A rehash as its callers see it */
    method RehashTo(n: nat, ghost k: nat) returns (outcome: Outcome)
      requires Valid() && k >= 3 && n == Pow2(k) && numElements <= CalcMaxNumElementsAllowed(n, loadPercent)
      modifies this
      ensures mask + 1 == n && !outcome.LoadOverflow? && Blocked(outcome)
      ensures !outcome.BadAlloc? ==> Valid() && fresh(info) && fresh(keyVals)
      ensures outcome.Done? ==> Model() == old(Model())
      ensures outcome.MoveOverflow? ==> Submap(Model(), old(Model())) && old(numElements) > FARTHEST + 1
    {
      FewMovable(n);
      ghost var stop;
      outcome, stop := RehashPowerOfTwo(n, k);
    }

    // ------------------------------------------------------------- iterating

    /** Fast-forward an iterator to the next non-free info byte, eight at once */
    method FastForward(start: nat) returns (i: nat)
      requires Valid() && mask > 0 && start <= mask + 1
      ensures start <= i <= mask + 1 && info[i] != 0
      ensures forall x :: start <= x < i ==> info[x] == 0
    {
      i := start;
      var inc := 8;
      while inc == 8
        invariant start <= i <= mask + 1 && inc <= 8
        invariant forall x :: start <= x < i ==> info[x] == 0
        invariant inc < 8 ==> info[i] != 0
        decreases inc == 8, mask + 1 - i
      {
        assert info[..][mask + 1..][0] == info[mask + 1];
        TailIsBytes();
        inc := LoadAndCount(i);
        i := i + inc;
      }
    }

    lemma TailIsBytes()
      requires Valid() && mask > 0
      ensures info[mask + 1] == 1 && forall x :: 0 <= x < info.Length ==> info[x] < 256
    {
      forall x | 0 <= x < info.Length
        ensures info[x] < 256
      {
        if x > mask {
          assert info[..][mask + 1..][x - (mask + 1)] == info[x];
        } else {
          assert info[..][x] == info[x];
        }
      }
      assert info[..][mask + 1..][0] == info[mask + 1];
    }

    /** The number of zero bytes in front of the eight from i on */
    method LoadAndCount(i: nat) returns (inc: nat)
      requires i + 8 <= info.Length && forall x :: 0 <= x < info.Length ==> info[x] < 256
      ensures inc <= 8 && (forall x :: i <= x < i + inc ==> info[x] == 0) && (inc < 8 ==> info[i + inc] != 0)
    {
      ghost var bytes := info[i..i + 8];
      inc := CountTrailingZeroes(FromBytes(info[i..i + 8])) / 8;
      LeadingZeroBytes(bytes);
    }

    /** Step an iterator onto the next occupied slot from `start` on, or the end */
    method NextOccupied(start: nat, ghost slots: seq<nat>) returns (i: nat)
      requires Valid() && mask > 0 && start <= mask + 1 && ListsOccupied(keyVals[..], slots, start)
      ensures start <= i <= mask + 1 && (i <= mask ==> keyVals[..][i].Pair?)
      ensures ListsOccupied(keyVals[..], slots, i)
    {
      OldSlots();
      i := FastForward(start);
      ghost var nodes := keyVals[..];
      assert forall x :: start <= x < i ==> nodes[x] == keyVals[x];
      ListsSkip(nodes, slots, start, i);
    }

    /** erase at a position: it ends on the next element, which is in the same slot
        if one was shifted back into it, or at the end */
    method EraseAt(pos: nat) returns (next: nat)
      requires Valid() && pos <= mask && keyVals[pos].Pair?
      modifies this, info, keyVals
      ensures Valid() && info == old(info) && keyVals == old(keyVals) && mask == old(mask)
      ensures Model() == old(Model()) - {old(keyVals[pos].key)}
      ensures pos <= next <= mask + 1 && (next <= mask ==> keyVals[next].Pair?)
      ensures forall x :: pos <= x < next ==> keyVals[x].Raw?
    {
      OnePair(pos);
      Drop(pos);
      OldSlots();
      next := pos;
      if info[pos] == 0 {
        next := FastForward(pos + 1);
      }
    }

    /** Only an allocated table holds a pair. */
    lemma OnePair(i: nat)
      requires Valid() && i <= mask && keyVals[i].Pair?
      ensures mask > 0
    {
      assert keyVals[..][i] == keyVals[i];
    }

    /** A whole traversal from begin() to end(): the occupied slots, in order */
    method Traverse() returns (slots: seq<nat>)
      requires Valid()
      ensures ListsOccupied(keyVals[..], slots, mask + 1)
      ensures |slots| == |Model()|
    {
      slots := [];
      if 0 == numElements {
        EmptyHasNoPairs();
      } else {
        var i := NextOccupied(0, slots);
        while i != mask + 1
          invariant i <= mask + 1 && ListsOccupied(keyVals[..], slots, i) && (i <= mask ==> keyVals[..][i].Pair?)
          decreases mask + 1 - i
        {
          ListsOne(keyVals[..], slots, i);
          slots := slots + [i];
          i := NextOccupied(i + 1, slots);
        }
      }
      SlotsMatchKeys(keyVals[..], at, slots);
      assert |Model()| == |Model().Keys| == |at.Keys|;
    }

    lemma EmptyHasNoPairs()
      requires Valid() && numElements == 0
      ensures ListsOccupied(keyVals[..], [], mask + 1)
    {
      assert at.Keys == {};
      forall x | 0 <= x <= mask
        ensures keyVals[..][x].Raw?
      {
      }
    }

    // ------------------------------------------------------------ whole runs

    method Perform(op: Op<K, V>) returns (outcome: Outcome)
      requires Valid()
      modifies this, info, keyVals
      ensures outcome.Done? || outcome.LoadOverflow? ==>
        Valid() && (info == old(info) || fresh(info)) && (keyVals == old(keyVals) || fresh(keyVals))
      ensures outcome.Done? ==> Model() == Apply(old(Model()), op, zero)
      ensures outcome.LoadOverflow? ==> Model() == old(Model())
    {
      match op
      case Insert(k, v) =>
        var r, _, _ := DoInsert(k, v);
        outcome := r;
      case Index(k) =>
        var r, _ := DoCreateByKey(k);
        outcome := r;
      case Erase(k) =>
        var _ := Erase(k);
        outcome := Done;
      case Clear =>
        Clear();
        outcome := Done;
      case Reserve(c) =>
        outcome := Reserve(c);
    }

    /** Any sequence of operations that does not throw leaves the table standing
        for the map those operations describe. */
    method Run(ops: seq<Op<K, V>>) returns (done: nat, outcome: Outcome)
      requires Valid()
      modifies this, info, keyVals
      ensures done <= |ops| && (outcome.Done? <==> done == |ops|)
      ensures outcome.Done? || outcome.LoadOverflow? ==>
        Valid() && Model() == ApplyAll(old(Model()), ops[..done], zero)
    {
      done, outcome := 0, Done;
      ghost var m0 := Model();
      while done < |ops|
        invariant done <= |ops| && outcome.Done?
        invariant Valid() && Model() == ApplyAll(m0, ops[..done], zero)
        invariant (info == old(info) || fresh(info)) && (keyVals == old(keyVals) || fresh(keyVals))
      {
        ghost var m, next := Model(), ops[..done + 1];
        ApplyAllStep(m0, ops, done, zero);
        outcome := Perform(ops[done]);
        if !outcome.Done? {
          return;
        }
        assert Model() == ApplyAll(m0, next, zero);
        done := done + 1;
      }
    }
  }
}
