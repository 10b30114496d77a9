/**
 `ShardInbox` as the code holds it: slots updated in place, `bits`-wide wrapping counters and a mask
 for the index.  The methods describe calls without interference, as from a single thread and in
 `Drop`; interleavings are the subject of the step machine.
 */
module ShardInbox {
  import opened Wrappers
  import opened Arith
  import opened FixedWidth
  import I = Inbox

  /** `n.next_power_of_two()` */
  method NextPowerOfTwo(n: nat) returns (p: nat, ghost k: nat)
    requires n >= 1
    ensures p == I.Pow2(k) && n <= p < 2 * n
  {
    p, k := 1, 0;
    while p < n
      invariant p == I.Pow2(k) && p < 2 * n
      decreases n - p
    {
      p, k := 2 * p, k + 1;
    }
  }

  lemma {:induction false} Pow2Monotone(a: nat, b: nat)
    ensures I.Pow2(a) < I.Pow2(b) <==> a < b
  {
    if a > 0 && b > 0 {
      Pow2Monotone(a - 1, b - 1);
    }
  }

  /** Positions less than a ring apart have different slots. */
  lemma OtherSlot(p: nat, q: nat, cap: nat)
    requires p != q && p < q + cap && q < p + cap
    ensures p % cap != q % cap
  {
    if p % cap == q % cap {
      ModUnique(p, q, cap);
    }
  }

  /** The slot of the j-th position from the front. */
  ghost predicate SlotAt<T>(cs: seq<I.Slot<T>>, freed: nat, contents: seq<T>, m: nat, j: nat)
    requires |cs| > 0 && m > 0
  {
    var p := freed + j;
    cs[p % |cs|] == if j < |contents| then I.Slot((p + 1) % m, Some(contents[j])) else I.Slot(p % m, None)
  }

  /** The slots hold the queued values from the first unfreed position on, and are free after them. */
  ghost predicate Window<T>(cs: seq<I.Slot<T>>, freed: nat, contents: seq<T>, m: nat) {
    |cs| > 0 && m > 0 && |contents| <= |cs| && forall j: nat | j < |cs| :: SlotAt(cs, freed, contents, m, j)
  }

  lemma PushedWindow<T>(cs: seq<I.Slot<T>>, freed: nat, contents: seq<T>, m: nat, v: T)
    requires Window(cs, freed, contents, m) && |contents| < |cs|
    ensures var p := freed + |contents|;
            Window(cs[p % |cs| := I.Slot((p + 1) % m, Some(v))], freed, contents + [v], m)
  {
    var p := freed + |contents|;
    var cs' := cs[p % |cs| := I.Slot((p + 1) % m, Some(v))];
    forall j: nat | j < |cs|
      ensures SlotAt(cs', freed, contents + [v], m, j)
    {
      assert SlotAt(cs, freed, contents, m, j);
      if freed + j != p {
        OtherSlot(freed + j, p, |cs|);
      }
    }
  }

  lemma PoppedWindow<T>(cs: seq<I.Slot<T>>, freed: nat, contents: seq<T>, m: nat)
    requires Window(cs, freed, contents, m) && contents != []
    ensures Window(cs[freed % |cs| := I.Slot((freed + |cs|) % m, None)], freed + 1, contents[1..], m)
  {
    var cs' := cs[freed % |cs| := I.Slot((freed + |cs|) % m, None)];
    var next, rest := freed + 1, contents[1..];
    forall j: nat | j < |cs|
      ensures SlotAt(cs', next, rest, m, j)
    {
      if j == |cs| - 1 {
        ModShift(freed, |cs|);
      } else {
        assert SlotAt(cs, freed, contents, m, j + 1);
        OtherSlot(freed + 1 + j, freed, |cs|);
      }
    }
  }

  class Ring<T> {
    const bits: nat
    const mask: nat
    const cells: array<I.Slot<T>>
    var tail: nat
    var head: nat

    ghost var contents: seq<T>  // the queued values, oldest first
    ghost var freed: nat        // `head` without wrap-around
    ghost const k: nat          // log2 of the capacity

    ghost predicate Valid()
      reads this, cells
    {
      && 1 <= k < bits
      && cells.Length == I.Pow2(k) == mask + 1
      && head == freed % I.Pow2(bits)
      && tail == (freed + |contents|) % I.Pow2(bits)
      && Window(cells[..], freed, contents, I.Pow2(bits))
    }

    constructor (bits: nat, requested: nat)
      requires bits >= 2 && 2 * requested <= I.Pow2(bits)
      ensures Valid() && fresh(cells) && contents == [] && this.bits == bits
      ensures cells.Length >= 2 && requested <= cells.Length
      ensures requested > 2 ==> cells.Length < 2 * requested
    {
      var cap, e := NextPowerOfTwo(if requested < 2 then 2 else requested);
      var slots := new I.Slot<T>[cap]((i: nat) => I.Slot(i, None));
      this.bits := bits;
      mask := cap - 1;
      cells := slots;
      tail, head := 0, 0;
      contents, freed, k := [], 0, e;
      new;
      ghost var m := I.Pow2(bits);
      Pow2Monotone(0, e);
      Pow2Monotone(e, bits);
      assert m == 2 * I.Pow2(bits - 1) && I.Pow2(2) == 4;
      Pow2Monotone(bits, 2);
      ModOfSum(0, 0, m);
      forall j: nat | j < cap
        ensures SlotAt(cells[..], 0, contents, m, j)
      {
        ModOfSum(0, j, cap);
        ModOfSum(0, j, m);
      }
    }

    /** `x & mask` names the slot of the unwrapped counter. */
    lemma Index(x: nat)
      requires Valid()
      ensures BitAnd(x % I.Pow2(bits), mask) == x % cells.Length < cells.Length
    {
      MaskIsMod(x % I.Pow2(bits), k);
      SameSlot(x, k, bits);
    }

    lemma RoomToWrap()
      requires Valid()
      ensures 2 * cells.Length <= I.Pow2(bits) && I.Pow2(bits) >= 4 && cells.Length >= 2
    {
      Pow2Split(k + 1, bits);
      MulAtLeast(I.Pow2(bits - k - 1), I.Pow2(k + 1));
      Pow2Monotone(bits, 2);
      assert I.Pow2(2) == 4;
      Pow2Monotone(k, 1);
    }

    /** What `push` finds in the slot of its tail. */
    lemma TailSlot()
      requires Valid()
      ensures var p := freed + |contents|;
              var seqNo := cells[p % cells.Length].seqNo;
              I.SignedDiff(I.Bits(bits), seqNo, tail) == if |contents| < cells.Length then 0 else 1 - cells.Length
    {
      RoomToWrap();
      var p := freed + |contents|;
      if |contents| < cells.Length {
        assert SlotAt(cells[..], freed, contents, I.Pow2(bits), |contents|);
        SignedDiffExact(p, p, bits);
      } else {
        assert SlotAt(cells[..], freed, contents, I.Pow2(bits), 0);
        ModShift(freed, cells.Length);
        SignedDiffExact(freed + 1, p, bits);
      }
    }

    /** Ok(was_empty), or Full handing the value back. */
    method Push(value: T) returns (r: Result<bool, T>)
      requires Valid()
      modifies this, cells
      ensures Valid()
      ensures r.Ok? <==> |old(contents)| < cells.Length
      ensures r.Ok? ==> contents == old(contents) + [value] && r.value == (old(contents) == [])
      ensures r.Err? ==> r.error == value && contents == old(contents)
    {
      ghost var p, m := freed + |contents|, I.Pow2(bits);
      Index(p);
      TailSlot();
      RoomToWrap();
      var t := tail;
      var index := BitAnd(t, mask);
      var diff := I.SignedDiff(I.Bits(bits), cells[index].seqNo, t);
      if diff < 0 {
        return Err(value);
      }
      WrapEqual(freed, p, m);
      r := Ok(head == t);
      Store(index, t, value);
    }

    /** The position is claimed and its slot is written and published. */
    method Store(index: nat, t: nat, value: T)
      requires Valid() && |contents| < cells.Length && t == tail && index == (freed + |contents|) % cells.Length
      modifies this`tail, this`contents, cells
      ensures Valid() && contents == old(contents) + [value]
    {
      ghost var before, m := cells[..], I.Pow2(bits);
      PushedWindow(before, freed, contents, m, value);
      WrapNext(freed + |contents|, t);
      tail := I.Wrap(I.Bits(bits), t + 1);
      cells[index] := cells[index].(val := Some(value));
      cells[index] := cells[index].(seqNo := I.Wrap(I.Bits(bits), t + 1));
      assert cells[..] == before[index := I.Slot(tail, Some(value))];
      contents := contents + [value];
      assert freed + |contents| == freed + |old(contents)| + 1;
    }

    /** `wrapping_add(1)` of a wrapped counter. */
    lemma WrapNext(x: nat, t: nat)
      requires t == x % I.Pow2(bits)
      ensures I.Wrap(I.Bits(bits), t + 1) == (x + 1) % I.Pow2(bits)
    {
      ModAdd(x, 1, I.Pow2(bits));
    }

    /** What `pop` and `is_empty` find in the slot of the head. */
    lemma HeadSlot()
      requires Valid()
      ensures var seqNo := cells[freed % cells.Length].seqNo;
              && I.SignedDiff(I.Bits(bits), seqNo, (freed + 1) % I.Pow2(bits)) == (if contents != [] then 0 else -1)
              && (seqNo == (freed + 1) % I.Pow2(bits) <==> contents != [])
    {
      RoomToWrap();
      assert SlotAt(cells[..], freed, contents, I.Pow2(bits), 0);
      SignedDiffExact(if contents != [] then freed + 1 else freed, freed + 1, bits);
      WrapEqual(freed, freed + 1, I.Pow2(bits));
    }

    method Pop() returns (r: Option<T>)
      requires Valid()
      modifies this, cells
      ensures Valid()
      ensures old(contents) == [] ==> r == None && contents == []
      ensures old(contents) != [] ==> r == Some(old(contents)[0]) && contents == old(contents)[1..]
    {
      ghost var m := I.Pow2(bits);
      Index(freed);
      HeadSlot();
      ModAdd(freed, 1, m);
      var h := head;
      var index := BitAnd(h, mask);
      var diff := I.SignedDiff(I.Bits(bits), cells[index].seqNo, I.Wrap(I.Bits(bits), h + 1));
      if diff != 0 {
        return None;
      }
      assert SlotAt(cells[..], freed, contents, I.Pow2(bits), 0);
      r := cells[index].val;
      Release(index, h);
    }

    /** The slot at the head is emptied and handed back, and the head moves on. */
    method Release(index: nat, h: nat)
      requires Valid() && contents != [] && h == head && index == freed % cells.Length
      modifies this`head, this`contents, this`freed, cells
      ensures Valid() && contents == old(contents)[1..]
    {
      ghost var m := I.Pow2(bits);
      ModAdd(freed, 1, m);
      ModAdd(freed, cells.Length, m);
      PoppedWindow(cells[..], freed, contents, m);
      cells[index] := cells[index].(val := None);
      cells[index] := cells[index].(seqNo := I.Wrap(I.Bits(bits), h + mask + 1));
      head := I.Wrap(I.Bits(bits), h + 1);
      contents, freed := contents[1..], freed + 1;
      assert cells[..] == old(cells[..])[index := I.Slot((freed - 1 + cells.Length) % m, None)];
    }

    method IsEmpty() returns (r: bool)
      requires Valid()
      ensures r <==> contents == []
    {
      Index(freed);
      HeadSlot();
      ModAdd(freed, 1, I.Pow2(bits));
      var h := head;
      r := cells[BitAnd(h, mask)].seqNo != I.Wrap(I.Bits(bits), h + 1);
    }

    /** `Drop`: every value still queued is taken out once, oldest first. */
    method Drop() returns (dropped: seq<T>)
      requires Valid()
      modifies this, cells
      ensures Valid() && contents == [] && dropped == old(contents)
    {
      dropped := [];
      var next := Pop();
      while next.Some?
        invariant Valid()
        invariant next.None? ==> contents == [] && dropped == old(contents)
        invariant next.Some? ==> dropped + [next.value] + contents == old(contents)
        decreases next.Some?, |contents|
      {
        dropped := dropped + [next.value];
        next := Pop();
      }
    }
  }
}
