/** The block allocator of common/memory_block.h. */
module Allocator {
  import opened BlockRep

  lemma {:induction false} BorrowSame(r: Rep, i: nat)
    requires Inv(r) && i + 1 < POOLS && r.lists[i + 1] != []
    ensures var r' := Split(Take(r, i + 1), i, r.lists[i + 1][0]); Inv(r') && SameLive(r, r')
  {
    var a := r.lists[i + 1][0];
    var mid := Take(r, i + 1);
    var r' := Split(mid, i, a);
    TakeKeeps(r, i + 1);
    SplitKeeps(mid, i, a);
    assert a in r.lists[i + 1];
    forall j: nat, b: nat
      ensures Live(r', j, b) <==> Live(r, j, b)
    {
      SplitLive(mid, i, a, j, b);
      assert Live(mid, j, b) <==> Live(r, j, b) || (j == i + 1 && b == a);
    }
    forall x: nat
      ensures Covered(r', x) <==> Covered(r, x)
    {
      SplitCovers(mid, i, a, x);
      SameOwned(r, mid, x);
    }
    SplitBytes(mid, i, a);
    assert OwnedCounts(mid) == OwnedCounts(r);
  }

  lemma {:induction false} SameOwned(r: Rep, r': Rep, x: nat)
    requires r'.owned == r.owned
    ensures Covered(r', x) <==> Covered(r, x)
  {
    assert forall i: nat, a: nat :: IsBlock(r', i, a) == IsBlock(r, i, a);
  }

  lemma {:induction false} TakeCarves(r: Rep, i: nat)
    requires Inv(r) && i < POOLS && r.lists[i] != []
    ensures Inv(Take(r, i)) && Carved(r, Take(r, i), i, r.lists[i][0])
  {
    TakeKeeps(r, i);
    assert r.lists[i][0] in r.lists[i];
    forall x: nat
      ensures Covered(Take(r, i), x) <==> Covered(r, x)
    {
      SameOwned(r, Take(r, i), x);
    }
    assert OwnedCounts(Take(r, i)) == OwnedCounts(r);
  }

  /** Cutting first and then handing out is handing out. */
  lemma {:induction false} CarvedAfter(r: Rep, mid: Rep, r': Rep, i: nat, a: nat)
    requires SameLive(r, mid) && Carved(mid, r', i, a)
    ensures Carved(r, r', i, a)
  {
    assert Live(mid, i, a) <==> Live(r, i, a);
    forall j: nat, b: nat
      ensures Live(r', j, b) <==> Live(r, j, b) || (j == i && b == a)
    {
      assert Live(mid, j, b) <==> Live(r, j, b);
    }
    forall x: nat
      ensures Covered(r', x) <==> Covered(r, x)
    {
      assert Covered(mid, x) <==> Covered(r, x);
    }
  }

  lemma {:induction false} SameLiveAfter(r: Rep, mid: Rep, r': Rep)
    requires SameLive(r, mid) && SameLive(mid, r')
    ensures SameLive(r, r')
  {
    forall j: nat, b: nat
      ensures Live(r', j, b) <==> Live(r, j, b)
    {
      assert Live(mid, j, b) <==> Live(r, j, b);
    }
    forall x: nat
      ensures Covered(r', x) <==> Covered(r, x)
    {
      assert Covered(mid, x) <==> Covered(r, x);
    }
  }

  /** Bytes of donated memory that no block handed out so far reaches into. */
  ghost predicate Own(r: Rep, i: nat, a: nat) {
    && (forall j: nat, b: nat {:trigger Live(r, j, b)} | Live(r, j, b) :: Apart(i, a, j, b))
    && (forall x: nat {:trigger Covered(r, x)} | a <= x < a + Size(i) :: Covered(r, x))
  }

  lemma {:induction false} CarvedOwn(r: Rep, r': Rep, i: nat, a: nat)
    requires Inv(r') && Carved(r, r', i, a)
    ensures Own(r, i, a) && a % Alignment(i) == 0
  {
    assert Live(r', i, a);
    forall j: nat, b: nat | Live(r, j, b)
      ensures Apart(i, a, j, b)
    {
      assert Live(r', j, b);
    }
    forall x: nat | a <= x < a + Size(i)
      ensures Covered(r, x)
    {
      assert IsBlock(r', i, a);
      assert Covered(r', x);
    }
  }

  /** Some free block is large enough. */
  ghost predicate Available(r: Rep, size: nat) {
    exists i | 0 <= i < |r.lists| :: r.lists[i] != [] && Size(i) >= size
  }

  class BlockAllocator {
    var lists: seq<seq<nat>>
    var free: seq<nat>
    var notEmpty: seq<bool>
    ghost var owned: seq<set<nat>>

    ghost function R(): Rep
      reads this
    {
      Rep(lists, owned)
    }

    /** Besides the blocks: the counters are the list lengths and the mask marks the lists that have blocks. */
    ghost predicate Valid()
      reads this
    {
      && Inv(R()) && |free| == |notEmpty| == POOLS
      && forall i | 0 <= i < POOLS :: free[i] == |lists[i]| && (notEmpty[i] <==> lists[i] != [])
    }

    /** block_allocator_init. */
    constructor ()
      ensures Valid() && Bytes(R()) == 0
      ensures forall x: nat :: !Covered(R(), x)
    {
      lists := seq(POOLS, i => []);
      free := seq(POOLS, i => 0);
      notEmpty := seq(POOLS, i => false);
      owned := seq(POOLS, i => {});
      new;
      NoBytes(OwnedCounts(R()));
    }

    /** block_allocator_pool_get. */
    method PoolGet(i: nat) returns (a: nat)
      requires Valid() && i < POOLS && lists[i] != []
      modifies this
      ensures Valid() && R() == old(Take(R(), i)) && a == old(lists[i][0])
    {
      ghost var r := R();
      TakeKeeps(r, i);
      a := lists[i][0];
      lists := lists[i := lists[i][1..]];
      free := free[i := free[i] - 1];
      if free[i] == 0 {
        notEmpty := notEmpty[i := false];
      }
      assert R() == Take(r, i);
    }

    /** block_allocator_pool_borrow. */
    method PoolBorrow(i: nat)
      requires Valid() && i + 1 < POOLS && lists[i + 1] != []
      modifies this
      ensures Valid() && R() == old(Split(Take(R(), i + 1), i, lists[i + 1][0]))
    {
      ghost var r := R();
      BorrowSame(r, i);
      var a := PoolGet(i + 1);
      var size := Size(i);
      lists := lists[i := [a, a + size] + lists[i]];
      free := free[i := free[i] + 2];
      notEmpty := notEmpty[i := true];
      owned := owned[i + 1 := owned[i + 1] - {a}][i := owned[i] + {a, a + size}];
      assert R() == Split(Take(r, i + 1), i, a);
    }

    /** The lowest marked class from `i` up, as the count of trailing zeros gives it; `POOLS` if none. */
    method FirstMarked(i: nat) returns (j: nat)
      requires Valid() && i <= POOLS
      ensures i <= j <= POOLS && (j < POOLS ==> lists[j] != []) && forall k | i <= k < j :: lists[k] == []
    {
      j := i;
      while j < POOLS && !notEmpty[j]
        invariant i <= j <= POOLS && forall k | i <= k < j :: lists[k] == []
      {
        j := j + 1;
      }
    }

    /** The borrowing loop: bring a block down from class `j` to class `i`. */
    method BorrowDown(i: nat, j: nat)
      requires Valid() && i <= j < POOLS && lists[j] != []
      modifies this
      ensures Valid() && lists[i] != [] && SameLive(old(R()), R())
    {
      ghost var r := R();
      var k := j;
      while k > i
        invariant Valid() && i <= k <= j && lists[k] != [] && SameLive(r, R())
      {
        k := k - 1;
        ghost var mid := R();
        BorrowSame(mid, k);
        PoolBorrow(k);
        SameLiveAfter(r, mid, R());
      }
    }

    /**
     block_allocator_balloc. It succeeds exactly when a free block is large enough. The block it returns is
     aligned, large enough, and the only change to what is handed out.
     */
    method Balloc(size: nat) returns (ok: bool, a: nat)
      requires Valid()
      modifies this
      ensures Valid() && ok == (0 < size <= MAX_SIZE && old(Available(R(), size)))
      ensures !ok ==> R() == old(R())
      ensures ok ==> Carved(old(R()), R(), PoolIndex(size), a)
      ensures ok ==> a % Alignment(PoolIndex(size)) == 0 && ClassOf(size, PoolIndex(size))
      ensures ok ==> Own(old(R()), PoolIndex(size), a)
    {
      if size == 0 || size > MAX_SIZE {
        return false, 0;
      }
      PoolIndexIsClass(size);
      var i := PoolIndex(size);
      var j := FirstMarked(i);
      AvailableFrom(R(), size, i, j);
      if j == POOLS {
        return false, 0;
      }
      ghost var r := R();
      BorrowDown(i, j);
      ghost var mid := R();
      TakeCarves(mid, i);
      a := PoolGet(i);
      CarvedAfter(r, mid, R(), i, a);
      CarvedOwn(r, R(), i, a);
      return true, a;
    }

    /** block_allocator_bfree_internal, of a block handed out before or of a new one. */
    method Release(a: nat, size: nat, ghost isNew: bool)
      requires Valid() && size <= MAX_SIZE
      requires size > 0 ==> if isNew then a % Alignment(PoolIndex(size)) == 0 && Clear(R(), a, a + Size(PoolIndex(size)))
                            else Live(R(), PoolIndex(size), a)
      modifies this
      ensures Valid() && (size == 0 ==> R() == old(R()))
      ensures size > 0 ==> PoolIndex(size) < POOLS
      ensures size > 0 ==> R() == if isNew then old(Add(R(), PoolIndex(size), a)) else old(Give(R(), PoolIndex(size), a))
    {
      if size == 0 {
        return;
      }
      PoolIndexIsClass(size);
      var i := PoolIndex(size);
      ghost var r := R();
      if isNew {
        AddKeeps(r, i, a);
        owned := owned[i := owned[i] + {a}];
      } else {
        GiveKeeps(r, i, a);
      }
      lists := lists[i := [a] + lists[i]];
      free := free[i := free[i] + 1];
      notEmpty := notEmpty[i := true];
      assert R() == if isNew then Add(r, i, a) else Give(r, i, a);
    }

    /** block_allocator_bfree of a block handed out for this size: the reverse of the allocation. */
    method Bfree(a: nat, size: nat)
      requires Valid() && size <= MAX_SIZE && (size > 0 ==> Live(R(), PoolIndex(size), a))
      modifies this
      ensures Valid() && (size == 0 ==> R() == old(R()))
      ensures size > 0 ==> Carved(R(), old(R()), PoolIndex(size), a)
    {
      if size > 0 {
        PoolIndexIsClass(size);
        GiveCarves(R(), PoolIndex(size), a);
      }
      Release(a, size, false);
    }

    /** The largest block the alignment of an address allows. */
    method LargestAt(pos: nat) returns (blockSize: nat, ghost c: nat)
      requires 0 < pos && pos % 8 == 0
      ensures c < POOLS && blockSize == Size(c) && pos % Alignment(c) == 0
    {
      var align := LowBit(pos);
      c := LowClass(pos / 8);
      LargeClass(pos, c);
      if align < MAX_ALIGN {
        blockSize := align;
      } else {
        blockSize := MAX_SIZE;
        c := POOLS - 1;
      }
    }

    /** The choice of the next block of an arena, at an address that is not past its end. */
    method ArenaBlock(pos: nat, end: nat) returns (blockSize: nat, ghost c: nat)
      requires 0 < pos < end && pos % 8 == 0 && end % 8 == 0
      ensures c < POOLS && blockSize == Size(c) && pos + blockSize <= end && pos % Alignment(c) == 0
    {
      blockSize, c := LargestAt(pos);
      while pos + blockSize > end
        invariant c < POOLS && blockSize == Size(c) && pos % Alignment(c) == 0
        decreases c
      {
        WholeWords(pos, end);
        HalfAligned(c - 1, pos);
        blockSize := blockSize / 2;
        c := c - 1;
      }
      ClassOfSize(c);
      if blockSize > MAX_SIZE {
        blockSize := MAX_SIZE;
      }
    }

    /** One round of the arena loop. */
    method PutBlock(pos: nat, end: nat, ghost r: Rep, ghost from: nat) returns (next: nat)
      requires Valid() && 0 < from <= pos < end && pos % 8 == 0 && end % 8 == 0
      requires Donated(r, R(), from, pos) && Clear(R(), pos, end)
      modifies this
      ensures Valid() && pos < next <= end && next % 8 == 0
      ensures Donated(r, R(), from, next) && Clear(R(), next, end)
    {
      var blockSize;
      ghost var c;
      blockSize, c := ArenaBlock(pos, end);
      ClassOfSize(c);
      StaysWhole(pos, c);
      ghost var mid := R();
      Release(pos, blockSize, true);
      DonatedMore(r, mid, from, pos, c, end);
      next := pos + blockSize;
    }

    /**
     block_allocator_put_arena: the whole 8-byte words of the arena become free blocks, each byte in
     exactly one; nothing that is handed out changes.
     */
    method PutArena(arena: nat, size: nat)
      requires Valid() && arena > 0 && Clear(R(), RoundUp(arena), RoundDown(arena + size))
      modifies this
      ensures Valid() && Donated(old(R()), R(), RoundUp(arena), RoundDown(arena + size))
    {
      var pos, end := RoundUp(arena), RoundDown(arena + size);
      ghost var r, from := R(), pos;
      DonatedNothing(r, pos);
      while pos < end
        invariant Valid() && 0 < from <= pos && pos % 8 == 0 && (if from <= end then pos <= end else pos == from)
        invariant Donated(r, R(), from, pos) && Clear(R(), pos, end)
        decreases if pos < end then end - pos else 0
      {
        pos := PutBlock(pos, end, r, from);
      }
      if from > end {
        DonatedNone(r, R(), from, pos, end);
      }
    }

    /** block_allocator_free_size: with the bytes handed out it makes up all the bytes there are. */
    method FreeSize() returns (size: nat)
      requires Valid()
      ensures size == Weigh(FreeCounts(R())) && size + Weigh(LiveCounts(R())) == Bytes(R())
    {
      size := 0;
      var i := 0;
      while i < POOLS
        invariant 0 <= i <= POOLS && size == Weigh(FreeCounts(R())[..i])
      {
        assert FreeCounts(R())[..i + 1][..i] == FreeCounts(R())[..i];
        size := size + free[i] * Size(i);
        i := i + 1;
      }
      assert FreeCounts(R())[..i] == FreeCounts(R());
      FreePlusLive(R());
    }
  }

  function RoundUp(x: nat): nat {
    (x + 7) / 8 * 8
  }

  function RoundDown(x: nat): nat {
    x / 8 * 8
  }

  /** The largest power of two that divides `x`. */
  function LowBit(x: nat): (p: nat)
    requires x > 0
    ensures p > 0
  {
    if x % 2 == 1 then 1 else 2 * LowBit(x / 2)
  }

  lemma {:induction false} TwiceMultiple(x: nat, s: nat)
    requires s > 0 && x % s == 0
    ensures 2 * x % (2 * s) == 0
  {
    var q := x / s;
    assert x == q * s;
    assert 2 * x == q * (2 * s);
    MultipleOf(q, 2 * s);
  }

  /** For an address of whole words it is a block size that divides the address. */
  lemma {:induction false} LowClass(m: nat) returns (c: nat)
    requires m > 0
    ensures LowBit(8 * m) == Size(c) && (8 * m) % Size(c) == 0
  {
    assert 8 * m / 2 == 4 * m;
    assert LowBit(8 * m) == 2 * LowBit(4 * m);
    if m % 2 == 1 {
      c := 0;
      assert 4 * m / 2 == 2 * m && 2 * m / 2 == m;
      assert LowBit(4 * m) == 2 * LowBit(2 * m);
    } else {
      var h := LowClass(m / 2);
      c := h + 1;
      assert 4 * m == 8 * (m / 2);
      TwiceMultiple(4 * m, Size(h));
    }
  }

  lemma {:induction false} WholeWords(pos: nat, end: nat)
    requires pos < end && pos % 8 == 0 && end % 8 == 0
    ensures pos + 8 <= end
  {
  }

  /** Below the largest alignment the size is the alignment; from there on any size is aligned enough. */
  lemma {:induction false} LargeClass(pos: nat, c: nat)
    requires pos % Size(c) == 0
    ensures Size(c) < MAX_ALIGN ==> c < POOLS && Alignment(c) == Size(c)
    ensures Size(c) >= MAX_ALIGN ==> pos % MAX_ALIGN == 0
    ensures Size(POOLS - 1) == MAX_SIZE && Alignment(POOLS - 1) == MAX_ALIGN
  {
    SizeValues();
    if c < 18 {
      SizeGrows(c, 17);
    } else {
      SizeGrows(18, c);
      DividesDown(pos, 18, c);
    }
  }

  lemma {:induction false} StaysWhole(x: nat, c: nat)
    requires x % 8 == 0
    ensures (x + Size(c)) % 8 == 0
  {
    SizeEven(c);
    var s := Size(c);
    assert s % 8 == 0;
  }

  lemma {:induction false} DividesDown(x: nat, i: nat, j: nat)
    requires i <= j && x % Size(j) == 0
    ensures x % Size(i) == 0
  {
    var k := SizeDivides(i, j);
    var q := x / Size(j);
    assert x == q * (k * Size(i)) == (q * k) * Size(i);
    MultipleOf(q * k, Size(i));
  }

  lemma {:induction false} ClassOfSize(c: nat)
    requires c < POOLS
    ensures PoolIndex(Size(c)) == c && Size(c) <= MAX_SIZE
  {
    PoolIndexIsClass(Size(c));
    SizeValues();
    SizeGrows(c, POOLS - 1);
    LargeEnough(Size(c), PoolIndex(Size(c)), c);
    if PoolIndex(Size(c)) < c {
      SizeGrows(PoolIndex(Size(c)), c - 1);
    }
  }

  /** The bytes from `from` to `to` have become free blocks. */
  ghost predicate Donated(r: Rep, r': Rep, from: nat, to: nat) {
    && (forall j: nat, b: nat {:trigger Live(r', j, b)} :: Live(r', j, b) <==> Live(r, j, b))
    && (forall x: nat {:trigger Covered(r', x)} :: Covered(r', x) <==> Covered(r, x) || from <= x < to)
    && Bytes(r') == Bytes(r) + if from <= to then to - from else 0
  }

  lemma {:induction false} DonatedNothing(r: Rep, pos: nat)
    ensures Donated(r, r, pos, pos)
  {
  }

  lemma {:induction false} DonatedNone(r: Rep, r': Rep, from: nat, pos: nat, end: nat)
    requires Donated(r, r', from, pos) && from == pos && from > end
    ensures Donated(r, r', from, end)
  {
    forall x: nat
      ensures Covered(r', x) <==> Covered(r, x) || from <= x < end
    {
      assert Covered(r', x) <==> Covered(r, x) || from <= x < pos;
    }
  }

  lemma {:induction false} DonatedMore(r: Rep, mid: Rep, from: nat, pos: nat, c: nat, end: nat)
    requires Donated(r, mid, from, pos) && from <= pos && c < POOLS && pos + Size(c) <= end
    requires Inv(mid) && Clear(mid, pos, end) && pos % Alignment(c) == 0
    ensures Donated(r, Add(mid, c, pos), from, pos + Size(c)) && Clear(Add(mid, c, pos), pos + Size(c), end)
  {
    var r' := Add(mid, c, pos);
    AddKeeps(mid, c, pos);
    AddBytes(mid, c, pos);
    forall j: nat, b: nat
      ensures Live(r', j, b) <==> Live(r, j, b)
    {
      assert Live(mid, j, b) <==> Live(r, j, b);
    }
    forall x: nat
      ensures Covered(r', x) <==> Covered(r, x) || from <= x < pos + Size(c)
      ensures pos + Size(c) <= x < end ==> !Covered(r', x)
    {
      AddCovers(mid, c, pos, x);
      assert Covered(mid, x) <==> Covered(r, x) || from <= x < pos;
    }
  }

  lemma {:induction false} NoBytes(c: seq<nat>)
    requires forall i | 0 <= i < |c| :: c[i] == 0
    ensures Weigh(c) == 0
    decreases |c|
  {
    if |c| > 0 {
      NoBytes(c[..|c| - 1]);
    }
  }

  lemma {:induction false} AvailableFrom(r: Rep, size: nat, i: nat, j: nat)
    requires Shape(r) && ClassOf(size, i) && i <= j <= POOLS
    requires (j < POOLS ==> r.lists[j] != []) && forall k | i <= k < j :: r.lists[k] == []
    ensures Available(r, size) <==> j < POOLS
  {
    if j < POOLS {
      LargeEnough(size, i, j);
    }
    if Available(r, size) {
      var k :| 0 <= k < |r.lists| && r.lists[k] != [] && Size(k) >= size;
      LargeEnough(size, i, k);
    }
  }

  lemma {:induction false} GiveCarves(r: Rep, i: nat, a: nat)
    requires Inv(r) && Live(r, i, a)
    ensures Carved(Give(r, i, a), r, i, a)
  {
    var r' := Give(r, i, a);
    GiveKeeps(r, i, a);
    forall j: nat, b: nat
      ensures Live(r, j, b) <==> Live(r', j, b) || (j == i && b == a)
    {
      assert Live(r', j, b) <==> Live(r, j, b) && !(j == i && b == a);
    }
    forall x: nat
      ensures Covered(r, x) <==> Covered(r', x)
    {
      SameOwned(r, r', x);
    }
    assert OwnedCounts(r') == OwnedCounts(r);
  }
}
