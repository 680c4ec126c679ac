/**
 The blocks of common/memory_block.h: 24 size classes from 8 bytes up, a free list for each, and the
 blocks there are, whether free or handed out.
 */
module BlockRep {
  const POOLS: nat := 24
  const MIN_SIZE: nat := 8
  const MAX_SIZE: nat := 0x400_0000
  const MAX_ALIGN: nat := 0x20_0000

  /** block_allocator_pool_size. */
  function Size(i: nat): (s: nat)
    ensures s >= MIN_SIZE
  {
    if i == 0 then MIN_SIZE else 2 * Size(i - 1)
  }

  /** The alignment a block of a class has. */
  function Alignment(i: nat): (a: nat)
    ensures a > 0
  {
    if Size(i) < MAX_ALIGN then Size(i) else MAX_ALIGN
  }

  /** Free lists, head first, and the addresses of all blocks of each class. */
  datatype Rep = Rep(lists: seq<seq<nat>>, owned: seq<set<nat>>)

  ghost predicate Shape(r: Rep) {
    |r.lists| == POOLS && |r.owned| == POOLS
  }

  ghost predicate IsBlock(r: Rep, i: nat, a: nat) {
    i < |r.owned| && a in r.owned[i]
  }

  /** A block that is handed out. */
  ghost predicate Live(r: Rep, i: nat, a: nat) {
    IsBlock(r, i, a) && i < |r.lists| && a !in r.lists[i]
  }

  /** Two blocks share no byte. */
  ghost predicate Apart(i: nat, a: nat, j: nat, b: nat) {
    a + Size(i) <= b || b + Size(j) <= a
  }

  ghost predicate NoRepeats(list: seq<nat>) {
    forall x, y | 0 <= x < y < |list| :: list[x] != list[y]
  }

  ghost predicate Inv(r: Rep) {
    && Shape(r)
    && (forall i | 0 <= i < POOLS :: NoRepeats(r.lists[i]) && forall a | a in r.lists[i] :: a in r.owned[i])
    && (forall i: nat, a: nat {:trigger IsBlock(r, i, a)} | IsBlock(r, i, a) :: a % Alignment(i) == 0)
    && forall i: nat, a: nat, j: nat, b: nat {:trigger IsBlock(r, i, a), IsBlock(r, j, b)} | IsBlock(r, i, a) && IsBlock(r, j, b) ::
         (i == j && a == b) || Apart(i, a, j, b)
  }

  /** Byte `x` belongs to some block. */
  ghost predicate Covered(r: Rep, x: nat) {
    exists i: nat, a: nat {:trigger IsBlock(r, i, a)} :: IsBlock(r, i, a) && a <= x < a + Size(i)
  }

  // ---- sizes and classes ----

  lemma {:induction false} SizeGrows(i: nat, j: nat)
    requires i <= j
    ensures Size(i) <= Size(j)
  {
    if i < j {
      SizeGrows(i, j - 1);
    }
  }

  lemma {:induction false} SizeDivides(i: nat, j: nat) returns (k: nat)
    requires i <= j
    ensures Size(j) == k * Size(i)
  {
    if i == j {
      k := 1;
    } else {
      var h := SizeDivides(i, j - 1);
      k := 2 * h;
      assert 2 * (h * Size(i)) == (2 * h) * Size(i);
    }
  }

  lemma {:induction false} SizeValues()
    ensures Size(18) == MAX_ALIGN && Size(POOLS - 1) == MAX_SIZE
  {
    assert Size(4) == 128;
    assert Size(8) == 2048;
    assert Size(12) == 0x8000;
    assert Size(16) == 0x8_0000;
    assert Size(20) == 0x80_0000;
    assert Size(22) == 0x200_0000;
  }

  /** The class of a size: the smallest whose blocks are large enough. */
  ghost predicate ClassOf(size: nat, i: nat) {
    size <= Size(i) && (i > 0 ==> Size(i - 1) < size)
  }

  /** floor(log2(n)), what the count of leading zeros gives. */
  function Log2(n: nat): (e: nat)
    requires n > 0
  {
    if n == 1 then 0 else 1 + Log2(n / 2)
  }

  /** block_allocator_pool_index. */
  function PoolIndex(size: nat): nat {
    if size < MIN_SIZE then 0 else Log2((2 * size - 1) / MIN_SIZE)
  }

  lemma {:induction false} Log2Class(n: nat)
    requires n > 0
    ensures Size(Log2(n)) <= MIN_SIZE * n < 2 * Size(Log2(n))
  {
    if n > 1 {
      Log2Class(n / 2);
    }
  }

  lemma {:induction false} IndexArithmetic(size: nat, n: nat, k: nat)
    requires size > 0 && n == (2 * size - 1) / 8 && k <= n < 2 * k
    ensures 4 * k < size <= 8 * k
  {
  }

  lemma {:induction false} PoolIndexIsClass(size: nat)
    requires size > 0
    ensures ClassOf(size, PoolIndex(size))
    ensures size <= MAX_SIZE ==> PoolIndex(size) < POOLS
  {
    if size >= MIN_SIZE {
      var n := (2 * size - 1) / MIN_SIZE;
      var e := Log2(n);
      Log2Class(n);
      SizeEven(e);
      IndexArithmetic(size, n, Size(e) / MIN_SIZE);
      SizeValues();
      if e >= POOLS {
        SizeGrows(POOLS - 1, e - 1);
      }
    }
  }

  /** Class sizes are multiples of the smallest. */
  lemma {:induction false} SizeEven(i: nat)
    ensures Size(i) % MIN_SIZE == 0
  {
    if i > 0 {
      SizeEven(i - 1);
    }
  }

  /** A block of class `j` holds a request of class `i` exactly when it is large enough. */
  lemma {:induction false} LargeEnough(size: nat, i: nat, j: nat)
    requires ClassOf(size, i)
    ensures Size(j) >= size <==> j >= i
  {
    if j >= i {
      SizeGrows(i, j);
    } else {
      SizeGrows(j, i - 1);
    }
  }

  // ---- the ways the blocks change ----

  /** The head of a free list handed out. */
  ghost function Take(r: Rep, i: nat): Rep
    requires Shape(r) && i < POOLS && r.lists[i] != []
  {
    r.(lists := r.lists[i := r.lists[i][1..]])
  }

  /** A block put at the head of its free list. */
  ghost function Give(r: Rep, i: nat, a: nat): Rep
    requires Shape(r) && i < POOLS
  {
    r.(lists := r.lists[i := [a] + r.lists[i]])
  }

  /** A block that is in no list, cut in two halves that go to the list below. */
  ghost function Split(r: Rep, i: nat, a: nat): Rep
    requires Shape(r) && i + 1 < POOLS
  {
    Rep(r.lists[i := [a, a + Size(i)] + r.lists[i]],
        r.owned[i + 1 := r.owned[i + 1] - {a}][i := r.owned[i] + {a, a + Size(i)}])
  }

  /** A new block, free. */
  ghost function Add(r: Rep, i: nat, a: nat): Rep
    requires Shape(r) && i < POOLS
  {
    Rep(r.lists[i := [a] + r.lists[i]], r.owned[i := r.owned[i] + {a}])
  }

  lemma {:induction false} TakeKeeps(r: Rep, i: nat)
    requires Inv(r) && i < POOLS && r.lists[i] != []
    ensures Inv(Take(r, i)) && Live(Take(r, i), i, r.lists[i][0])
    ensures forall j: nat, b: nat {:trigger Live(Take(r, i), j, b)} ::
              Live(Take(r, i), j, b) <==> Live(r, j, b) || (j == i && b == r.lists[i][0])
  {
    var r' := Take(r, i);
    var list := r.lists[i];
    assert list == [list[0]] + list[1..];
    assert forall j: nat, b: nat :: IsBlock(r', j, b) == IsBlock(r, j, b);
    assert list[0] in list;
    assert list[0] !in list[1..];
  }

  lemma {:induction false} GiveKeeps(r: Rep, i: nat, a: nat)
    requires Inv(r) && Live(r, i, a)
    ensures Inv(Give(r, i, a))
    ensures forall j: nat, b: nat {:trigger Live(Give(r, i, a), j, b)} ::
              Live(Give(r, i, a), j, b) <==> Live(r, j, b) && !(j == i && b == a)
  {
    var r' := Give(r, i, a);
    assert forall j: nat, b: nat :: IsBlock(r', j, b) == IsBlock(r, j, b);
    assert forall x | 0 < x < |r'.lists[i]| :: r'.lists[i][x] == r.lists[i][x - 1];
  }

  lemma {:induction false} HalvesNew(r: Rep, i: nat, a: nat)
    requires Inv(r) && IsBlock(r, i + 1, a)
    ensures !IsBlock(r, i, a) && !IsBlock(r, i, a + Size(i))
  {
    var first, second := IsBlock(r, i, a), IsBlock(r, i, a + Size(i));
  }

  /** The block that a block of the cut store came from. */
  ghost function ParentClass(i: nat, a: nat, j: nat, b: nat): nat {
    if j == i && (b == a || b == a + Size(i)) then i + 1 else j
  }

  ghost function Parent(i: nat, a: nat, j: nat, b: nat): nat {
    if j == i && (b == a || b == a + Size(i)) then a else b
  }

  lemma {:induction false} SplitParent(r: Rep, i: nat, a: nat, j: nat, b: nat)
    requires Inv(r) && i + 1 < POOLS && IsBlock(r, i + 1, a) && IsBlock(Split(r, i, a), j, b)
    ensures IsBlock(r, ParentClass(i, a, j, b), Parent(i, a, j, b))
    ensures Parent(i, a, j, b) <= b && b + Size(j) <= Parent(i, a, j, b) + Size(ParentClass(i, a, j, b))
  {
  }

  lemma {:induction false} SplitApart(r: Rep, i: nat, a: nat, j: nat, b: nat, k: nat, c: nat)
    requires Inv(r) && i + 1 < POOLS && IsBlock(r, i + 1, a)
    requires IsBlock(Split(r, i, a), j, b) && IsBlock(Split(r, i, a), k, c) && !(j == k && b == c)
    ensures Apart(j, b, k, c)
  {
    SplitParent(r, i, a, j, b);
    SplitParent(r, i, a, k, c);
    HalvesNew(r, i, a);
  }

  lemma {:induction false} EvenHalf(m: nat, a: nat)
    requires m > 0 && a % (2 * m) == 0
    ensures a % m == 0 && (a + m) % m == 0
  {
    var q := a / (2 * m);
    assert a == (2 * q) * m;
    MultipleOf(2 * q, m);
    AddOnce(a, m);
  }

  lemma {:induction false} PlusMultiple(a: nat, k: nat, m: nat)
    requires m > 0 && a % m == 0
    ensures (a + k * m) % m == 0
  {
    var q := a / m;
    assert a + k * m == (q + k) * m;
    MultipleOf(q + k, m);
  }

  lemma {:induction false} HalfAligned(i: nat, a: nat)
    requires a % Alignment(i + 1) == 0
    ensures a % Alignment(i) == 0 && (a + Size(i)) % Alignment(i) == 0
  {
    SizeValues();
    if Size(i + 1) <= MAX_ALIGN {
      EvenHalf(Size(i), a);
    } else {
      if i < 18 {
        SizeGrows(i + 1, 18);
      }
      var k := SizeDivides(18, i);
      PlusMultiple(a, k, MAX_ALIGN);
    }
  }

  lemma {:induction false} MultipleOf(q: nat, m: nat)
    requires m > 0
    ensures (q * m) % m == 0
  {
    if q > 0 {
      MultipleOf(q - 1, m);
      assert q * m == (q - 1) * m + m;
      AddOnce((q - 1) * m, m);
    }
  }

  lemma {:induction false} AddOnce(x: nat, m: nat)
    requires m > 0 && x % m == 0
    ensures (x + m) % m == 0
  {
    var d := (x + m) / m - x / m - 1;
    assert d * m == 0 - (x + m) % m;
  }

  lemma {:induction false} SplitLists(r: Rep, i: nat, a: nat)
    requires Inv(r) && i + 1 < POOLS && Live(r, i + 1, a)
    ensures forall j | 0 <= j < POOLS ::
              NoRepeats(Split(r, i, a).lists[j]) && forall b | b in Split(r, i, a).lists[j] :: b in Split(r, i, a).owned[j]
  {
    var list, list' := r.lists[i], [a, a + Size(i)] + r.lists[i];
    HalvesNew(r, i, a);
    assert forall x | 2 <= x < |list'| :: list'[x] == list[x - 2] && list'[x] in list;
  }

  lemma {:induction false} SplitKeeps(r: Rep, i: nat, a: nat)
    requires Inv(r) && i + 1 < POOLS && Live(r, i + 1, a)
    ensures Inv(Split(r, i, a))
  {
    var r' := Split(r, i, a);
    SplitLists(r, i, a);
    forall j: nat, b: nat | IsBlock(r', j, b)
      ensures b % Alignment(j) == 0
    {
      SplitParent(r, i, a, j, b);
      HalfAligned(i, a);
    }
    forall j: nat, b: nat, k: nat, c: nat | IsBlock(r', j, b) && IsBlock(r', k, c)
      ensures (j == k && b == c) || Apart(j, b, k, c)
    {
      if !(j == k && b == c) {
        SplitApart(r, i, a, j, b, k, c);
      }
    }
  }

  lemma {:induction false} SplitLive(r: Rep, i: nat, a: nat, j: nat, b: nat)
    requires Inv(r) && i + 1 < POOLS && Live(r, i + 1, a)
    ensures Live(Split(r, i, a), j, b) <==> Live(r, j, b) && !(j == i + 1 && b == a)
  {
    HalvesNew(r, i, a);
  }

  lemma {:induction false} SplitCovers(r: Rep, i: nat, a: nat, x: nat)
    requires Inv(r) && i + 1 < POOLS && Live(r, i + 1, a)
    ensures Covered(Split(r, i, a), x) <==> Covered(r, x)
  {
    var r' := Split(r, i, a);
    if Covered(r, x) {
      var j: nat, b: nat :| IsBlock(r, j, b) && b <= x < b + Size(j);
      if j == i + 1 && b == a {
        assert IsBlock(r', i, a) && IsBlock(r', i, a + Size(i));
      } else {
        assert IsBlock(r', j, b);
      }
    }
    if Covered(r', x) {
      var j: nat, b: nat :| IsBlock(r', j, b) && b <= x < b + Size(j);
      SplitParent(r, i, a, j, b);
    }
  }

  /** The blocks and what is handed out, after an operation that only cut free blocks. */
  ghost predicate SameLive(r: Rep, r': Rep) {
    && (forall j: nat, b: nat {:trigger Live(r', j, b)} :: Live(r', j, b) <==> Live(r, j, b))
    && (forall x: nat {:trigger Covered(r', x)} :: Covered(r', x) <==> Covered(r, x))
    && Bytes(r') == Bytes(r)
  }

  /** The same, but for the block (i, a) that is now handed out. */
  ghost predicate Carved(r: Rep, r': Rep, i: nat, a: nat) {
    && (forall j: nat, b: nat {:trigger Live(r', j, b)} :: Live(r', j, b) <==> Live(r, j, b) || (j == i && b == a))
    && !Live(r, i, a)
    && (forall x: nat {:trigger Covered(r', x)} :: Covered(r', x) <==> Covered(r, x))
    && Bytes(r') == Bytes(r)
  }

  // ---- bytes ----

  ghost function Weigh(counts: seq<nat>): nat {
    if |counts| == 0 then 0 else Weigh(counts[..|counts| - 1]) + counts[|counts| - 1] * Size(|counts| - 1)
  }

  ghost function OwnedCounts(r: Rep): seq<nat> {
    seq(|r.owned|, (i: nat) requires i < |r.owned| => |r.owned[i]|)
  }

  ghost function FreeCounts(r: Rep): seq<nat> {
    seq(|r.lists|, (i: nat) requires i < |r.lists| => |r.lists[i]|)
  }

  ghost function Elements(list: seq<nat>): set<nat> {
    set a | a in list
  }

  ghost function LiveCounts(r: Rep): seq<nat>
    requires |r.lists| == |r.owned|
  {
    seq(|r.owned|, (i: nat) requires i < |r.owned| => |r.owned[i] - Elements(r.lists[i])|)
  }

  /** The bytes of all blocks. */
  ghost function Bytes(r: Rep): nat {
    Weigh(OwnedCounts(r))
  }

  lemma {:induction false} WeighUpdate(c: seq<nat>, i: nat, v: nat)
    requires i < |c|
    ensures Weigh(c[i := v]) == Weigh(c) + v * Size(i) - c[i] * Size(i)
    decreases |c|
  {
    var n := |c| - 1;
    if i == n {
      assert c[i := v][..n] == c[..n];
    } else {
      assert c[i := v][..n] == c[..n][i := v];
      WeighUpdate(c[..n], i, v);
    }
  }

  lemma {:induction false} WeighAdd(a: seq<nat>, b: seq<nat>, c: seq<nat>)
    requires |a| == |b| == |c| && forall i | 0 <= i < |a| :: c[i] == a[i] + b[i]
    ensures Weigh(c) == Weigh(a) + Weigh(b)
    decreases |a|
  {
    if |a| > 0 {
      var n := |a| - 1;
      WeighAdd(a[..n], b[..n], c[..n]);
      assert c[n] * Size(n) == a[n] * Size(n) + b[n] * Size(n);
    }
  }

  lemma {:induction false} ElementsCount(list: seq<nat>)
    requires NoRepeats(list)
    ensures |Elements(list)| == |list|
    decreases |list|
  {
    if |list| > 0 {
      var rest := list[1..];
      ElementsCount(rest);
      assert list == [list[0]] + rest;
      assert Elements(list) == Elements(rest) + {list[0]};
      assert list[0] !in rest;
    }
  }

  /** Every byte of every block is either free or handed out, and counted once. */
  lemma {:induction false} FreePlusLive(r: Rep)
    requires Inv(r)
    ensures Weigh(FreeCounts(r)) + Weigh(LiveCounts(r)) == Bytes(r)
  {
    forall i | 0 <= i < POOLS
      ensures OwnedCounts(r)[i] == FreeCounts(r)[i] + LiveCounts(r)[i]
    {
      ElementsCount(r.lists[i]);
      assert Elements(r.lists[i]) <= r.owned[i];
      assert (r.owned[i] - Elements(r.lists[i])) + Elements(r.lists[i]) == r.owned[i];
    }
    WeighAdd(FreeCounts(r), LiveCounts(r), OwnedCounts(r));
  }

  lemma {:induction false} SplitCounts(r: Rep, i: nat, a: nat)
    requires Inv(r) && i + 1 < POOLS && IsBlock(r, i + 1, a)
    ensures |Split(r, i, a).owned[i]| == |r.owned[i]| + 2 && |Split(r, i, a).owned[i + 1]| == |r.owned[i + 1]| - 1
    ensures forall j | 0 <= j < POOLS && j != i && j != i + 1 :: Split(r, i, a).owned[j] == r.owned[j]
  {
    HalvesNew(r, i, a);
    assert r.owned[i] + {a, a + Size(i)} == (r.owned[i] + {a}) + {a + Size(i)};
  }

  lemma {:induction false} TradeWeight(c: seq<nat>, d: seq<nat>, i: nat)
    requires i + 1 < |c| == |d| && d[i] == c[i] + 2 && d[i + 1] + 1 == c[i + 1]
    requires forall j | 0 <= j < |c| && j != i && j != i + 1 :: d[j] == c[j]
    ensures Weigh(d) == Weigh(c)
  {
    var e: seq<nat> := c[i + 1 := d[i + 1]];
    assert d == e[i := d[i]];
    WeighUpdate(c, i + 1, d[i + 1]);
    WeighUpdate(e, i, d[i]);
    assert (c[i + 1] - 1) * Size(i + 1) == c[i + 1] * Size(i + 1) - Size(i + 1);
    assert (c[i] + 2) * Size(i) == c[i] * Size(i) + 2 * Size(i);
  }

  lemma {:induction false} SplitBytes(r: Rep, i: nat, a: nat)
    requires Inv(r) && i + 1 < POOLS && IsBlock(r, i + 1, a)
    ensures Bytes(Split(r, i, a)) == Bytes(r)
  {
    SplitCounts(r, i, a);
    TradeWeight(OwnedCounts(r), OwnedCounts(Split(r, i, a)), i);
  }

  // ---- donated memory ----

  /** No block reaches into the given bytes. */
  ghost predicate Clear(r: Rep, from: nat, to: nat) {
    forall x: nat {:trigger Covered(r, x)} | from <= x < to :: !Covered(r, x)
  }

  lemma {:induction false} ClearApart(r: Rep, i: nat, a: nat, j: nat, b: nat)
    requires Clear(r, a, a + Size(i)) && IsBlock(r, j, b)
    ensures Apart(i, a, j, b)
  {
    var c, d := Covered(r, a), Covered(r, b);
  }

  lemma {:induction false} AddKeeps(r: Rep, i: nat, a: nat)
    requires Inv(r) && i < POOLS && a % Alignment(i) == 0 && Clear(r, a, a + Size(i))
    ensures Inv(Add(r, i, a))
    ensures forall j: nat, b: nat {:trigger Live(Add(r, i, a), j, b)} :: Live(Add(r, i, a), j, b) <==> Live(r, j, b)
  {
    var r' := Add(r, i, a);
    forall j: nat, b: nat | IsBlock(r, j, b)
      ensures Apart(i, a, j, b)
    {
      ClearApart(r, i, a, j, b);
    }
    assert !IsBlock(r, i, a);
    assert forall j: nat, b: nat :: IsBlock(r', j, b) <==> IsBlock(r, j, b) || (j == i && b == a);
    assert forall x | 0 < x < |r'.lists[i]| :: r'.lists[i][x] == r.lists[i][x - 1] && r'.lists[i][x] in r.lists[i];
  }

  lemma {:induction false} AddCovers(r: Rep, i: nat, a: nat, x: nat)
    requires Shape(r) && i < POOLS
    ensures Covered(Add(r, i, a), x) <==> Covered(r, x) || a <= x < a + Size(i)
  {
    var r' := Add(r, i, a);
    if Covered(r, x) {
      var j: nat, b: nat :| IsBlock(r, j, b) && b <= x < b + Size(j);
      assert IsBlock(r', j, b);
    }
    if Covered(r', x) {
      var j: nat, b: nat :| IsBlock(r', j, b) && b <= x < b + Size(j);
      assert IsBlock(r, j, b) || (j == i && b == a);
    }
    assert IsBlock(r', i, a);
  }

  lemma {:induction false} AddBytes(r: Rep, i: nat, a: nat)
    requires Inv(r) && i < POOLS && Clear(r, a, a + Size(i))
    ensures Bytes(Add(r, i, a)) == Bytes(r) + Size(i)
  {
    var c, n := OwnedCounts(r), |r.owned[i]|;
    if IsBlock(r, i, a) {
      ClearApart(r, i, a, i, a);
    }
    assert OwnedCounts(Add(r, i, a)) == c[i := n + 1];
    WeighUpdate(c, i, n + 1);
    assert (n + 1) * Size(i) == n * Size(i) + Size(i);
  }
}
