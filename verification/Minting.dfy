/** Creating coins (src/game/game.cpp: addMoney; src/items/item.cpp: getWorth,
    CreateItem): which stacks are made for an amount of money, and when they are worth it.
  */
module Minting {
  import opened Money

  const WORD16: nat := 0x1_0000
  const WORD32: nat := 0x1_0000_0000
  const CRYSTALS_PER_STACK: nat := 100

  /** The count an item keeps of the count it is created with: 16 bits, none means one, stored in 8 bits. */
  function Stored(n: nat): nat
  {
    var c := n % WORD16;
    (if c == 0 then 1 else c) % 0x100
  }

  function CrystalStacks(c: nat): seq<Stack>
  {
    if c == 0 then []
    else
      var n := if c < CRYSTALS_PER_STACK then c else CRYSTALS_PER_STACK;
      [Stack(Crystal, Stored(n))] + CrystalStacks(c - n)
  }

  lemma {:induction false} ModAtMost(x: nat, m: nat)
    requires m > 0
    ensures x % m <= x && (x < m ==> x % m == x)
  {
    assert x == m * (x / m) + x % m && x / m >= 0;
  }

  function Platinum16(left: nat): nat
  {
    left / 100 % WORD16
  }

  /** What is left for gold coins: more than a hundred when the platinum counter wrapped. */
  function GoldLeft(left: nat): nat
  {
    left - Platinum16(left) * 100
  }

  function PlatinumStacks(left: nat): seq<Stack>
  {
    if Platinum16(left) != 0 then [Stack(Platinum, Stored(Platinum16(left)))] else []
  }

  function GoldStacks(left: nat): seq<Stack>
  {
    if GoldLeft(left) != 0 then [Stack(Gold, Stored(GoldLeft(left)))] else []
  }

  function Crystals(money: nat): nat
  {
    money / 10000 % WORD32
  }

  lemma {:induction false} CrystalsAtMost(money: nat)
    ensures Crystals(money) > 0 ==> money >= 10000
  {
    ModAtMost(money / 10000, WORD32);
  }

  /** Every crystal stack but the last is full. */
  lemma {:induction false} CrystalsAreStacked(c: nat)
    ensures var s := CrystalStacks(c);
      |s| == (c + 99) / 100 && (forall k :: 0 <= k < |s| ==> s[k].kind == Crystal && 1 <= s[k].count <= 100) &&
      forall k :: 0 <= k < |s| - 1 ==> s[k].count == 100
    decreases c
  {
    if c > 0 {
      var n := if c < 100 then c else 100;
      CrystalsAreStacked(c - n);
      assert CrystalStacks(c) == [Stack(Crystal, Stored(n))] + CrystalStacks(c - n);
    }
  }

  /** The crystals taken off the money, a product of 32 bits. */
  function AfterCrystals(money: nat): (left: nat)
    ensures left <= money
  {
    ModAtMost(money / 10000, WORD32);
    ModAtMost(Crystals(money) * 10000, WORD32);
    money - Crystals(money) * 10000 % WORD32
  }

  /** The stacks addMoney creates, with its 32-bit crystal and 16-bit platinum counters. */
  function Minted(money: nat): seq<Stack>
  {
    CrystalStacks(Crystals(money)) + PlatinumStacks(AfterCrystals(money)) + GoldStacks(AfterCrystals(money))
  }

  function StacksWorth(ss: seq<Stack>): nat
  {
    if ss == [] then 0 else Worth(ss[0]) + StacksWorth(ss[1..])
  }

  // ----- what the stacks are worth -----

  lemma {:induction false} StacksWorthConcat(a: seq<Stack>, b: seq<Stack>)
    ensures StacksWorth(a + b) == StacksWorth(a) + StacksWorth(b)
  {
    if a == [] {
      assert a + b == b;
    } else {
      assert (a + b)[1..] == a[1..] + b;
      StacksWorthConcat(a[1..], b);
    }
  }

  lemma {:induction false} CrystalWorth(c: nat)
    ensures StacksWorth(CrystalStacks(c)) == 10000 * c
    ensures forall k :: 0 <= k < |CrystalStacks(c)| ==>
      CrystalStacks(c)[k].kind == Crystal && 1 <= CrystalStacks(c)[k].count <= 100
  {
    if c > 0 {
      var n := if c < CRYSTALS_PER_STACK then c else CRYSTALS_PER_STACK;
      assert Stored(n) == n;
      CrystalWorth(c - n);
      assert CrystalStacks(c)[1..] == CrystalStacks(c - n);
    }
  }

  function ChangeWorth(left: nat): nat
  {
    100 * (Platinum16(left) % 0x100) + (if GoldLeft(left) != 0 then Stored(GoldLeft(left)) else 0)
  }

  lemma {:induction false} SmallWorth(left: nat)
    ensures StacksWorth(PlatinumStacks(left)) + StacksWorth(GoldStacks(left)) == ChangeWorth(left)
  {
    var p, g := Platinum16(left), GoldLeft(left);
    assert p < WORD16;
    if p != 0 {
      assert Stored(p) == p % 0x100;
    }
    hide Platinum16, GoldLeft, Stored;
    OneStack(Stack(Platinum, Stored(p)));
    OneStack(Stack(Gold, Stored(g)));
    assert StacksWorth([]) == 0;
    hide StacksWorth;
  }

  lemma {:induction false} OneStack(s: Stack)
    ensures StacksWorth([s]) == Worth(s)
  {
  }

  lemma {:induction false} MintedWorth(money: nat)
    ensures StacksWorth(Minted(money)) == 10000 * (Crystals(money)) + ChangeWorth(AfterCrystals(money))
  {
    hide CrystalStacks, PlatinumStacks, GoldStacks, StacksWorth, ChangeWorth, AfterCrystals;
    var left := AfterCrystals(money);
    var cs, ps, gs := CrystalStacks(Crystals(money)), PlatinumStacks(left), GoldStacks(left);
    CrystalWorth(Crystals(money));
    StacksWorthConcat(cs, ps);
    StacksWorthConcat(cs + ps, gs);
    SmallWorth(left);
  }

  // ----- when they are worth the money -----

  /** How often the 32-bit product of the crystals wraps. */
  function Wraps(money: nat): nat
  {
    money / 10000 * 10000 / WORD32
  }

  /** What the caller can check: no crystal is lost, and the product does not wrap or wraps by a multiple of 25 and
      some gold is due. */
  predicate Exact(money: nat)
  {
    money / 10000 < WORD32 && (Wraps(money) == 0 || (Wraps(money) % 25 == 0 && money % 100 != 0))
  }

  /** Each wrap leaves 2^32 too much to be paid in change. */
  lemma {:induction false} Remainder(money: nat)
    requires money / 10000 < WORD32
    ensures AfterCrystals(money) == money % 10000 + Wraps(money) * WORD32
  {
    var q := money / 10000;
    ModAtMost(q, WORD32);
    assert q * 10000 == Wraps(money) * WORD32 + q * 10000 % WORD32;
  }

  /** The low bytes of the counters decide, up to the wraps: gold makes up what platinum leaves. */
  lemma {:induction false} GoldByte(k: nat, r: nat)
    requires r < 10000
    ensures var left := r + k * WORD32;
      GoldLeft(left) % 0x100 == (r - 100 * (Platinum16(left) % 0x100)) % 0x100 && (k > 0 ==> GoldLeft(left) > 0)
  {
    var left := r + k * WORD32;
    var p := Platinum16(left);
    var t, p8 := p / 0x100, p % 0x100;
    assert p == 0x100 * t + p8;
    assert GoldLeft(left) == 0x100 * (k * 0x100_0000 - 100 * t) + (r - 100 * p8);
    SameRest(GoldLeft(left), k * 0x100_0000 - 100 * t, r - 100 * p8);
    assert p < WORD16;
  }

  lemma {:induction false} LowByte(n: nat)
    ensures n % WORD16 % 0x100 == n % 0x100
  {
    var q, c := n / WORD16, n % WORD16;
    assert n == 0x100 * (0x100 * q) + c;
    SameRest(n, 0x100 * q, c);
  }

  lemma {:induction false} LowWord(a: nat, q: nat)
    requires a < WORD16
    ensures (a + q * WORD16) % WORD16 == a
  {
  }

  lemma {:induction false} Hundreds(q: nat, e: nat)
    requires e < 100
    ensures (100 * q + e) / 100 == q && (100 * q + e) % 100 == e
  {
  }

  lemma {:induction false} SameRest(x: int, q: int, r: int)
    requires x == 0x100 * q + r
    ensures x % 0x100 == r % 0x100
  {
  }

  /** The platinum byte comes close enough exactly after a multiple of 25 wraps. */
  lemma {:induction false} PlatinumByte(k: nat, r: nat)
    requires r < 10000
    ensures var d := r - 100 * (Platinum16(r + k * WORD32) % 0x100); 0 <= d < 0x100 <==> k % 25 == 0
  {
    var left := r + k * WORD32;
    var p := left / 100;
    LowByte(p);
    if 0 <= r - 100 * (p % 0x100) < 0x100 {
      Nearness(k, r, left, p, p / 0x100, p % 0x100);
    }
    if k % 25 == 0 {
      AfterMultipleOf25(k / 25, r);
    }
  }

  /** r - 100 * p8 is less than 100 off a multiple of 0x100; it is in range exactly if that multiple is none. */
  lemma {:induction false} Nearness(k: nat, r: nat, left: nat, p: nat, u: nat, p8: nat)
    requires left == r + k * WORD32 && 100 * p <= left < 100 * p + 100 && p == 0x100 * u + p8
    requires 0 <= r - 100 * p8 < 0x100
    ensures k % 25 == 0
  {
    var d := 100 * u - 0x100_0000 * k;
    assert r - 100 * p8 == (left - 100 * p) + 0x100 * d;
    assert d == 0;
    MultipleOf25(u, k);
  }

  lemma {:induction false} MultipleOf25(u: int, k: int)
    requires 25 * u == 0x40_0000 * k
    ensures k % 25 == 0
  {
    // 0x40_0000 is 25 * 167772 + 4, and 4 * 19 is 25 * 3 + 1
    var v := u - 167772 * k;
    assert k == 25 * (19 * v - 3 * k);
  }

  /** After a multiple of 25 wraps the platinum counter is right, and the low bits of the gold counter are. */
  lemma {:induction false} AfterMultipleOf25(j: nat, r: nat)
    requires r < 10000
    ensures var left := r + 25 * j * WORD32;
      Platinum16(left) == r / 100 && GoldLeft(left) == r % 100 + 25 * j * WORD32 && GoldLeft(left) % WORD16 == r % 100
  {
    var left := r + 25 * j * WORD32;
    assert left == 100 * (r / 100 + j * 0x4000_0000) + r % 100;
    Hundreds(r / 100 + j * 0x4000_0000, r % 100);
    LowWord(r / 100, j * 0x4000);
    LowWord(r % 100, 25 * j * WORD16);
  }

  lemma {:induction false} ChangeExactIff(k: nat, r: nat)
    requires r < 10000
    ensures ChangeWorth(r + k * WORD32) == r <==> k == 0 || (k % 25 == 0 && r % 100 != 0)
  {
    var left := r + k * WORD32;
    var p8, gold := Platinum16(left) % 0x100, GoldLeft(left);
    GoldByte(k, r);
    PlatinumByte(k, r);
    StoredByte(gold);
    if k % 25 == 0 {
      AfterMultipleOf25(k / 25, r);
    }
    hide Platinum16, GoldLeft, Stored;
  }

  lemma {:induction false} StoredByte(n: nat)
    ensures Stored(n) == if n % WORD16 == 0 then 1 else n % 0x100
    ensures n % WORD16 == 0 ==> n % 0x100 == 0
  {
    LowByte(n);
  }

  /** The stacks are worth the money exactly if the product of the crystals wraps a harmless number of times. */
  lemma {:induction false} MintedExactIff(money: nat)
    ensures StacksWorth(Minted(money)) == money <==> Exact(money)
  {
    hide Minted, StacksWorth, ChangeWorth, AfterCrystals, Wraps;
    var q, r := money / 10000, money % 10000;
    MintedWorth(money);
    Digits(money);
    if q < WORD32 {
      Remainder(money);
      ChangeExactIff(Wraps(money), r);
      ModAtMost(q, WORD32);
    } else {
      TooManyCrystals(q);
      ChangeAtMost(AfterCrystals(money));
    }
  }

  lemma {:induction false} Digits(money: nat)
    ensures money == 10000 * (money / 10000) + money % 10000 && money % 100 == money % 10000 % 100
  {
  }

  lemma {:induction false} TooManyCrystals(q: nat)
    requires q >= WORD32
    ensures q % WORD32 <= q - WORD32
  {
    assert q == WORD32 * (q / WORD32) + q % WORD32 && q / WORD32 >= 1;
  }

  lemma {:induction false} ChangeAtMost(left: nat)
    ensures ChangeWorth(left) <= 25755
  {
    hide Platinum16, GoldLeft;
  }

  // ----- the shape of the stacks -----

  function Change(kind: Kind, n: nat): seq<Stack>
  {
    if n != 0 then [Stack(kind, n)] else []
  }

  lemma {:induction false} ChangeShape(k: nat, r: nat)
    requires r < 10000 && (k == 0 || (k % 25 == 0 && r % 100 != 0))
    ensures PlatinumStacks(r + k * WORD32) == Change(Platinum, r / 100)
    ensures GoldStacks(r + k * WORD32) == Change(Gold, r % 100)
  {
    hide Platinum16, GoldLeft, Stored;
    AfterMultipleOf25(k / 25, r);
    assert 25 * (k / 25) == k;
    StoredSmall(r / 100);
    StoredLow(GoldLeft(r + k * WORD32), r % 100);
  }

  lemma {:induction false} StoredSmall(n: nat)
    requires n < 100
    ensures n != 0 ==> Stored(n) == n
  {
  }

  lemma {:induction false} StoredLow(n: nat, g: nat)
    requires g < 100 && n % WORD16 == g
    ensures g != 0 ==> Stored(n) == g
  {
    StoredByte(n);
    LowByte(n);
  }

  /** When the money is met the counters are those of the decimal digits. */
  lemma {:induction false} MintedShape(money: nat)
    requires Exact(money)
    ensures Minted(money) ==
      CrystalStacks(money / 10000) + Change(Platinum, money % 10000 / 100) + Change(Gold, money % 100)
  {
    hide PlatinumStacks, GoldStacks, CrystalStacks, AfterCrystals, Wraps, Change;
    Digits(money);
    ModAtMost(money / 10000, WORD32);
    Remainder(money);
    ChangeShape(Wraps(money), money % 10000);
  }

  /** Money that is met is met in stacks of 1 to 100 coins, with at most 99 platinum and 99 gold. */
  lemma {:induction false} MintedExactly(money: nat)
    requires Exact(money)
    ensures StacksWorth(Minted(money)) == money
    ensures forall k :: 0 <= k < |Minted(money)| ==>
      1 <= Minted(money)[k].count <= 100 && (Minted(money)[k].kind != Crystal ==> Minted(money)[k].count <= 99)
  {
    hide *;
    var c, p, g := money / 10000, money % 10000 / 100, money % 100;
    MintedShape(money);
    MintedExactIff(money);
    forall k | 0 <= k < |Minted(money)|
      ensures var s := Minted(money)[k]; 1 <= s.count <= 100 && (s.kind != Crystal ==> s.count <= 99)
    {
      MintedStack(c, p, g, k);
    }
  }

  lemma {:induction false} MintedStack(c: nat, p: nat, g: nat, k: nat)
    requires p < 100 && g < 100 && k < |CrystalStacks(c) + Change(Platinum, p) + Change(Gold, g)|
    ensures var s := (CrystalStacks(c) + Change(Platinum, p) + Change(Gold, g))[k];
      1 <= s.count <= 100 && (s.kind != Crystal ==> s.count <= 99)
  {
    CrystalWorth(c);
    hide CrystalStacks;
  }

  /** Everything below this is met: the first product that wraps is that of 429497 crystals. */
  const EXACT_BOUND: nat := 4294970000

  lemma {:induction false} ExactBelow(money: nat)
    requires money < EXACT_BOUND
    ensures Exact(money)
  {
  }

  /** At the bound too much is created. */
  lemma {:induction false} BoundIsTight()
    ensures EXACT_BOUND == 4294970000
    ensures !Exact(EXACT_BOUND) && StacksWorth(Minted(EXACT_BOUND)) == EXACT_BOUND + 4096
  {
    MintedWorth(EXACT_BOUND);
    Remainder(EXACT_BOUND);
    assert EXACT_BOUND / 10000 == 429497 && 429497 % WORD32 == 429497 && Wraps(EXACT_BOUND) == 1;
    assert AfterCrystals(EXACT_BOUND) == WORD32;
    assert Platinum16(WORD32) == 23592 && GoldLeft(WORD32) == 4292608096;
    assert 23592 % 0x100 == 40 && Stored(4292608096) == 96;
    hide Minted, StacksWorth, AfterCrystals, Stored, Platinum16, GoldLeft;
  }
}
