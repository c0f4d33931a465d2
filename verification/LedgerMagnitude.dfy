/** Exact unsigned accounting aggregates: multi-limb addition, comparison and decimal printing. */
module Magnitudes {
  import opened Domain

  const BASE: int := 0x1_0000_0000_0000_0000
  const DECIMAL_BASE: int := 10_000_000_000_000_000_000

  type Limbs = seq<u64>

  // ----- values of little-endian limbs

  ghost function ValueOf(limbs: Limbs): nat {
    if limbs == [] then 0 else limbs[0] + BASE * ValueOf(limbs[1..])
  }

  ghost function Weight(n: nat): (w: nat)
    ensures w >= 1
  {
    if n == 0 then 1 else BASE * Weight(n - 1)
  }

  lemma {:induction false} UpdateValue(limbs: Limbs, i: nat, x: u64)
    requires i < |limbs|
    ensures ValueOf(limbs[i := x]) == ValueOf(limbs) + (x - limbs[i]) * Weight(i)
  {
    if i == 0 {
      assert limbs[0 := x][1..] == limbs[1..];
    } else {
      UpdateValue(limbs[1..], i - 1, x);
      assert limbs[i := x][1..] == limbs[1..][i - 1 := x];
      ScaleBase(x - limbs[i], Weight(i - 1));
    }
  }

  lemma ScaleBase(d: int, w: int)
    ensures BASE * (d * w) == d * (BASE * w)
  {
  }

  lemma {:induction false} AppendValue(limbs: Limbs, x: u64)
    ensures ValueOf(limbs + [x]) == ValueOf(limbs) + x * Weight(|limbs|)
  {
    if limbs == [] {
      assert [x][1..] == [];
    } else {
      AppendValue(limbs[1..], x);
      assert (limbs + [x])[1..] == limbs[1..] + [x];
      ScaleBase(x, Weight(|limbs| - 1));
    }
  }

  /** Limbs with a non-zero top lie between consecutive weights. */
  lemma {:induction false} ValueBounds(limbs: Limbs)
    ensures ValueOf(limbs) < Weight(|limbs|)
    ensures limbs != [] && limbs[|limbs| - 1] != 0 ==> ValueOf(limbs) >= Weight(|limbs| - 1)
  {
    if limbs != [] {
      ValueBounds(limbs[1..]);
    }
  }

  lemma {:induction false} WeightGrows(m: nat, n: nat)
    requires m <= n
    ensures Weight(m) <= Weight(n)
  {
    if m < n { WeightGrows(m, n - 1); }
  }

  // ----- addition

  function OverflowingAdd(a: u64, b: u64): (r: (u64, bool))
    ensures a + b == r.0 + (if r.1 then BASE else 0)
  {
    if a + b > U64_MAX then (a + b - BASE, true) else (a + b, false)
  }

  function Carry(c: bool): (r: u64)
    ensures r == if c then 1 else 0
  {
    if c then 1 else 0
  }

  function SplitU128(value: u128): (r: (u64, u64))
    ensures value == r.0 + BASE * r.1
  {
    (value % BASE, value / BASE)
  }

  datatype Representation = Inline(value: u128) | Wide(limbs: Limbs)
  {
    ghost function Value(): nat {
      match this case Inline(value) => value case Wide(limbs) => ValueOf(limbs)
    }

    /** Wide only above every inline value, with a non-zero top limb. */
    ghost predicate Canonical() {
      Wide? ==> |limbs| >= 3 && limbs[|limbs| - 1] != 0
    }
  }

  lemma WideExceedsInline(limbs: Limbs)
    requires |limbs| >= 3 && limbs[|limbs| - 1] != 0
    ensures ValueOf(limbs) > U128_MAX
  {
    ValueBounds(limbs);
    WeightGrows(2, |limbs| - 1);
    assert Weight(2) == BASE * (BASE * Weight(0));
  }

  /** Canonical representations are unique: equal values are equal representations. */
  lemma CanonicalIsUnique(a: Representation, b: Representation)
    requires a.Canonical() && b.Canonical() && a.Value() == b.Value()
    ensures a == b
  {
    if a.Wide? { WideExceedsInline(a.limbs); }
    if b.Wide? { WideExceedsInline(b.limbs); }
    if a.Wide? && b.Wide? { LimbsAreUnique(a.limbs, b.limbs); }
  }

  lemma {:induction false} LimbsAreUnique(a: Limbs, b: Limbs)
    requires ValueOf(a) == ValueOf(b)
    requires (a != [] ==> a[|a| - 1] != 0) && (b != [] ==> b[|b| - 1] != 0)
    ensures a == b
  {
    if a == [] || b == [] {
      ValueBounds(a);
      ValueBounds(b);
    } else {
      assert a[0] == ValueOf(a) % BASE && b[0] == ValueOf(b) % BASE;
      LimbsAreUnique(a[1..], b[1..]);
      assert a == [a[0]] + a[1..] && b == [b[0]] + b[1..];
    }
  }

  /** Two inline values whose sum overflows, as three limbs. */
  function AddInlineValues(left: u128, right: u128): (limbs: Limbs)
    requires left + right > U128_MAX
    ensures |limbs| == 3 && limbs[2] == 1 && ValueOf(limbs) == left + right
  {
    var (leftLow, leftHigh), (rightLow, rightHigh) := SplitU128(left), SplitU128(right);
    var (low, lowCarry) := OverflowingAdd(leftLow, rightLow);
    var (highWithoutLowCarry, highCarry) := OverflowingAdd(leftHigh, rightHigh);
    var (high, propagatedCarry) := OverflowingAdd(highWithoutLowCarry, Carry(lowCarry));
    ThreeLimbs(low, high, 1);
    assert highCarry || propagatedCarry;
    [low, high, 1]
  }

  lemma ThreeLimbs(a: u64, b: u64, c: u64)
    ensures ValueOf([a, b, c]) == a + BASE * b + BASE * BASE * c
  {
    assert [a, b, c][1..] == [b, c] && [b, c][1..] == [c] && [c][1..] == [];
    assert ValueOf([c]) == c;
    assert ValueOf([b, c]) == b + BASE * c;
  }

  /** One limb and its carry, within a number whose carry is still pending at `i`. */
  lemma CarryStep(limbs: Limbs, i: nat, addend: u64, total: nat)
    requires i < |limbs| && ValueOf(limbs) + addend * Weight(i) == total
    ensures var r := OverflowingAdd(limbs[i], addend); ValueOf(limbs[i := r.0]) + Carry(r.1) * Weight(i + 1) == total
  {
    var r := OverflowingAdd(limbs[i], addend);
    UpdateValue(limbs, i, r.0);
    CarryArithmetic(limbs[i], addend, r.0, Carry(r.1), Weight(i));
  }

  lemma CarryArithmetic(limb: int, addend: int, kept: int, carry: int, w: int)
    requires limb + addend == kept + BASE * carry
    ensures (kept - limb) * w + carry * (BASE * w) == addend * w
  {
    assert (kept - limb + BASE * carry) * w == addend * w;
  }

  /** Adds one inline value to at least three limbs, growing by one limb when the carry runs out. */
  method AddToWide(source: Limbs, value: u128) returns (limbs: Limbs)
    requires |source| >= 3 && source[|source| - 1] != 0
    ensures ValueOf(limbs) == ValueOf(source) + value
    ensures |limbs| >= 3 && limbs[|limbs| - 1] != 0
  {
    hide ValueOf, Weight;
    ghost var total := ValueOf(source) + value;
    limbs := source;
    var (valueLow, valueHigh) := SplitU128(value);
    var (low, lowCarry) := OverflowingAdd(limbs[0], valueLow);
    var (highWithoutLowCarry, highCarry) := OverflowingAdd(limbs[1], valueHigh);
    var (high, propagatedCarry) := OverflowingAdd(highWithoutLowCarry, Carry(lowCarry));
    TwoLimbs(limbs, low, high);
    var index, carry := 2, highCarry || propagatedCarry;
    TwoCarries(limbs[1], valueHigh, highWithoutLowCarry, highCarry, lowCarry, high, propagatedCarry);
    limbs := limbs[0 := low][1 := high];
    while carry && index < |limbs|
      invariant 2 <= index <= |limbs| == |source| && ValueOf(limbs) + Carry(carry) * Weight(index) == total
      invariant !carry || index < |limbs| ==> limbs[|limbs| - 1] != 0
    {
      CarryStep(limbs, index, 1, total);
      var (next, nextCarry) := OverflowingAdd(limbs[index], 1);
      limbs, carry, index := limbs[index := next], nextCarry, index + 1;
    }
    if carry {
      AppendValue(limbs, 1);
      limbs := limbs + [1];
    }
  }

  /** The two low limbs after adding a two-limb value. */
  lemma TwoLimbs(limbs: Limbs, low: u64, high: u64)
    requires |limbs| >= 2
    ensures ValueOf(limbs[0 := low][1 := high]) == ValueOf(limbs) + (low - limbs[0]) + BASE * (high - limbs[1])
  {
    UpdateValue(limbs, 0, low);
    UpdateValue(limbs[0 := low], 1, high);
    assert Weight(1) == BASE * Weight(0);
  }

  /** At most one of the two high carries is set, so they merge into one. */
  lemma TwoCarries(limb: u64, value: u64, partialSum: u64, highCarry: bool, lowCarry: bool, high: u64, propagatedCarry: bool)
    requires limb + value == partialSum + (if highCarry then BASE else 0)
    requires partialSum + Carry(lowCarry) == high + (if propagatedCarry then BASE else 0)
    ensures limb + value + Carry(lowCarry) == high + BASE * Carry(highCarry || propagatedCarry)
    ensures Weight(2) == BASE * BASE
  {
    assert Weight(2) == BASE * (BASE * Weight(0));
  }

  // ----- comparison

  datatype Ordering = Less | Equal | Greater

  function OrderOf(a: int, b: int): Ordering {
    if a < b then Less else if a > b then Greater else Equal
  }

  /** Limbs that agree above position `k` and differ there are ordered by that limb. */
  lemma {:induction false} TopLimbDecides(a: Limbs, b: Limbs, k: nat)
    requires |a| == |b| && k < |a| && a[k] < b[k] && forall i {:trigger a[i]} {:trigger b[i]} :: k < i < |a| ==> a[i] == b[i]
    ensures ValueOf(a) < ValueOf(b)
  {
    if k == 0 {
      assert a[1..] == b[1..];
    } else {
      TopLimbDecides(a[1..], b[1..], k - 1);
    }
  }

  /** Compares from the most significant limb down. */
  method CompareLimbs(a: Limbs, b: Limbs) returns (r: Ordering)
    requires |a| == |b|
    ensures r == OrderOf(ValueOf(a), ValueOf(b))
  {
    var i := |a|;
    while i > 0
      invariant 0 <= i <= |a| && forall j {:trigger a[j]} {:trigger b[j]} :: i <= j < |a| ==> a[j] == b[j]
    {
      i := i - 1;
      if a[i] < b[i] {
        TopLimbDecides(a, b, i);
        return Less;
      }
      if a[i] > b[i] {
        TopLimbDecides(b, a, i);
        return Greater;
      }
    }
    assert a == b;
    return Equal;
  }

  lemma LongerIsGreater(a: Limbs, b: Limbs)
    requires |a| < |b| && b[|b| - 1] != 0
    ensures ValueOf(a) < ValueOf(b)
  {
    ValueBounds(a);
    ValueBounds(b);
    WeightGrows(|a|, |b| - 1);
  }

  method CompareMagnitudes(a: Representation, b: Representation) returns (r: Ordering)
    requires a.Canonical() && b.Canonical()
    ensures r == OrderOf(a.Value(), b.Value())
  {
    match (a, b) {
      case (Inline(left), Inline(right)) => r := OrderOf(left, right);
      case (Inline(_), Wide(right)) => WideExceedsInline(right); r := Less;
      case (Wide(left), Inline(_)) => WideExceedsInline(left); r := Greater;
      case (Wide(left), Wide(right)) =>
        if |left| != |right| {
          if |left| < |right| { LongerIsGreater(left, right); } else { LongerIsGreater(right, left); }
          r := OrderOf(|left|, |right|);
        } else {
          r := CompareLimbs(left, right);
        }
    }
  }

  // ----- decimal printing

  function Digit(d: nat): (c: char)
    requires d < 10
    ensures '0' <= c <= '9' && (c == '0' <==> d == 0)
  {
    '0' + d as char
  }

  /** The decimal numeral of a number, without leading zeros. */
  function Decimal(n: nat): string {
    if n < 10 then [Digit(n)] else Decimal(n / 10) + [Digit(n % 10)]
  }

  /** The last `width` decimal digits, zero padded. */
  function Padded(n: nat, width: nat): string {
    if width == 0 then "" else Padded(n / 10, width - 1) + [Digit(n % 10)]
  }

  function PowerOfTen(n: nat): (p: nat)
    ensures p >= 1
  {
    if n == 0 then 1 else 10 * PowerOfTen(n - 1)
  }

  /** Reading a numeral digit by digit. */
  function Parse(s: string): nat
    requires forall i :: 0 <= i < |s| ==> '0' <= s[i] <= '9'
  {
    if s == "" then 0 else 10 * Parse(s[..|s| - 1]) + (s[|s| - 1] - '0') as nat
  }

  /** A printed numeral reads back as its number and has no leading zero. */
  lemma {:induction false} DecimalRoundTrips(n: nat)
    ensures forall i :: 0 <= i < |Decimal(n)| ==> '0' <= Decimal(n)[i] <= '9'
    ensures Parse(Decimal(n)) == n && |Decimal(n)| >= 1
    ensures n > 0 ==> Decimal(n)[0] != '0'
    ensures n == 0 ==> Decimal(n) == "0"
  {
    if n >= 10 {
      DecimalRoundTrips(n / 10);
      var s := Decimal(n);
      assert s[..|s| - 1] == Decimal(n / 10);
    } else {
      assert Decimal(n)[..0] == "";
    }
  }

  /** Appending a zero-padded block shifts the number by the block's width. */
  lemma {:induction false} BlockAppends(n: nat, block: nat, width: nat)
    requires n > 0 && block < PowerOfTen(width)
    ensures Decimal(n * PowerOfTen(width) + block) == Decimal(n) + Padded(block, width)
  {
    if width == 0 {
      assert n * PowerOfTen(0) + block == n;
      assert Decimal(n) + "" == Decimal(n);
    } else {
      var p := PowerOfTen(width - 1);
      var whole := n * PowerOfTen(width) + block;
      ShiftByTen(n, p, block);
      assert whole / 10 == n * p + block / 10 && whole % 10 == block % 10 && whole >= 10;
      BlockAppends(n, block / 10, width - 1);
      assert Decimal(n) + Padded(block, width) == Decimal(n) + Padded(block / 10, width - 1) + [Digit(block % 10)];
    }
  }

  lemma ShiftByTen(n: nat, p: nat, block: nat)
    requires n > 0 && p >= 1
    ensures (n * (10 * p) + block) / 10 == n * p + block / 10
    ensures (n * (10 * p) + block) % 10 == block % 10 && n * (10 * p) + block >= 10
  {
    var q := n * p;
    assert n * (10 * p) == 10 * q && q >= 1;
  }

  /** Schoolbook division in place, most significant limb first. */
  method DivideByDecimalBase(source: Limbs) returns (limbs: Limbs, remainder: u64)
    ensures |limbs| == |source| && remainder < DECIMAL_BASE
    ensures ValueOf(source) == ValueOf(limbs) * DECIMAL_BASE + remainder
  {
    limbs, remainder := source, 0;
    var i := |source|;
    assert source[i..] == [] && limbs[i..] == [];
    while i > 0
      invariant 0 <= i <= |source| == |limbs| && remainder < DECIMAL_BASE && limbs[..i] == source[..i]
      invariant ValueOf(source[i..]) == ValueOf(limbs[i..]) * DECIMAL_BASE + remainder
    {
      i := i - 1;
      assert limbs[i] == source[i] by { assert limbs[..i + 1][i] == source[..i + 1][i]; }
      var dividend: u128 := remainder * BASE + limbs[i];
      var quotient: u64 := dividend / DECIMAL_BASE;
      assert source[i..][1..] == source[i + 1..];
      ghost var above := limbs[i + 1..];
      limbs := limbs[i := quotient];
      assert limbs[i..][1..] == above;
      remainder := dividend % DECIMAL_BASE;
      assert limbs[..i] == source[..i];
    }
    assert source[0..] == source && limbs[0..] == limbs;
  }

  /** Drops zero limbs from the top. */
  method TrimTop(source: Limbs) returns (limbs: Limbs)
    ensures ValueOf(limbs) == ValueOf(source) && (limbs != [] ==> limbs[|limbs| - 1] != 0)
  {
    limbs := source;
    while limbs != [] && limbs[|limbs| - 1] == 0
      invariant ValueOf(limbs) == ValueOf(source)
    {
      AppendValue(limbs[..|limbs| - 1], 0);
      assert limbs == limbs[..|limbs| - 1] + [0];
      limbs := limbs[..|limbs| - 1];
    }
  }

  // ----- blocks of nineteen digits

  ghost function BlocksValue(blocks: Limbs): nat {
    if blocks == [] then 0 else blocks[0] + DECIMAL_BASE * BlocksValue(blocks[1..])
  }

  ghost function BlockWeight(n: nat): (w: nat)
    ensures w >= 1
  {
    if n == 0 then 1 else DECIMAL_BASE * BlockWeight(n - 1)
  }

  lemma {:induction false} AppendBlock(blocks: Limbs, x: u64)
    ensures BlocksValue(blocks + [x]) == BlocksValue(blocks) + x * BlockWeight(|blocks|)
  {
    if blocks == [] {
      assert [x][1..] == [];
    } else {
      AppendBlock(blocks[1..], x);
      assert (blocks + [x])[1..] == blocks[1..] + [x];
      ScaleBlock(x, BlockWeight(|blocks| - 1));
    }
  }

  lemma ScaleBlock(x: int, w: int)
    ensures DECIMAL_BASE * (x * w) == x * (DECIMAL_BASE * w)
  {
  }

  /** Moving one remainder from the limbs to the blocks keeps the number. */
  lemma BlockMoves(blocks: Limbs, remainder: u64, value: nat, quotient: nat, total: nat)
    requires value == quotient * DECIMAL_BASE + remainder && total == BlocksValue(blocks) + value * BlockWeight(|blocks|)
    ensures total == BlocksValue(blocks + [remainder]) + quotient * BlockWeight(|blocks| + 1)
  {
    hide BlocksValue;
    AppendBlock(blocks, remainder);
    BlockArithmetic(value, quotient, remainder, BlockWeight(|blocks|));
  }

  lemma BlockArithmetic(value: int, quotient: int, remainder: int, w: int)
    requires value == quotient * DECIMAL_BASE + remainder
    ensures value * w == quotient * (DECIMAL_BASE * w) + remainder * w
  {
    ScaleBlock(quotient, w);
  }

  /** The number as blocks, least significant first, the last one not zero. */
  method DecimalBlocks(source: Limbs) returns (blocks: Limbs)
    requires source != [] && source[|source| - 1] != 0
    ensures blocks != [] && blocks[|blocks| - 1] != 0 && BlocksValue(blocks) == ValueOf(source)
    ensures forall i :: 0 <= i < |blocks| ==> blocks[i] < DECIMAL_BASE
  {
    var limbs := source;
    blocks := [];
    ValueBounds(source);
    while limbs != []
      invariant ValueOf(source) == BlocksValue(blocks) + ValueOf(limbs) * BlockWeight(|blocks|)
      invariant forall i :: 0 <= i < |blocks| ==> blocks[i] < DECIMAL_BASE
      invariant limbs != [] ==> limbs[|limbs| - 1] != 0
      invariant limbs == [] ==> blocks != [] && blocks[|blocks| - 1] != 0
      decreases ValueOf(limbs)
    {
      ValueBounds(limbs);
      var quotient, remainder := DivideByDecimalBase(limbs);
      BlockMoves(blocks, remainder, ValueOf(limbs), ValueOf(quotient), ValueOf(source));
      limbs := TrimTop(quotient);
      blocks := blocks + [remainder];
    }
  }

  lemma TenToTheNineteen()
    ensures PowerOfTen(19) == DECIMAL_BASE
  {
    assert PowerOfTen(5) == 100_000;
    assert PowerOfTen(10) == 10_000_000_000;
    assert PowerOfTen(15) == 1_000_000_000_000_000;
  }

  /** Prints the top block plainly and every lower block padded to nineteen digits. */
  method Format(r: Representation) returns (text: string)
    requires r.Canonical()
    ensures text == Decimal(r.Value())
  {
    hide Decimal, Padded, PowerOfTen, ValueOf, BlocksValue;
    match r {
      case Inline(value) =>
        text := Decimal(value);
      case Wide(limbs) =>
        var blocks := DecimalBlocks(limbs);
        var k := |blocks| - 1;
        text := Decimal(blocks[k]);
        BlocksFrom(blocks, k);
        NoBlocks(blocks);
        TenToTheNineteen();
        while k > 0
          invariant 0 <= k < |blocks| && BlocksValue(blocks[k..]) > 0 && text == Decimal(BlocksValue(blocks[k..]))
        {
          k := k - 1;
          BlocksFrom(blocks, k);
          BlockAppends(BlocksValue(blocks[k + 1..]), blocks[k], 19);
          text := text + Padded(blocks[k], 19);
        }
        assert blocks[0..] == blocks;
    }
  }

  lemma BlocksFrom(blocks: Limbs, k: nat)
    requires k < |blocks|
    ensures BlocksValue(blocks[k..]) == BlocksValue(blocks[k + 1..]) * DECIMAL_BASE + blocks[k] && BlocksValue(blocks[k..]) >= BlocksValue(blocks[k + 1..])
  {
    assert blocks[k..][1..] == blocks[k + 1..];
  }

  lemma NoBlocks(blocks: Limbs)
    ensures BlocksValue(blocks[|blocks|..]) == 0
  {
  }

  class LedgerMagnitude {
    var representation: Representation

    ghost predicate Valid()
      reads this
    {
      representation.Canonical()
    }

    /** The exact integer this aggregate stands for. */
    ghost function Value(): nat
      reads this
    {
      representation.Value()
    }

    constructor (value: u128)
      ensures Valid() && Value() == value
    {
      representation := Inline(value);
    }

    /** Adds exactly, spilling to limbs only when the inline value would overflow. */
    method AddU128(value: u128)
      requires Valid()
      modifies this
      ensures Valid() && Value() == old(Value()) + value
    {
      if value == 0 {
        return;
      }
      match representation {
        case Inline(current) =>
          if current + value <= U128_MAX {
            representation := Inline(current + value);
          } else {
            representation := Wide(AddInlineValues(current, value));
          }
        case Wide(limbs) =>
          var grown := AddToWide(limbs, value);
          representation := Wide(grown);
      }
    }
  }
}
