/**
  The integer index arithmetic inside the LTE UE physical layer: translating
  downlink and uplink DCIs into resource-block lists, averaging per-RB CQIs
  into wideband (P10) and per-RBG subband (A30) reports, and the timing rule
  that decides when each periodic report is sent. The RBG size, the current
  time and the CQI vector are parameters.
*/
module LteUePhy {
  import opened Wrappers

  type Uint8 = x: int | 0 <= x < 0x100
  type Uint16 = x: int | 0 <= x < 0x1_0000

  // ------------------------------------------------------------- arithmetic

  lemma MulAtLeast(d: int, s: int)
    requires s > 0 && d >= 1
    ensures d * s >= s
  {
    if d > 1 {
      MulAtLeast(d - 1, s);
      assert d * s == (d - 1) * s + s;
    }
  }

  /** Integer division is determined by quotient and remainder. */
  lemma DivUnique(n: int, q: int, r: int, s: int)
    requires s > 0 && n == q * s + r && 0 <= r < s
    ensures n / s == q
  {
    var q' := n / s;
    assert n == q' * s + n % s;
    var d := q - q';
    assert d * s == q * s - q' * s;
    if d >= 1 {
      MulAtLeast(d, s);
    } else if d <= -1 {
      MulAtLeast(-d, s);
    }
  }

  predicate StrictlyIncreasing(s: seq<int>)
  {
    forall i, j :: 0 <= i < j < |s| ==> s[i] < s[j]
  }

  /** The head of a strictly increasing list is below everything else in it. */
  lemma HeadLeast(s: seq<int>, x: int)
    requires StrictlyIncreasing(s) && s != [] && x in s
    ensures s[0] <= x
    ensures x != s[0] ==> x in s[1..]
  {
    var k :| 0 <= k < |s| && s[k] == x;
    if k > 0 {
      assert s[1..][k - 1] == x;
    }
  }

  /** Two strictly increasing lists with the same elements are the same list. */
  lemma {:induction false} IncreasingUnique(a: seq<int>, b: seq<int>)
    requires StrictlyIncreasing(a) && StrictlyIncreasing(b)
    requires forall x :: x in a <==> x in b
    ensures a == b
    decreases |a|
  {
    assert a != [] ==> a[0] in a && a[0] in b;
    assert b != [] ==> b[0] in b && b[0] in a;
    if a != [] && b != [] {
      HeadLeast(a, b[0]);
      HeadLeast(b, a[0]);
      var a', b' := a[1..], b[1..];
      forall x ensures x in a' <==> x in b' {
        if x in a' {
          assert x in a && x != a[0];
          HeadLeast(b, x);
        }
        if x in b' {
          assert x in b && x != b[0];
          HeadLeast(a, x);
        }
      }
      IncreasingUnique(a', b');
      assert a == [a[0]] + a' && b == [b[0]] + b';
    }
  }

  // --------------------------------------------------------- downlink DCI

  /** The `mask` of the translation loop after `i` shifts: bit `i` alone. */
  function MaskAt(i: nat): bv32
    requires i <= 32
  {
    if i == 0 then 1 else MaskAt(i - 1) << 1
  }

  /** The translation loop's test of bit `i` under `mask`. */
  predicate MaskedBit(bitmap: bv32, mask: bv32, i: nat)
    requires i < 32
  {
    ((bitmap & mask) >> i) == 1
  }

  /** Bit `i` of the RBG bitmap is set: RBG `i` is allocated. */
  predicate BitSet(bitmap: bv32, i: nat)
    requires i < 32
  {
    (bitmap >> i) & 1 == 1
  }

  /** One left shift of `1 << i` is `1 << (i+1)`. */
  lemma ShiftOnce(i: nat)
    requires i < 31
    ensures ((1 as bv32) << i) << 1 == (1 as bv32) << (i + 1)
  {
    var k: bv32 := (1 as bv32) << i;
    assert k << 1 == (1 as bv32) << (i + 1);
  }

  /** After `i` shifts the loop's mask is `1 << i`. */
  lemma {:induction false} MaskAtShift(i: nat)
    requires i < 32
    ensures MaskAt(i) == (1 as bv32) << i
  {
    if i > 0 {
      MaskAtShift(i - 1);
      ShiftOnce(i - 1);
    }
  }

  /** The loop's test `((bitmap & mask) >> i) == 1` reads exactly bit `i` of the bitmap. */
  lemma MaskedBitIsBitSet(bitmap: bv32, i: nat)
    requires i < 32
    ensures MaskedBit(bitmap, MaskAt(i), i) <==> BitSet(bitmap, i)
  {
    MaskAtShift(i);
  }

  /** The 32 bits of the RBG bitmap, bit 0 first. */
  function Bits(bitmap: bv32): (bits: seq<bool>)
    ensures |bits| == 32
  {
    seq(32, i requires 0 <= i < 32 => BitSet(bitmap, i))
  }

  /** Number of set bits among `bits[0 .. n-1]`. */
  function PopCountBelow(bits: seq<bool>, n: nat): nat
    requires n <= |bits|
  {
    if n == 0 then 0 else PopCountBelow(bits, n - 1) + (if bits[n - 1] then 1 else 0)
  }

  function PopCount(bitmap: bv32): nat
  {
    PopCountBelow(Bits(bitmap), 32)
  }

  /** `len` consecutive integers from `lo`; nothing when `len` is not positive. */
  function Run(lo: int, len: int): (r: seq<int>)
    ensures |r| == if len > 0 then len else 0
    ensures forall k :: 0 <= k < |r| ==> r[k] == lo + k
  {
    seq(if len > 0 then len else 0, k => lo + k)
  }

  lemma RunMembers(lo: int, len: int)
    ensures forall x :: x in Run(lo, len) <==> lo <= x < lo + len
  {
    forall x | lo <= x < lo + len ensures x in Run(lo, len) {
      assert Run(lo, len)[x - lo] == x;
    }
  }

  /** Resource block `x` lies in an RBG among the first `n` whose bit is set. */
  predicate AllocatedBelow(bits: seq<bool>, rbgSize: int, x: int, n: nat)
    requires n <= |bits|
  {
    exists b :: 0 <= b < n && bits[b] && b * rbgSize <= x < b * rbgSize + rbgSize
  }

  /** The downlink allocation a bitmap describes, as an ascending RB list. */
  ghost predicate IsDlAllocation(rbs: seq<int>, bitmap: bv32, rbgSize: int)
  {
    && StrictlyIncreasing(rbs)
    && (forall x :: x in rbs <==> AllocatedBelow(Bits(bitmap), rbgSize, x, 32))
  }

  /** The description fixes the list: at most one RB list satisfies it. */
  lemma DlAllocationUnique(a: seq<int>, b: seq<int>, bitmap: bv32, rbgSize: int)
    requires IsDlAllocation(a, bitmap, rbgSize) && IsDlAllocation(b, bitmap, rbgSize)
    ensures a == b
  {
    IncreasingUnique(a, b);
  }

  /** The RBs the translation loop has collected after looking at `bits[0 .. n-1]`. */
  function DlRbsBelow(bits: seq<bool>, rbgSize: int, n: nat): seq<int>
    requires n <= |bits|
  {
    if n == 0 then []
    else DlRbsBelow(bits, rbgSize, n - 1)
         + (if bits[n - 1] then Run((n - 1) * rbgSize, rbgSize) else [])
  }

  /**
    The collected list is ascending, lies below RBG `n`, holds exactly the RBs
    of the set bits below `n`, and has `rbgSize` RBs per set bit.
  */
  lemma {:induction false} DlRbsBelowSpec(bits: seq<bool>, rbgSize: int, n: nat)
    requires n <= |bits|
    ensures StrictlyIncreasing(DlRbsBelow(bits, rbgSize, n))
    ensures forall x :: x in DlRbsBelow(bits, rbgSize, n) ==> x < n * rbgSize
    ensures forall x :: x in DlRbsBelow(bits, rbgSize, n) <==> AllocatedBelow(bits, rbgSize, x, n)
    ensures rbgSize > 0 ==> |DlRbsBelow(bits, rbgSize, n)| == PopCountBelow(bits, n) * rbgSize
    ensures rbgSize <= 0 ==> DlRbsBelow(bits, rbgSize, n) == []
  {
    DlRbsBelowOrdered(bits, rbgSize, n);
    DlRbsBelowMembers(bits, rbgSize, n);
    DlRbsBelowLength(bits, rbgSize, n);
  }

  lemma {:induction false} DlRbsBelowOrdered(bits: seq<bool>, rbgSize: int, n: nat)
    requires n <= |bits|
    ensures StrictlyIncreasing(DlRbsBelow(bits, rbgSize, n))
    ensures forall x :: x in DlRbsBelow(bits, rbgSize, n) ==> x < n * rbgSize
  {
    if n > 0 {
      var m := n - 1;
      DlRbsBelowOrdered(bits, rbgSize, m);
      DlRbsBelowLength(bits, rbgSize, m);
      var a := DlRbsBelow(bits, rbgSize, m);
      var b := if bits[m] then Run(m * rbgSize, rbgSize) else [];
      assert DlRbsBelow(bits, rbgSize, n) == a + b;
      var lo := m * rbgSize;
      assert lo + rbgSize == n * rbgSize;
      RunMembers(lo, rbgSize);
      RunIncreasing(lo, rbgSize);
      assert forall y :: y in b ==> lo <= y < n * rbgSize;
      ConcatIncreasing(a, b, lo);
      forall x | x in a + b ensures x < n * rbgSize {
        if x in a {
          assert rbgSize > 0;
        }
      }
    }
  }

  lemma RunIncreasing(lo: int, len: int)
    ensures StrictlyIncreasing(Run(lo, len))
  {
  }

  /** Two ascending lists separated by `bound` concatenate to an ascending list. */
  lemma ConcatIncreasing(a: seq<int>, b: seq<int>, bound: int)
    requires StrictlyIncreasing(a) && StrictlyIncreasing(b)
    requires forall x :: x in a ==> x < bound
    requires forall y :: y in b ==> bound <= y
    ensures StrictlyIncreasing(a + b)
  {
    var r := a + b;
    forall i, j | 0 <= i < j < |r| ensures r[i] < r[j] {
      if i < |a| && j >= |a| {
        assert r[i] in a && r[j] in b;
      } else if i >= |a| {
        assert r[i] == b[i - |a|] && r[j] == b[j - |a|];
      }
    }
  }

  lemma {:induction false} DlRbsBelowMembers(bits: seq<bool>, rbgSize: int, n: nat)
    requires n <= |bits|
    ensures forall x :: x in DlRbsBelow(bits, rbgSize, n) <==> AllocatedBelow(bits, rbgSize, x, n)
  {
    if n > 0 {
      var m := n - 1;
      DlRbsBelowMembers(bits, rbgSize, m);
      var a := DlRbsBelow(bits, rbgSize, m);
      var b := if bits[m] then Run(m * rbgSize, rbgSize) else [];
      RunMembers(m * rbgSize, rbgSize);
      var r := a + b;
      assert DlRbsBelow(bits, rbgSize, n) == r;
      forall x ensures x in r <==> AllocatedBelow(bits, rbgSize, x, n) {
        if AllocatedBelow(bits, rbgSize, x, n) && !AllocatedBelow(bits, rbgSize, x, m) {
          var c :| 0 <= c < n && bits[c] && c * rbgSize <= x < c * rbgSize + rbgSize;
          assert c == m;
        }
        if x in b {
          assert AllocatedBelow(bits, rbgSize, x, n) by {
            assert 0 <= m < n && bits[m] && m * rbgSize <= x < m * rbgSize + rbgSize;
          }
        }
        if AllocatedBelow(bits, rbgSize, x, m) {
          var c :| 0 <= c < m && bits[c] && c * rbgSize <= x < c * rbgSize + rbgSize;
          assert AllocatedBelow(bits, rbgSize, x, n);
        }
      }
    } else {
      assert forall x :: !AllocatedBelow(bits, rbgSize, x, 0);
    }
  }

  lemma {:induction false} DlRbsBelowLength(bits: seq<bool>, rbgSize: int, n: nat)
    requires n <= |bits|
    ensures rbgSize > 0 ==> |DlRbsBelow(bits, rbgSize, n)| == PopCountBelow(bits, n) * rbgSize
    ensures rbgSize <= 0 ==> DlRbsBelow(bits, rbgSize, n) == []
  {
    if n > 0 {
      var m := n - 1;
      DlRbsBelowLength(bits, rbgSize, m);
      var a := DlRbsBelow(bits, rbgSize, m);
      var b := if bits[m] then Run(m * rbgSize, rbgSize) else [];
      assert DlRbsBelow(bits, rbgSize, n) == a + b;
      if rbgSize > 0 && bits[m] {
        assert |a + b| == (PopCountBelow(bits, m) + 1) * rbgSize;
      }
    }
  }

  /**
    Type-0 downlink DCI translation: for each bit `i` of the bitmap in
    increasing order, when it is set, the RBs `i*rbgSize .. i*rbgSize+rbgSize-1`.
  */
  method DlRbsFromBitmap(bitmap: bv32, rbgSize: int) returns (rbs: seq<int>)
    ensures IsDlAllocation(rbs, bitmap, rbgSize)
    ensures rbgSize > 0 ==> |rbs| == PopCount(bitmap) * rbgSize
    ensures rbgSize <= 0 ==> rbs == []
  {
    rbs := [];
    var mask: bv32 := 1;
    var i := 0;
    while i < 32
      invariant 0 <= i <= 32
      invariant mask == MaskAt(i)
      invariant rbs == DlRbsBelow(Bits(bitmap), rbgSize, i)
    {
      var taken := MaskedBit(bitmap, mask, i);
      MaskedBitIsBitSet(bitmap, i);
      assert taken == Bits(bitmap)[i];
      MaskStep(i);
      DlRbsStep(Bits(bitmap), rbgSize, i);
      if taken {
        rbs := AppendRbg(rbs, i * rbgSize, rbgSize);
      }
      mask := mask << 1;
      i := i + 1;
    }
    DlRbsBelowSpec(Bits(bitmap), rbgSize, 32);
  }

  /** The loop's `mask = (mask << 1)`. */
  lemma MaskStep(i: nat)
    requires i < 32
    ensures MaskAt(i) << 1 == MaskAt(i + 1)
  {
  }

  /** One more bit looked at: its RBG's RBs when the bit is set, nothing otherwise. */
  lemma DlRbsStep(bits: seq<bool>, rbgSize: int, i: nat)
    requires i < |bits|
    ensures DlRbsBelow(bits, rbgSize, i + 1)
            == DlRbsBelow(bits, rbgSize, i) + (if bits[i] then Run(i * rbgSize, rbgSize) else [])
  {
  }

  /** The inner loop of the translation: appends the RBs of one RBG. */
  method AppendRbg(rbs: seq<int>, first: int, rbgSize: int) returns (r: seq<int>)
    ensures r == rbs + Run(first, rbgSize)
  {
    r := rbs;
    var k := 0;
    while k < rbgSize
      invariant 0 <= k
      invariant rbgSize > 0 ==> k <= rbgSize
      invariant rbgSize <= 0 ==> k == 0
      invariant r == rbs + Run(first, k)
    {
      r := r + [first + k];
      k := k + 1;
    }
    assert Run(first, k) == Run(first, rbgSize);
  }

  // ----------------------------------------------------------- uplink DCI

  /** Uplink DCI translation: `rbLen` consecutive RBs from `rbStart`. */
  method UlRbs(rbStart: Uint8, rbLen: Uint8) returns (rbs: seq<int>)
    ensures |rbs| == rbLen
    ensures forall k :: 0 <= k < |rbs| ==> rbs[k] == rbStart + k
    ensures forall x :: x in rbs <==> rbStart <= x < rbStart + rbLen
  {
    rbs := [];
    var i := 0;
    while i < rbLen
      invariant 0 <= i <= rbLen
      invariant |rbs| == i
      invariant forall k :: 0 <= k < i ==> rbs[k] == rbStart + k
    {
      rbs := rbs + [i + rbStart];
      i := i + 1;
    }
    forall x | rbStart <= x < rbStart + rbLen ensures x in rbs {
      assert rbs[x - rbStart] == x;
    }
  }

  // ------------------------------------------------------ control messages

  datatype DlDci = DlDci(resAlloc: Uint8, rbBitmap: bv32)
  datatype UlDci = UlDci(rbStart: Uint8, rbLen: Uint8)

  /** The ideal control messages the UE PHY receives; other kinds are opaque. */
  datatype ControlMessage = DlDciMessage(dl: DlDci) | UlDciMessage(ul: UlDci) | OtherMessage(kind: nat)

  /** The part of the UE PHY that received control messages change. */
  datatype UePhy = UePhy(subChannelsForReception: seq<int>, subChannelsForTransmission: seq<int>,
                         toMac: seq<ControlMessage>)

  /**
    `ReceiveIdealControlMessage`: a DL DCI sets the reception RBs (a resource
    allocation type other than 0 is a fatal error); a UL DCI sets the
    transmission RBs and is passed on to the MAC; any other message is only
    passed on to the MAC.
  */
  method ReceiveIdealControlMessage(phy: UePhy, msg: ControlMessage, rbgSize: int) returns (r: Result<UePhy>)
    ensures r.Failure? <==> msg.DlDciMessage? && msg.dl.resAlloc != 0
    ensures r.Success? && msg.DlDciMessage? ==>
      && IsDlAllocation(r.value.subChannelsForReception, msg.dl.rbBitmap, rbgSize)
      && r.value.subChannelsForTransmission == phy.subChannelsForTransmission
      && r.value.toMac == phy.toMac
    ensures r.Success? && msg.UlDciMessage? ==>
      && r.value.subChannelsForReception == phy.subChannelsForReception
      && |r.value.subChannelsForTransmission| == msg.ul.rbLen
      && (forall k :: 0 <= k < msg.ul.rbLen ==> r.value.subChannelsForTransmission[k] == msg.ul.rbStart + k)
      && r.value.toMac == phy.toMac + [msg]
    ensures msg.OtherMessage? ==> r == Success(phy.(toMac := phy.toMac + [msg]))
  {
    match msg
    case DlDciMessage(dci) =>
      if dci.resAlloc != 0 {
        return Failure("Resource Allocation type not implemented");
      }
      var dlRb := DlRbsFromBitmap(dci.rbBitmap, rbgSize);
      r := Success(phy.(subChannelsForReception := dlRb));
    case UlDciMessage(dci) =>
      var ulRb := UlRbs(dci.rbStart, dci.rbLen);
      r := Success(phy.(subChannelsForTransmission := ulRb, toMac := phy.toMac + [msg]));
    case OtherMessage(_) =>
      r := Success(phy.(toMac := phy.toMac + [msg]));
  }

  // ------------------------------------------------------------------ CQI

  function Sum(s: seq<int>): int
  {
    if s == [] then 0 else Sum(s[..|s| - 1]) + s[|s| - 1]
  }

  lemma SumSnoc(s: seq<int>, lo: nat, i: nat)
    requires lo <= i < |s|
    ensures Sum(s[lo..i + 1]) == Sum(s[lo..i]) + s[i]
  {
    assert s[lo..i + 1][..i - lo] == s[lo..i];
  }

  /** The CQI sum of RBG `b`: RBs `b*rbgSize .. b*rbgSize+rbgSize-1`. */
  function BlockSum(cqi: seq<int>, rbgSize: int, b: nat): int
    requires rbgSize > 0 && b * rbgSize + rbgSize <= |cqi|
  {
    Sum(cqi[b * rbgSize .. b * rbgSize + rbgSize])
  }

  /** The `(uint16_t)` cast of the wideband sum is defined, and the division by the count is. */
  predicate WidebandFits(cqi: seq<int>)
  {
    |cqi| > 0 && 0 <= Sum(cqi) < 0x1_0000
  }

  /** The `(uint16_t)` cast of every complete RBG sum is defined. */
  ghost predicate SubbandFits(cqi: seq<int>, rbgSize: int)
  {
    rbgSize > 0 ==>
      forall b: nat :: b * rbgSize + rbgSize <= |cqi| ==> 0 <= BlockSum(cqi, rbgSize, b) < 0x1_0000
  }

  /** `wb` is the CQI sum divided by the number of RBs, rounded down. */
  predicate IsWidebandCqi(wb: int, cqi: seq<int>)
    requires |cqi| > 0
  {
    wb * |cqi| <= Sum(cqi) < wb * |cqi| + |cqi|
  }

  /**
    `sb` holds one value per complete RBG, in RBG order, each the RBG's CQI sum
    divided by the RBG size; a trailing partial RBG contributes nothing, and a
    non-positive RBG size yields no values.
  */
  predicate IsSubbandCqis(sb: seq<int>, cqi: seq<int>, rbgSize: int)
  {
    && (rbgSize <= 0 ==> sb == [])
    && (rbgSize > 0 ==>
          && |sb| == |cqi| / rbgSize
          && forall b :: 0 <= b < |sb| ==>
               b * rbgSize + rbgSize <= |cqi| && sb[b] == BlockSum(cqi, rbgSize, b) / rbgSize)
  }

  /** P10: the wideband CQI, the average of all RB CQIs. */
  method WidebandCqi(cqi: seq<int>) returns (wb: Uint16)
    requires WidebandFits(cqi)
    ensures IsWidebandCqi(wb, cqi)
  {
    var nbSubChannels := |cqi|;
    var cqiSum := 0;
    var i := 0;
    while i < nbSubChannels
      invariant 0 <= i <= nbSubChannels
      invariant cqiSum == Sum(cqi[..i])
    {
      SumSnoc(cqi, 0, i);
      cqiSum := cqiSum + cqi[i];
      i := i + 1;
    }
    assert cqi[..|cqi|] == cqi;
    wb := cqiSum / nbSubChannels;
  }

  /** A30: one averaged CQI per complete RBG of `rbgSize` consecutive RBs. */
  method SubbandCqis(cqi: seq<int>, rbgSize: int) returns (sb: seq<int>)
    requires SubbandFits(cqi, rbgSize)
    ensures IsSubbandCqis(sb, cqi, rbgSize)
  {
    sb := [];
    var cqiSum := 0;
    var cqiNum := 0;
    var i := 0;
    while i < |cqi|
      invariant 0 <= i <= |cqi|
      invariant rbgSize <= 0 ==> sb == [] && cqiNum == i
      invariant rbgSize > 0 ==> SubbandProgress(sb, cqi, rbgSize, i, cqiNum, cqiSum)
    {
      if rbgSize > 0 && cqiNum + 1 < rbgSize {
        SubbandExtend(sb, cqi, rbgSize, i, cqiNum, cqiSum);
      } else if rbgSize > 0 {
        SubbandComplete(sb, cqi, rbgSize, i, cqiNum, cqiSum);
      }
      cqiSum := cqiSum + cqi[i];
      cqiNum := cqiNum + 1;
      if cqiNum == rbgSize {
        var rbgCqi: Uint16 := cqiSum;
        sb := sb + [rbgCqi / rbgSize];
        cqiSum := 0;
        cqiNum := 0;
      }
      i := i + 1;
    }
    if rbgSize > 0 {
      DivUnique(|cqi|, |sb|, cqiNum, rbgSize);
    }
  }

  /**
    The state of the A30 loop after `i` RBs: one value per complete RBG so far,
    and the running sum of the `cqiNum` RBs of the current partial RBG.
  */
  ghost predicate SubbandProgress(sb: seq<int>, cqi: seq<int>, rbgSize: int, i: nat, cqiNum: int, cqiSum: int)
    requires rbgSize > 0 && i <= |cqi|
  {
    && 0 <= cqiNum < rbgSize
    && i == |sb| * rbgSize + cqiNum
    && cqiSum == Sum(cqi[i - cqiNum .. i])
    && forall b :: 0 <= b < |sb| ==>
         b * rbgSize + rbgSize <= |cqi| && sb[b] == BlockSum(cqi, rbgSize, b) / rbgSize
  }

  /** One RB of the A30 loop that leaves the current RBG incomplete. */
  lemma SubbandExtend(sb: seq<int>, cqi: seq<int>, rbgSize: int, i: nat, cqiNum: int, cqiSum: int)
    requires rbgSize > 0 && i < |cqi|
    requires SubbandProgress(sb, cqi, rbgSize, i, cqiNum, cqiSum) && cqiNum + 1 < rbgSize
    ensures SubbandProgress(sb, cqi, rbgSize, i + 1, cqiNum + 1, cqiSum + cqi[i])
  {
    SumSnoc(cqi, i - cqiNum, i);
  }

  /** One RB of the A30 loop that completes the current RBG: its average is appended. */
  lemma SubbandComplete(sb: seq<int>, cqi: seq<int>, rbgSize: int, i: nat, cqiNum: int, cqiSum: int)
    requires rbgSize > 0 && i < |cqi| && SubbandFits(cqi, rbgSize)
    requires SubbandProgress(sb, cqi, rbgSize, i, cqiNum, cqiSum) && cqiNum + 1 == rbgSize
    ensures 0 <= cqiSum + cqi[i] < 0x1_0000
    ensures SubbandProgress(sb + [(cqiSum + cqi[i]) / rbgSize], cqi, rbgSize, i + 1, 0, 0)
  {
    SumSnoc(cqi, i - cqiNum, i);
    var b := |sb|;
    assert i - cqiNum == b * rbgSize;
    assert b * rbgSize + rbgSize == i + 1;
    assert cqiSum + cqi[i] == BlockSum(cqi, rbgSize, b);
    var sb' := sb + [(cqiSum + cqi[i]) / rbgSize];
    assert |sb'| * rbgSize == i + 1 by {
      assert (b + 1) * rbgSize == b * rbgSize + rbgSize;
    }
    forall k | 0 <= k < |sb'|
      ensures k * rbgSize + rbgSize <= |cqi| && sb'[k] == BlockSum(cqi, rbgSize, k) / rbgSize
    {
      if k < b {
        assert sb'[k] == sb[k];
      }
    }
    assert cqi[i + 1 .. i + 1] == [];
  }

  /** The wideband value is the mean rounded down, the quotient of the integer division. */
  lemma WidebandIsFloorMean(wb: int, cqi: seq<int>)
    requires |cqi| > 0 && IsWidebandCqi(wb, cqi)
    ensures wb == Sum(cqi) / |cqi|
  {
    DivUnique(Sum(cqi), wb, Sum(cqi) - wb * |cqi|, |cqi|);
  }

  /** The subband description fixes the report: at most one list satisfies it. */
  lemma SubbandUnique(a: seq<int>, b: seq<int>, cqi: seq<int>, rbgSize: int)
    requires IsSubbandCqis(a, cqi, rbgSize) && IsSubbandCqis(b, cqi, rbgSize)
    ensures a == b
  {
  }

  lemma {:induction false} SumConstant(cqi: seq<int>, c: int)
    requires forall i :: 0 <= i < |cqi| ==> cqi[i] == c
    ensures Sum(cqi) == c * |cqi|
    decreases |cqi|
  {
    if cqi != [] {
      SumConstant(cqi[..|cqi| - 1], c);
    }
  }

  /** When every RB reports the same CQI, the wideband value and every subband value are that CQI. */
  lemma UniformCqi(cqi: seq<int>, c: int, rbgSize: int, wb: int, sb: seq<int>)
    requires forall i :: 0 <= i < |cqi| ==> cqi[i] == c
    requires |cqi| > 0 && IsWidebandCqi(wb, cqi)
    requires IsSubbandCqis(sb, cqi, rbgSize)
    ensures wb == c
    ensures forall b :: 0 <= b < |sb| ==> sb[b] == c
  {
    SumConstant(cqi, c);
    WidebandIsFloorMean(wb, cqi);
    DivUnique(c * |cqi|, c, 0, |cqi|);
    forall b | 0 <= b < |sb| ensures sb[b] == c {
      var block := cqi[b * rbgSize .. b * rbgSize + rbgSize];
      SumConstant(block, c);
      DivUnique(c * rbgSize, c, 0, rbgSize);
    }
  }

  // ------------------------------------------------------- periodic reports

  /** ns-3 time in its default unit, the nanosecond. */
  const MilliSecond: int := 1_000_000

  datatype CqiTimers = CqiTimers(p10Periodicity: int, p10Last: int, a30Periodicity: int, a30Last: int)

  /** The constructor's values: P10 every 160 ms, A30 every 1 ms, both last sent at time 0. */
  const InitialTimers: CqiTimers := CqiTimers(160 * MilliSecond, 0, MilliSecond, 0)

  predicate P10Due(st: CqiTimers, now: int)
  {
    now > st.p10Last + st.p10Periodicity
  }

  predicate A30Due(st: CqiTimers, now: int)
  {
    now > st.a30Last + st.a30Periodicity
  }

  /**
    The constructor's schedule: the first P10 report is due once more than
    160 ms have passed, the first A30 report once more than 1 ms has, so
    whenever P10 is first due A30 is due too.
  */
  lemma InitialSchedule(now: int)
    ensures P10Due(InitialTimers, now) <==> now > 160_000_000
    ensures A30Due(InitialTimers, now) <==> now > 1_000_000
    ensures P10Due(InitialTimers, now) ==> A30Due(InitialTimers, now)
  {
  }

  /** A DL CQI list element as the UE builds it. */
  datatype CqiReport =
    | P10Report(rnti: Uint16, wbCqi: int)
    | A30Report(rnti: Uint16, sbCqi: seq<int>)
    | EmptyReport

  /** What `CreateDlCqiFeedbackMessage` needs of the CQI vector in the branch it takes. */
  ghost predicate FeedbackFits(st: CqiTimers, now: int, cqi: seq<int>, rbgSize: int)
  {
    && (P10Due(st, now) ==> WidebandFits(cqi))
    && (!P10Due(st, now) && A30Due(st, now) ==> SubbandFits(cqi, rbgSize))
  }

  /**
    `CreateDlCqiFeedbackMessage`: a P10 wideband report when P10 is due,
    otherwise an A30 subband report when A30 is due, otherwise an element
    left at its defaults.
  */
  method CreateDlCqiFeedbackMessage(st: CqiTimers, now: int, rnti: Uint16, cqi: seq<int>, rbgSize: int)
    returns (report: CqiReport)
    requires FeedbackFits(st, now, cqi, rbgSize)
    ensures P10Due(st, now) <==> report.P10Report?
    ensures !P10Due(st, now) && A30Due(st, now) <==> report.A30Report?
    ensures report.P10Report? ==> report.rnti == rnti && IsWidebandCqi(report.wbCqi, cqi)
    ensures report.A30Report? ==> report.rnti == rnti && IsSubbandCqis(report.sbCqi, cqi, rbgSize)
  {
    if now > st.p10Last + st.p10Periodicity {
      var wb := WidebandCqi(cqi);
      report := P10Report(rnti, wb);
    } else if now > st.a30Last + st.a30Periodicity {
      var sb := SubbandCqis(cqi, rbgSize);
      report := A30Report(rnti, sb);
    } else {
      report := EmptyReport;
    }
  }

  /**
    `GenerateCqiFeedback`: sends a report and restarts the P10 timer when P10
    is due, then sends a report and restarts the A30 timer when A30 is due.
    The second report is built after the P10 timer has been restarted.
  */
  method GenerateCqiFeedback(st: CqiTimers, now: int, rnti: Uint16, cqi: seq<int>, rbgSize: int)
    returns (st': CqiTimers, sent: seq<CqiReport>)
    requires P10Due(st, now) ==> WidebandFits(cqi)
    requires A30Due(st, now) ==> SubbandFits(cqi, rbgSize)
    ensures st'.p10Periodicity == st.p10Periodicity && st'.a30Periodicity == st.a30Periodicity
    ensures st'.p10Last == (if P10Due(st, now) then now else st.p10Last)
    ensures st'.a30Last == (if A30Due(st, now) then now else st.a30Last)
    ensures |sent| == (if P10Due(st, now) then 1 else 0) + (if A30Due(st, now) then 1 else 0)
    ensures P10Due(st, now) ==> sent[0].P10Report? && IsWidebandCqi(sent[0].wbCqi, cqi)
    ensures forall k :: 0 <= k < |sent| ==> !sent[k].EmptyReport? && sent[k].rnti == rnti
    ensures (st.p10Periodicity >= 0 || !P10Due(st, now)) && A30Due(st, now) ==>
      sent[|sent| - 1].A30Report? && IsSubbandCqis(sent[|sent| - 1].sbCqi, cqi, rbgSize)
    ensures st.p10Periodicity < 0 && P10Due(st, now) && A30Due(st, now) ==> sent[1].P10Report?
    ensures st.p10Periodicity >= 0 && st.a30Periodicity >= 0 ==> !P10Due(st', now) && !A30Due(st', now)
    ensures P10Due(st, now) ==> forall t :: P10Due(st', t) <==> t > now + st.p10Periodicity
    ensures A30Due(st, now) ==> forall t :: A30Due(st', t) <==> t > now + st.a30Periodicity
  {
    st' := st;
    sent := [];
    if now > st'.p10Last + st'.p10Periodicity {
      var msg := CreateDlCqiFeedbackMessage(st', now, rnti, cqi, rbgSize);
      sent := sent + [msg];
      st' := st'.(p10Last := now);
    }
    if now > st'.a30Last + st'.a30Periodicity {
      var msg := CreateDlCqiFeedbackMessage(st', now, rnti, cqi, rbgSize);
      sent := sent + [msg];
      st' := st'.(a30Last := now);
    }
  }
}
