/** The two native searches (api/src/services/duskLeverageMaximumEngine.ts) over
    an opaque deterministic evaluator. */
module LeverageSearch {
  import opened Options

  const U64: nat := 0xFFFF_FFFF_FFFF_FFFF

  /** One simulation: a receipt, a capacity rejection, or any other failure. */
  datatype Reading = Accepted(collateral: nat, notional: nat) | Rejected(reason: string) | Failed

  function Pow2(k: nat): nat {
    if k == 0 then 1 else 2 * Pow2(k - 1)
  }

  // ----- the largest multiplier on the grid -----

  type Grid = nat -> Reading

  function At(read: Grid, g: nat): Reading { read(g * 100) }

  datatype Maximum = Found(multiplierBps: nat, candidates: nat) | Refused(reason: string) | Broken

  /** An accepted grid value that is the limit or whose successor is rejected. */
  predicate IsGridBoundary(read: Grid, limit: nat, g: nat) {
    && 101 <= g <= limit
    && At(read, g).Accepted?
    && (g == limit || At(read, g + 1).Rejected?)
  }

  ghost predicate GridNeverFails(read: Grid, limit: nat) {
    forall g :: 101 <= g <= limit ==> !At(read, g).Failed?
  }

  method SearchMaximum(read: Grid, maximumGrid: nat) returns (r: Maximum)
    requires 101 <= maximumGrid <= 10000
    ensures r.Found? ==> r.multiplierBps % 100 == 0 && IsGridBoundary(read, maximumGrid, r.multiplierBps / 100)
    ensures r.Found? ==> r.candidates <= 15
    ensures r.Refused? <==> At(read, 101).Rejected?
    ensures r.Refused? ==> At(read, 101) == Rejected(r.reason)
    ensures r.Broken? ==> !GridNeverFails(read, maximumGrid)
  {
    var low, high, candidates := 101, maximumGrid, 1;
    var first := read(low * 100);
    match first {
      case Rejected(reason) => return Refused(reason);
      case Failed =>
        assert At(read, 101).Failed?;
        return Broken;
      case Accepted(_, _) =>
    }
    assert Pow2(14) == 16384 by {
      assert Pow2(7) == 128;
    }
    ghost var k: nat := 14;
    while low < high
      invariant 101 <= low <= high <= maximumGrid
      invariant At(read, low).Accepted?
      invariant high == maximumGrid || At(read, high + 1).Rejected?
      invariant candidates + k <= 15 && high - low < Pow2(k)
    {
      var middle := (low + high + 1) / 2;
      var reading := read(middle * 100);
      candidates, k := candidates + 1, k - 1;
      match reading {
        case Accepted(_, _) => low := middle;
        case Rejected(_) => high := middle - 1;
        case Failed =>
          assert At(read, middle).Failed?;
          return Broken;
      }
    }
    return Found(low * 100, candidates);
  }

  ghost predicate GridRejectsUpward(read: Grid, limit: nat) {
    forall g, h :: 101 <= g < h <= limit && At(read, g).Rejected? ==> At(read, h).Rejected?
  }

  lemma {:induction false} AcceptedIsUnder(read: Grid, limit: nat, g: nat, h: nat)
    requires GridRejectsUpward(read, limit) && IsGridBoundary(read, limit, g)
    requires 101 <= h <= limit && At(read, h).Accepted?
    ensures h <= g
  {
    assert g < limit && g + 1 < h ==> At(read, h).Rejected?;
  }

  /** With rejections closed upward the boundary is the greatest accepted value,
      so it is unique and the search is exact. */
  lemma {:induction false} BoundaryIsMaximum(read: Grid, limit: nat, g: nat, h: nat)
    requires GridRejectsUpward(read, limit) && IsGridBoundary(read, limit, g)
    requires 101 <= h <= limit && At(read, h).Accepted?
    ensures h <= g
    ensures IsGridBoundary(read, limit, h) ==> h == g
  {
    AcceptedIsUnder(read, limit, g, h);
    if IsGridBoundary(read, limit, h) {
      AcceptedIsUnder(read, limit, h, g);
    }
  }

  // ----- the smallest margin reaching a size -----

  datatype Kind = Collateral | Notional

  type Margins = nat -> Reading

  function SizeOf(a: Reading, kind: Kind): nat
    requires a.Accepted?
  {
    if kind == Collateral then a.collateral else a.notional
  }

  predicate Reaches(read: Margins, kind: Kind, target: nat, m: nat) {
    read(m).Accepted? && SizeOf(read(m), kind) >= target
  }

  predicate FallsShort(read: Margins, kind: Kind, target: nat, m: nat) {
    read(m).Accepted? && SizeOf(read(m), kind) < target
  }

  /** Nothing, or a margin that evaluates below the target. */
  predicate Under(read: Margins, kind: Kind, target: nat, m: nat) {
    m == 0 || FallsShort(read, kind, target, m)
  }

  datatype Sizing =
    | Sized(margin: nat, size: nat, candidates: nat)
    | SizeRefused(reason: string)
    | SizeBroken
    | SizeUnavailable
    | DidNotConverge

  ghost predicate MarginsNeverFail(read: Margins) {
    forall m :: 0 < m <= U64 ==> !read(m).Failed?
  }

  /** The last rejection so far. */
  function Noted(reading: Reading, last: Option<string>): Option<string> {
    if reading.Rejected? then Some(reading.reason) else last
  }

  /** Doubling from the request's margin, capped at u64, then bisecting. */
  method SearchSize(read: Margins, kind: Kind, target: nat, marginAmount: nat) returns (r: Sizing)
    requires 0 < target <= U64 && 0 < marginAmount <= U64
    ensures r.Sized? ==> && 0 < r.margin <= U64
                         && Reaches(read, kind, target, r.margin) && read(r.margin).Accepted? && target <= r.size
                         && r.size == (if kind.Collateral? then read(r.margin).collateral else read(r.margin).notional)
                         && Under(read, kind, target, r.margin - 1)
                         && r.candidates <= 130
    ensures r.SizeRefused? ==>
              || (FallsShort(read, kind, target, U64) && r.reason == "InsufficientLiquidity")
              || exists m :: 0 < m <= U64 && read(m) == Rejected(r.reason) && Under(read, kind, target, m - 1)
    ensures r.SizeBroken? ==> !MarginsNeverFail(read)
    ensures !r.SizeUnavailable? && !r.DidNotConverge?
  {
    hide Pow2, MarginsNeverFail, Noted;
    var low: nat, high: nat, candidates, lastRejection := 0, marginAmount, 1, None;
    var reading := read(high);
    if reading.Failed? {
      FailsThere(read, high);
      return SizeBroken;
    }
    lastRejection := Noted(reading, lastRejection);
    U64IsUnderPow2();
    ghost var k: nat := 0;
    Pow2Next(0);
    while reading.Accepted? && SizeOf(reading, kind) < target && high < U64
      invariant low < high <= U64 && Under(read, kind, target, low)
      invariant reading == read(high) && !reading.Failed?
      invariant candidates == 1 + k && k <= 64 && (high < U64 ==> Pow2(k) <= high)
      decreases U64 - high
    {
      low := high;
      high := if high > U64 / 2 then U64 else high * 2;
      reading := read(high);
      candidates := candidates + 1;
      DoublingFits(k, low);
      Pow2Next(k);
      k := k + 1;
      if reading.Failed? {
        FailsThere(read, high);
        return SizeBroken;
      }
      lastRejection := Noted(reading, lastRejection);
    }
    if reading.Accepted? && SizeOf(reading, kind) < target {
      return SizeRefused("InsufficientLiquidity");
    }
    ghost var b: nat := 64;
    while high - low > 1
      invariant low < high <= U64 && Under(read, kind, target, low)
      invariant read(high).Rejected? || Reaches(read, kind, target, high)
      invariant candidates + b <= 129 && high - low <= Pow2(b)
    {
      var middle: nat := (low + high) / 2;
      var result := read(middle);
      Pow2Next(0);
      Pow2Next(b - 1);
      candidates, b := candidates + 1, b - 1;
      if result.Failed? {
        FailsThere(read, middle);
        return SizeBroken;
      }
      lastRejection := Noted(result, lastRejection);
      if result.Rejected? || SizeOf(result, kind) >= target {
        high := middle;
      } else {
        low := middle;
      }
    }
    reading := read(high);
    candidates := candidates + 1;
    RejectionIsNoted(reading, lastRejection);
    lastRejection := Noted(reading, lastRejection);
    match reading {
      case Rejected(_) =>
        r := if lastRejection.Some? then SizeRefused(lastRejection.value) else SizeUnavailable;
      case Failed => return SizeBroken;
      case Accepted(_, _) =>
        if SizeOf(reading, kind) < target {
          return DidNotConverge;
        }
        return Sized(high, SizeOf(reading, kind), candidates);
    }
  }

  lemma {:induction false} FailsThere(read: Margins, m: nat)
    requires 0 < m <= U64 && read(m).Failed?
    ensures !MarginsNeverFail(read)
  {
  }

  lemma {:induction false} RejectionIsNoted(reading: Reading, last: Option<string>)
    ensures reading.Rejected? ==> Noted(reading, last) == Some(reading.reason)
  {
  }

  lemma {:induction false} Pow2Next(k: nat)
    ensures Pow2(0) == 1 && Pow2(k + 1) == 2 * Pow2(k)
  {
  }

  lemma {:induction false} U64IsUnderPow2()
    ensures Pow2(64) == U64 + 1
  {
    assert Pow2(8) == 256;
    assert Pow2(16) == 65536;
    assert Pow2(24) == 0x100_0000;
    assert Pow2(32) == 0x1_0000_0000;
    assert Pow2(40) == 0x100_0000_0000;
    assert Pow2(48) == 0x1_0000_0000_0000;
    assert Pow2(56) == 0x100_0000_0000_0000;
  }

  lemma {:induction false} DoublingFits(k: nat, high: nat)
    requires k <= 64 && Pow2(k) <= high < U64
    ensures k < 64
  {
    U64IsUnderPow2();
  }

  ghost predicate Monotone(read: Margins, kind: Kind) {
    forall a, b :: 0 < a < b <= U64 && read(a).Accepted? && read(b).Accepted? ==>
      SizeOf(read(a), kind) <= SizeOf(read(b), kind)
  }

  ghost predicate RejectsUpward(read: Margins) {
    forall a, b :: 0 < a < b <= U64 && read(a).Rejected? ==> read(b).Rejected?
  }

  lemma {:induction false} ShortBelow(read: Margins, kind: Kind, target: nat, a: nat, b: nat)
    requires Monotone(read, kind) && 0 < a <= b <= U64 && FallsShort(read, kind, target, b)
    ensures !Reaches(read, kind, target, a)
  {
    if read(a).Accepted? && a < b {
      assert SizeOf(read(a), kind) <= SizeOf(read(b), kind);
    }
  }

  lemma {:induction false} RejectedAbove(read: Margins, a: nat, b: nat)
    requires RejectsUpward(read) && 0 < a <= b <= U64 && read(a).Rejected?
    ensures read(b).Rejected?
  {
  }

  /** For a monotone evaluator with upward-closed rejections a found margin is
      the least that reaches the target. */
  lemma {:induction false} BoundaryIsMinimum(read: Margins, kind: Kind, target: nat, m: nat, other: nat)
    requires Monotone(read, kind) && 0 < m <= U64 && 0 < other <= U64
    requires Reaches(read, kind, target, m) && Under(read, kind, target, m - 1)
    requires Reaches(read, kind, target, other)
    ensures m <= other
  {
    hide Monotone, Reaches, FallsShort;
    if other <= m - 1 {
      ShortBelow(read, kind, target, other, m - 1);
    }
  }

  /** ... and a refusal means that no margin at all reaches it. */
  lemma {:induction false} RefusalIsFinal(read: Margins, kind: Kind, target: nat, reason: string, other: nat)
    requires Monotone(read, kind) && RejectsUpward(read) && 0 < other <= U64
    requires || FallsShort(read, kind, target, U64)
             || exists m :: 0 < m <= U64 && read(m) == Rejected(reason) && Under(read, kind, target, m - 1)
    ensures !Reaches(read, kind, target, other)
  {
    hide Monotone, RejectsUpward, FallsShort;
    if FallsShort(read, kind, target, U64) {
      ShortBelow(read, kind, target, other, U64);
    } else {
      var m :| 0 < m <= U64 && read(m) == Rejected(reason) && Under(read, kind, target, m - 1);
      if m <= other {
        RejectedAbove(read, m, other);
      } else {
        ShortBelow(read, kind, target, other, m - 1);
      }
    }
  }
}
