/** Planning a replay: how many windows it evaluates, and at what step.

    Every operation is done in 64-bit registers that wrap, so that "nothing overflows" is
    something to prove. */
module Backfill {
  import opened Machine

  type Time = int

  /** The whole steps in a span, and never fewer than one window. */
  function ReplayWindows(span: int64, step: int64): (n: int64)
    ensures 1 <= n
  {
    if step <= 0 then 1
    else
      var n := Quotient(span, step);
      if n < 1 then 1 else QuotientFits(span, step); n
  }

  lemma QuotientFits(a: int64, b: int64)
    requires b > 0 && Quotient(a, b) >= 1
    ensures a > 0 && Quotient(a, b) == Div(a, b) <= a && Div(a, b) * b <= a
  {
    hide Div;
    if a == 0 {
      DivExactly(a, b, 1);
    }
    var q := Div(a, b);
    DivExactly(a, b, q);
    assert q * b >= q;
  }

  /** So many windows fit if so many steps do, and one always does. */
  lemma WindowsExactly(span: int64, step: int64, k: nat)
    requires k >= 1
    ensures k <= ReplayWindows(span, step) <==> k == 1 || (step > 0 && k * step <= span)
  {
    hide Div;
    if step > 0 && k > 1 {
      assert k * step > 0;
      if span >= 0 {
        DivExactly(span, step, k);
      }
    }
  }

  function WindowCount(n: int64): uint64 {
    if n < 0 then 0 else n
  }

  /** The most windows whose rows stay within the ceiling, or one if not even that does. */
  function Allowed(perWindow: uint64, ceiling: uint64): nat
    requires perWindow > 0
  {
    if Div(ceiling, perWindow) < 1 then 1 else Div(ceiling, perWindow)
  }

  /** So many are afforded if their rows are within the ceiling, and one always is. */
  lemma AllowedExactly(perWindow: uint64, ceiling: uint64, k: nat)
    requires perWindow > 0 && k >= 1
    ensures k <= Allowed(perWindow, ceiling) <==> k == 1 || k * perWindow <= ceiling
  {
    hide Div;
    DivExactly(ceiling, perWindow, k);
    DivExactly(ceiling, perWindow, 1);
  }

  /** How many of the old steps make one new step. */
  function Multiple(windows: uint64, allowed: nat): nat
    requires allowed > 0
  {
    Div(WrapUnsigned(WrapUnsigned(windows + allowed) - 1), allowed)
  }

  /** The step the replay runs at, and whether it had to be raised. */
  function StepWithinCeiling(span: int64, step: int64, perWindow: uint64, ceiling: uint64): (int64, bool) {
    var windows := WindowCount(ReplayWindows(span, step));
    if ceiling == 0 || perWindow == 0 then (step, false)
    else if perWindow <= Div(ceiling, windows) then (step, false)
    else
      var multiple := Multiple(windows, Allowed(perWindow, ceiling));
      if multiple > MAX_INT32 then (span, true) else (WrapSigned(step * multiple), true)
  }

  function SaturatingMul(a: uint64, b: uint64): uint64 {
    if a == 0 || b == 0 then 0
    else if a > Div(MAX_UINT64, b) then MAX_UINT64
    else WrapUnsigned(a * b)
  }

  function Min(a: int, b: int): int {
    if a < b then a else b
  }

  function Max(a: int, b: int): int {
    if a < b then b else a
  }

  /** The product that does not wrap, capped. */
  lemma SaturatingMulExactly(a: uint64, b: uint64)
    ensures SaturatingMul(a, b) == Min(a * b, MAX_UINT64)
  {
    hide Div, WrapUnsigned;
    if a != 0 && b != 0 {
      DivExactly(MAX_UINT64, b, a);
      assert a * b > 0;
      if a * b <= MAX_UINT64 {
        UnsignedFits(a * b);
      }
    }
  }

  /** The ceiling is not met at the step asked for. */
  predicate OverCeiling(windows: int, perWindow: int, ceiling: int) {
    ceiling != 0 && perWindow != 0 && windows * perWindow > ceiling
  }

  /** Over the ceiling it affords fewer windows than there are, or none and is given one. */
  lemma AllowedBelow(windows: uint64, perWindow: uint64, ceiling: uint64)
    requires windows >= 1 && OverCeiling(windows, perWindow, ceiling)
    ensures 1 <= Allowed(perWindow, ceiling) <= windows
    ensures Allowed(perWindow, ceiling) * perWindow <= Max(ceiling, perWindow)
    ensures (Allowed(perWindow, ceiling) + 1) * perWindow > Max(ceiling, perWindow)
  {
    hide Div;
    DivExactly(ceiling, perWindow, windows);
    var allowed := Allowed(perWindow, ceiling);
    DivExactly(ceiling, perWindow, allowed);
    DivExactly(ceiling, perWindow, allowed + 1);
    assert (allowed + 1) * perWindow == allowed * perWindow + perWindow;
    assert allowed * perWindow > 0;
  }

  /** The multiple is the smallest that `allowed` of them cover every window. */
  lemma MultipleIsCeiling(windows: uint64, allowed: nat)
    requires 1 <= allowed <= windows <= MAX_INT64
    ensures 1 <= Multiple(windows, allowed) <= windows
    ensures (Multiple(windows, allowed) - 1) * allowed < windows <= Multiple(windows, allowed) * allowed
  {
    hide Div, WrapUnsigned;
    UnsignedFits(windows + allowed);
    UnsignedFits(windows + allowed - 1);
    var top := windows + allowed - 1;
    var m := Multiple(windows, allowed);
    assert m == Div(top, allowed);
    hide Multiple;
    DivExactly(top, allowed, m);
    DivExactly(top, allowed, m + 1);
    DivExactly(top, allowed, 1);
    Distribute(m, 1, allowed);
    Distribute(m, -1, allowed);
    KeepsOrder(1, allowed, m - 1);
  }

  /** Merging `k` steps into one leaves a k-th of the windows, rounded down, or one. */
  lemma WindowsOfMultiple(span: int64, step: int64, k: nat)
    requires step > 0 && 1 <= k && step * k <= MAX_INT64
    ensures ReplayWindows(span, step * k) == Max(1, Div(ReplayWindows(span, step), k))
  {
    hide Div;
    assert step * k > 0;
    DivExactly(1, k, 2);
    if span >= 0 {
      DivTwice(span, step, k);
      DivExactly(Div(span, step), k, 1);
    }
  }

  /** `step` merged `m` times, or the whole range where `m` is too large. Nothing wraps. */
  predicate RaisedBy(span: int64, step: int64, windows: int, allowed: int, result: int64, m: nat) {
    && 1 <= m <= windows
    && (m - 1) * allowed < windows <= m * allowed
    && result == if m > MAX_INT32 then span else step * m
  }

  /** The step, exactly: left alone when it fits, and otherwise the smallest multiple of it
      of which as many as are allowed cover the range. */
  lemma StepExactly(span: int64, step: int64, perWindow: uint64, ceiling: uint64) returns (m: nat)
    ensures var (s, sampled) := StepWithinCeiling(span, step, perWindow, ceiling);
            var windows := ReplayWindows(span, step);
            && (sampled <==> OverCeiling(windows, perWindow, ceiling))
            && (!sampled ==> s == step)
            && (sampled ==> RaisedBy(span, step, windows, Allowed(perWindow, ceiling), s, m))
  {
    hide Div, ReplayWindows, WrapSigned, Multiple;
    var windows := ReplayWindows(span, step);
    DivExactly(ceiling, windows, perWindow);
    assert windows * perWindow == perWindow * windows;
    m := 0;
    if OverCeiling(windows, perWindow, ceiling) {
      var allowed := Allowed(perWindow, ceiling);
      AllowedBelow(windows, perWindow, ceiling);
      MultipleIsCeiling(windows, allowed);
      m := Multiple(windows, allowed);
      MergedFits(span, step, m);
      SignedFits(step * m);
      hide Allowed;
    }
  }

  /** Merging no more steps than the range holds stays inside the range, or merges nothing. */
  lemma MergedFits(span: int64, step: int64, m: nat)
    requires 1 <= m <= ReplayWindows(span, step)
    ensures MIN_INT64 <= step * m <= MAX_INT64
    ensures m > 1 ==> step > 0 && step * m <= span
  {
    hide Div;
    if m > 1 {
      QuotientFits(span, step);
      assert step * m <= step * Div(span, step);
    } else {
      assert step * m == step;
    }
  }

  /** The whole replay fits the ceiling, or is the one window that is over it alone. */
  lemma ReplayFitsCeiling(span: int64, step: int64, perWindow: uint64, ceiling: uint64)
    requires ceiling != 0
    ensures ReplayWindows(span, StepWithinCeiling(span, step, perWindow, ceiling).0) * perWindow <= Max(ceiling, perWindow)
  {
    hide Div, ReplayWindows, StepWithinCeiling, Allowed;
    var m := StepExactly(span, step, perWindow, ceiling);
    var windows := ReplayWindows(span, step);
    var s := StepWithinCeiling(span, step, perWindow, ceiling).0;
    if OverCeiling(windows, perWindow, ceiling) {
      var allowed := Allowed(perWindow, ceiling);
      AllowedBelow(windows, perWindow, ceiling);
      RaisedWindows(span, step, windows, allowed, s, m);
      assert ReplayWindows(span, s) * perWindow <= allowed * perWindow;
    } else if perWindow == 0 {
      assert ReplayWindows(span, s) * perWindow == 0;
    }
  }

  lemma RaisedWindows(span: int64, step: int64, windows: int64, allowed: nat, s: int64, m: nat)
    requires windows == ReplayWindows(span, step) && 1 <= allowed
    requires RaisedBy(span, step, windows, allowed, s, m)
    ensures ReplayWindows(span, s) <= allowed
    ensures step > 0 && span > 0 ==> s > 0
  {
    hide Div;
    MergedFits(span, step, m);
    if m > MAX_INT32 {
      DivExactly(span, span, 2);
    } else if m == 1 {
      assert s == step;
    } else {
      WindowsOfMultiple(span, step, m);
      DivExactly(windows, m, allowed + 1);
      assert (allowed + 1) * m == m * allowed + m;
      assert step * m > 0;
    }
  }

  /** A step of `k` old steps keeps the replay within the ceiling. */
  predicate Fits(span: int64, step: int64, perWindow: uint64, ceiling: uint64, k: nat)
    requires step > 0 && 1 <= k && step * k <= MAX_INT64
  {
    ReplayWindows(span, step * k) * perWindow <= Max(ceiling, perWindow)
  }

  lemma FitsExactly(span: int64, step: int64, perWindow: uint64, ceiling: uint64, k: nat)
    requires step > 0 && 1 <= k && step * k <= MAX_INT64
    requires OverCeiling(ReplayWindows(span, step), perWindow, ceiling)
    ensures Fits(span, step, perWindow, ceiling, k)
       <==> k > Div(ReplayWindows(span, step), Allowed(perWindow, ceiling) + 1)
  {
    hide Div, ReplayWindows, Allowed;
    var windows := ReplayWindows(span, step);
    var allowed := Allowed(perWindow, ceiling);
    AllowedBelow(windows, perWindow, ceiling);
    WindowsOfMultiple(span, step, k);
    var n := ReplayWindows(span, step * k);
    FitsIfAllowed(n, allowed, perWindow, Max(ceiling, perWindow));
    DivExactly(windows, k, allowed + 1);
    DivExactly(windows, allowed + 1, k);
    assert (allowed + 1) * k == k * (allowed + 1);
  }

  lemma FitsIfAllowed(n: nat, allowed: nat, perWindow: nat, most: nat)
    requires allowed * perWindow <= most < (allowed + 1) * perWindow
    ensures n * perWindow <= most <==> n <= allowed
  {
    if n <= allowed {
      KeepsOrder(n, allowed, perWindow);
    } else {
      KeepsOrder(allowed + 1, n, perWindow);
    }
  }

  /** No smaller multiple of the step would have fitted. */
  ghost predicate Smallest(span: int64, step: int64, perWindow: uint64, ceiling: uint64, m: nat)
    requires step > 0
  {
    forall k: nat :: 1 <= k < m && step * k <= MAX_INT64 ==> !Fits(span, step, perWindow, ceiling, k)
  }

  /** The multiple chosen is the least that fits exactly when these two quotients agree. */
  lemma SmallestExactly(span: int64, step: int64, perWindow: uint64, ceiling: uint64)
    requires step > 0 && OverCeiling(ReplayWindows(span, step), perWindow, ceiling)
    ensures var windows := ReplayWindows(span, step);
            var allowed := Allowed(perWindow, ceiling);
            && 1 <= Multiple(windows, allowed)
            && (Smallest(span, step, perWindow, ceiling, Multiple(windows, allowed))
                <==> Div(windows - 1, allowed) == Div(windows, allowed + 1))
  {
    var windows := ReplayWindows(span, step);
    var allowed := Allowed(perWindow, ceiling);
    AllowedBelow(windows, perWindow, ceiling);
    MultipleIsCeiling(windows, allowed);
    var m := Multiple(windows, allowed);
    MergedFits(span, step, m);
    hide Div, ReplayWindows, Allowed, OverCeiling, Multiple, Fits;
    PreviousMultiple(windows, allowed, m);
    var least := Div(windows, allowed + 1) + 1;
    forall k: nat | 1 <= k <= m
      ensures step * k <= MAX_INT64 && (Fits(span, step, perWindow, ceiling, k) <==> k >= least) {
      KeepsOrder(k, m, step);
      FitsExactly(span, step, perWindow, ceiling, k);
    }
    if least < m {
      assert Fits(span, step, perWindow, ceiling, least);
    }
  }

  lemma PreviousMultiple(windows: nat, allowed: nat, m: nat)
    requires 1 <= allowed && 1 <= m && 1 <= windows && (m - 1) * allowed < windows <= m * allowed
    ensures Div(windows - 1, allowed) == m - 1
    ensures Div(windows, allowed + 1) < m
  {
    hide Div;
    DivExactly(windows - 1, allowed, m - 1);
    DivExactly(windows - 1, allowed, m);
    DivExactly(windows, allowed + 1, m);
    Distribute(allowed, 1, m);
  }

  /** Five windows of which two are affordable run as one, although two steps in one would fit. */
  lemma NotTheSmallest()
    ensures StepWithinCeiling(5, 1, 1, 2) == (3, true)
    ensures Fits(5, 1, 1, 2, 2)
  {
    assert Multiple(5, 2) == 3;
  }

  ghost predicate IsInstants(out: seq<Time>, now: Time, step: int, windows: int) {
    && |out| == windows
    && forall k :: 0 <= k < windows ==> out[k] == now - (windows - 1 - k) * step
  }

  /** The instants a replay evaluates, oldest first. */
  method ReplayInstants(now: Time, step: int64, windows: int64, ghost span: int64) returns (out: seq<Time>)
    requires windows == ReplayWindows(span, step)
    ensures IsInstants(out, now, step, windows)
  {
    out := [];
    var i := windows - 1;
    while i >= 0
      invariant -1 <= i < windows
      invariant |out| == windows - 1 - i
      invariant forall k :: 0 <= k < |out| ==> out[k] == now - (windows - 1 - k) * step
    {
      BehindFits(span, step, i);
      out := out + [now + WrapSigned(WrapSigned(0 - i) * step)];
      i := i - 1;
    }
  }

  /** An instant is never further behind than the range is long. */
  lemma BehindFits(span: int64, step: int64, i: nat)
    requires i < ReplayWindows(span, step)
    ensures (0 - i) * step == WrapSigned(WrapSigned(0 - i) * step) == 0 - i * step
    ensures i > 0 ==> step > 0 && 0 < i * step && i * step + step <= span
  {
    hide WrapSigned;
    if i > 0 {
      MergedFits(span, step, i + 1);
      assert step * (i + 1) == i * step + step;
      assert i * step > 0;
    }
    hide ReplayWindows;
    assert (0 - i) * step == 0 - i * step;
    SignedFits(0 - i);
    SignedFits(0 - i * step);
  }

  /** What a replay runs: instants in order, the last one now, none before the range began. */
  lemma InstantsCoverTheRange(out: seq<Time>, now: Time, span: int64, step: int64)
    requires step > 0 && IsInstants(out, now, step, ReplayWindows(span, step))
    ensures out[|out| - 1] == now
    ensures Increasing(out)
    ensures now - out[0] + step == |out| * step
    ensures |out| > 1 ==> now - out[0] + step <= span
  {
    var n := |out|;
    BehindFits(span, step, n - 1);
    hide ReplayWindows;
    forall i, j | 0 <= i < j < n ensures out[i] < out[j] {
      Distribute(n - 1 - j, j - i, step);
      KeepsOrder(1, j - i, step);
    }
    Distribute(n, -1, step);
  }

  ghost predicate Increasing(times: seq<Time>) {
    forall i, j :: 0 <= i < j < |times| ==> times[i] < times[j]
  }

  datatype Plan = Plan(step: int64, asked: int64, windows: int64, sampled: bool, rowsPredicted: uint64, instants: seq<Time>)

  datatype Planned = Refused | Run(plan: Plan)

  /** Everything a replay settles before it evaluates anything. */
  method PlanReplay(now: Time, span: int64, step: int64, perWindow: uint64, ceiling: uint64) returns (r: Planned)
    ensures r.Refused? <==> span <= 0 || step <= 0
    ensures r.Run? ==> r.plan.asked == ReplayWindows(span, step)
    ensures r.Run? ==> r.plan.sampled == OverCeiling(r.plan.asked, perWindow, ceiling)
    ensures r.Run? ==> 0 < r.plan.step && r.plan.windows == ReplayWindows(span, r.plan.step) <= r.plan.asked
    ensures r.Run? && !r.plan.sampled ==> r.plan.step == step
    ensures r.Run? && r.plan.sampled ==>
      exists m: nat :: RaisedBy(span, step, r.plan.asked, Allowed(perWindow, ceiling), r.plan.step, m)
    ensures r.Run? ==> IsInstants(r.plan.instants, now, r.plan.step, r.plan.windows)
    ensures r.Run? && ceiling != 0 ==> r.plan.rowsPredicted == perWindow * r.plan.windows <= Max(ceiling, perWindow)
    ensures r.Run? && ceiling == 0 ==> r.plan.rowsPredicted == Min(perWindow * r.plan.asked, MAX_UINT64)
  {
    if span <= 0 || step <= 0 {
      return Refused;
    }
    hide Div, ReplayWindows, StepWithinCeiling, SaturatingMul, OverCeiling, RaisedBy, Allowed;
    var asked := ReplayWindows(span, step);
    var raised := StepWithinCeiling(span, step, perWindow, ceiling);
    var windows := ReplayWindows(span, raised.0);
    var instants := ReplayInstants(now, raised.0, windows, span);
    ghost var m := FewerWindows(span, step, perWindow, ceiling);
    if ceiling != 0 {
      ReplayFitsCeiling(span, step, perWindow, ceiling);
      assert windows * perWindow == perWindow * windows;
    }
    SaturatingMulExactly(perWindow, WindowCount(windows));
    hide IsInstants;
    r := Run(Plan(raised.0, asked, windows, raised.1, SaturatingMul(perWindow, WindowCount(windows)), instants));
  }

  lemma FewerWindows(span: int64, step: int64, perWindow: uint64, ceiling: uint64) returns (m: nat)
    requires span > 0 && step > 0
    ensures var (s, sampled) := StepWithinCeiling(span, step, perWindow, ceiling);
            && (sampled <==> OverCeiling(ReplayWindows(span, step), perWindow, ceiling))
            && (!sampled ==> s == step)
            && (ceiling == 0 ==> !sampled)
            && (sampled ==> perWindow > 0 && RaisedBy(span, step, ReplayWindows(span, step), Allowed(perWindow, ceiling), s, m))
            && 0 < s && ReplayWindows(span, s) <= ReplayWindows(span, step)
  {
    m := StepExactly(span, step, perWindow, ceiling);
    hide Div, ReplayWindows, StepWithinCeiling;
    var windows := ReplayWindows(span, step);
    var s := StepWithinCeiling(span, step, perWindow, ceiling).0;
    if OverCeiling(windows, perWindow, ceiling) {
      AllowedBelow(windows, perWindow, ceiling);
      RaisedWindows(span, step, windows, Allowed(perWindow, ceiling), s, m);
    }
  }
}
