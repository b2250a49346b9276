/**
 * The hill climb get_best_access_rates.  Its step sizes are percentages of the key count rounded
 * down, and its comparisons go through single precision, so both are parameters: any step sizes in
 * ascending order, any rounding that keeps order.
 */
module HillClimb {
  import opened Common
  import opened Cdf
  import opened Watermark

  datatype Split = Split(local: nat, remote: nat, performance: nat)

  /** The score of the split that gives `local` keys to every cache; `perf` is calculate_performance. */
  function ScoreAt(cacheSize: nat, perf: (nat, nat) -> nat, local: nat): (r: nat)
    requires 3 * local <= cacheSize
  {
    perf(local, cacheSize - 3 * local)
  }

  /** Scores are uint64_t values. */
  ghost predicate Bounded(perf: (nat, nat) -> nat) {
    forall local: nat, remote: nat :: perf(local, remote) < U64
  }

  ghost predicate Monotone(fl: nat -> nat) {
    forall a: nat, b: nat :: a <= b ==> fl(a) <= fl(b)
  }

  /** A split on the budget line, with the score the program computed for it. */
  ghost predicate OnBudget(cacheSize: nat, perf: (nat, nat) -> nat, s: Split)
  {
    s.remote + 3 * s.local == cacheSize && s.performance == ScoreAt(cacheSize, perf, s.local)
  }

  /** The sizes involved fit in a C++ int, as the program's int variables demand. */
  ghost predicate IntsFit(cacheSize: nat, step: nat) {
    3 * (cacheSize + 2 * step) < 0x8000_0000
  }

  /** A local watermark the climb is willing to score. */
  predicate Candidate(cacheSize: nat, local: int) {
    0 < local && 3 * local <= cacheSize
  }

  /** The candidate beats s after rounding. */
  ghost predicate Beats(cacheSize: nat, perf: (nat, nat) -> nat, fl: nat -> nat, local: nat, s: Split)
    requires Candidate(cacheSize, local)
  {
    fl(ScoreAt(cacheSize, perf, local)) > fl(s.performance)
  }

  /** No growing step the climb would score beats s. */
  ghost predicate NoStepUp(cacheSize: nat, perf: (nat, nat) -> nat, fl: nat -> nat, steps: seq<nat>, s: Split)
    requires |steps| == 3
  {
    forall i :: 0 <= i < 3 && (forall j :: 0 <= j <= i ==> Candidate(cacheSize, s.local + steps[j])) ==>
      !Beats(cacheSize, perf, fl, s.local + steps[i], s)
  }

  /** The first shrinking step does not beat s. */
  ghost predicate NoStepDown(cacheSize: nat, perf: (nat, nat) -> nat, fl: nat -> nat, step: nat, s: Split)
  {
    Candidate(cacheSize, s.local - step) ==> !Beats(cacheSize, perf, fl, s.local - step, s)
  }

  /** The k-th watermark of a scan that starts at `from` and moves by `step`. */
  function At(from: int, step: int, k: int): (r: int) { from + k * step }

  lemma AtNext(from: int, step: int, k: int)
    ensures At(from, step, 0) == from && At(from, step, k + 1) == At(from, step, k) + step
  {
  }

  /**
   * A scan has tried its first n watermarks: each lay on the budget line, none beats the best found, and
   * the best is one of them, strictly better than the start, or the start itself.
   */
  ghost predicate Scanned(cacheSize: nat, perf: (nat, nat) -> nat, fl: nat -> nat, from: int, step: int, n: nat,
                          start: Split, best: Split)
  {
    && OnBudget(cacheSize, perf, best)
    && (forall k {:trigger At(from, step, k)} :: 1 <= k <= n ==>
          Candidate(cacheSize, At(from, step, k))
          && fl(ScoreAt(cacheSize, perf, At(from, step, k))) <= fl(best.performance))
    && (best == start ||
        (fl(best.performance) > fl(start.performance)
         && exists k {:trigger At(from, step, k)} :: 1 <= k <= n && best.local == At(from, step, k)))
  }

  /** The scan had reason to stop: the budget is used up, or the last watermark tried scored lower. */
  ghost predicate ScanOver(cacheSize: nat, perf: (nat, nat) -> nat, fl: nat -> nat, from: int, step: int, n: nat,
                           best: Split)
  {
    || !Candidate(cacheSize, At(from, step, n + 1))
    || (n >= 1 && Candidate(cacheSize, At(from, step, n))
        && fl(ScoreAt(cacheSize, perf, At(from, step, n))) < fl(best.performance))
  }

  /** A scan from start to its end. */
  ghost predicate FinishedScan(cacheSize: nat, perf: (nat, nat) -> nat, fl: nat -> nat, from: int, step: int,
                               start: Split, best: Split)
  {
    exists n: nat :: Scanned(cacheSize, perf, fl, from, step, n, start, best)
                     && ScanOver(cacheSize, perf, fl, from, step, n, best)
  }

  /** Trying one more watermark extends a scan. */
  lemma ScanStep(cacheSize: nat, perf: (nat, nat) -> nat, fl: nat -> nat, from: int, step: int, n: nat,
                 start: Split, best: Split, tried: int, next: Split)
    requires Scanned(cacheSize, perf, fl, from, step, n, start, best)
    requires fl(best.performance) >= fl(start.performance)
    requires tried == At(from, step, n + 1) && Candidate(cacheSize, tried) && OnBudget(cacheSize, perf, next)
    requires if Beats(cacheSize, perf, fl, tried, best) then next.local == tried else next == best
    ensures Scanned(cacheSize, perf, fl, from, step, n + 1, start, next)
    ensures fl(next.performance) >= fl(start.performance)
  {
    hide At;
  }

  /** One, two and three hundredths of a percent of the keys, rounded down. */
  ghost predicate GoodSteps(cacheSize: nat, steps: seq<nat>) {
    |steps| == 3 && steps[0] <= steps[1] <= steps[2] && IntsFit(cacheSize, steps[2])
  }

  /** The better, after rounding, of s and the split at a watermark on the budget line. */
  function Better(cacheSize: nat, perf: (nat, nat) -> nat, fl: nat -> nat, local: int, s: Split): (r: Split)
    requires Candidate(cacheSize, local)
  {
    var performance := ScoreAt(cacheSize, perf, local);
    if fl(performance) > fl(s.performance) then Split(local, cacheSize - 3 * local, performance) else s
  }

  /** What a round of growing steps makes of a split, from step i on. */
  function Grow(cacheSize: nat, perf: (nat, nat) -> nat, fl: nat -> nat, steps: seq<nat>, s: Split, i: nat): (r: Split)
    requires |steps| == 3
    decreases 3 - i
  {
    if i >= 3 || !Candidate(cacheSize, s.local + steps[i]) then s
    else Grow(cacheSize, perf, fl, steps, Better(cacheSize, perf, fl, s.local + steps[i], s), i + 1)
  }

  lemma GrowStep(cacheSize: nat, perf: (nat, nat) -> nat, fl: nat -> nat, steps: seq<nat>, s: Split, i: nat)
    requires |steps| == 3
    ensures Grow(cacheSize, perf, fl, steps, s, i) ==
              if i >= 3 || !Candidate(cacheSize, s.local + steps[i]) then s
              else Grow(cacheSize, perf, fl, steps, Better(cacheSize, perf, fl, s.local + steps[i], s), i + 1)
  {
    hide Better, Candidate;
  }

  lemma {:induction false} GrowKeeps(cacheSize: nat, perf: (nat, nat) -> nat, fl: nat -> nat, steps: seq<nat>,
                                     s: Split, i: nat)
    requires |steps| == 3 && OnBudget(cacheSize, perf, s)
    ensures var g := Grow(cacheSize, perf, fl, steps, s, i);
            OnBudget(cacheSize, perf, g) && g.local >= s.local && (g == s || fl(g.performance) > fl(s.performance))
    decreases 3 - i
  {
    if i < 3 && Candidate(cacheSize, s.local + steps[i]) {
      GrowKeeps(cacheSize, perf, fl, steps, Better(cacheSize, perf, fl, s.local + steps[i], s), i + 1);
    }
  }

  /** A round that comes back where it started has seen no step up that beats the start. */
  lemma {:induction false} IdleRound(cacheSize: nat, perf: (nat, nat) -> nat, fl: nat -> nat, steps: seq<nat>,
                                     s: Split, i: nat)
    requires |steps| == 3 && OnBudget(cacheSize, perf, s) && Grow(cacheSize, perf, fl, steps, s, i) == s
    ensures forall k :: i <= k < 3 && (forall j :: i <= j <= k ==> Candidate(cacheSize, s.local + steps[j])) ==>
              !Beats(cacheSize, perf, fl, s.local + steps[k], s)
    decreases 3 - i
  {
    if i < 3 && Candidate(cacheSize, s.local + steps[i]) {
      var next := Better(cacheSize, perf, fl, s.local + steps[i], s);
      GrowKeeps(cacheSize, perf, fl, steps, next, i + 1);
      IdleRound(cacheSize, perf, fl, steps, s, i + 1);
    }
  }

  lemma NoStepUpFrom(cacheSize: nat, perf: (nat, nat) -> nat, fl: nat -> nat, steps: seq<nat>, s: Split)
    requires |steps| == 3 && OnBudget(cacheSize, perf, s) && Grow(cacheSize, perf, fl, steps, s, 0) == s
    ensures NoStepUp(cacheSize, perf, fl, steps, s)
  {
    IdleRound(cacheSize, perf, fl, steps, s, 0);
  }

  /** One round of up to three growing steps. */
  method TryIncreasing(cacheSize: nat, perf: (nat, nat) -> nat, fl: nat -> nat, steps: seq<nat>, start: Split)
    returns (best: Split, improved: bool)
    requires Monotone(fl) && OnBudget(cacheSize, perf, start)
    requires GoodSteps(cacheSize, steps)
    ensures OnBudget(cacheSize, perf, best)
    ensures if improved then fl(best.performance) > fl(start.performance) && best.local > start.local else best == start
    ensures !improved ==> NoStepUp(cacheSize, perf, fl, steps, start)
    ensures best == Grow(cacheSize, perf, fl, steps, start, 0)
  {
    hide Grow, Monotone, NoStepUp;
    best, improved := start, false;
    var i := 0;
    while i < 3
      invariant 0 <= i <= 3
      invariant OnBudget(cacheSize, perf, best)
      invariant Grow(cacheSize, perf, fl, steps, start, 0) == Grow(cacheSize, perf, fl, steps, best, i)
      invariant if improved then fl(best.performance) > fl(start.performance) else best == start
    {
      GrowStep(cacheSize, perf, fl, steps, best, i);
      var newLocal := best.local + steps[i];
      var newRemote := cacheSize - 3 * newLocal;
      if newRemote < 0 || newLocal > cacheSize / 3 || newRemote >= cacheSize {
        break;
      }
      var newPerformance := perf(newLocal, newRemote);
      if fl(newPerformance) > fl(best.performance) {
        best, improved := Split(newLocal, newRemote, newPerformance), true;
      }
      i := i + 1;
    }
    GrowStep(cacheSize, perf, fl, steps, best, 3);
    GrowKeeps(cacheSize, perf, fl, steps, start, 0);
    if !improved { NoStepUpFrom(cacheSize, perf, fl, steps, start); }
  }

  /** The state of a shrinking pass: best split so far, the watermark last tried, and how it stands. */
  datatype Descent = Descent(best: Split, at: int, reduced: bool, improved: bool, stopped: bool)

  predicate Descending(d: Descent) { d.at > 0 && !d.reduced && !d.stopped }

  /** One iteration of the shrinking pass. */
  function Descend(cacheSize: nat, perf: (nat, nat) -> nat, fl: nat -> nat, step: nat, d: Descent): (e: Descent)
    requires 3 * d.at <= cacheSize
    ensures e.at == d.at - step
  {
    var newLocal := d.at - step;
    var newRemote := cacheSize - 3 * newLocal;
    if newLocal < 0 || newRemote >= cacheSize then d.(at := newLocal, stopped := true)
    else
      var newPerformance := perf(newLocal, newRemote);
      if fl(newPerformance) > fl(d.best.performance) then
        d.(at := newLocal, best := Split(newLocal, newRemote, newPerformance), improved := true)
      else
        d.(at := newLocal, reduced := fl(newPerformance) < fl(d.best.performance))
  }

  /** What the shrinking pass has done after n watermarks. */
  ghost predicate DescentInv(cacheSize: nat, perf: (nat, nat) -> nat, fl: nat -> nat, down: int, start: Split,
                             d: Descent, n: nat)
  {
    && 3 * d.at <= cacheSize && OnBudget(cacheSize, perf, d.best)
    && (if d.improved then fl(d.best.performance) > fl(start.performance) else d.best == start)
    && Scanned(cacheSize, perf, fl, start.local, down, n, start, d.best)
    && (!d.stopped ==> d.at == At(start.local, down, n))
    && (d.stopped || d.reduced ==> ScanOver(cacheSize, perf, fl, start.local, down, n, d.best))
  }

  lemma DescentStep(cacheSize: nat, perf: (nat, nat) -> nat, fl: nat -> nat, step: nat, down: int, start: Split,
                    d: Descent, n: nat)
    requires step >= 1 && down + step == 0
    requires DescentInv(cacheSize, perf, fl, down, start, d, n) && Descending(d)
    ensures var e := Descend(cacheSize, perf, fl, step, d);
            DescentInv(cacheSize, perf, fl, down, start, e, if e.stopped then n else n + 1)
  {
    hide Scanned, ScanOver, At;
    AtNext(start.local, down, n);
    var e := Descend(cacheSize, perf, fl, step, d);
    if e.stopped {
      ScanEnds(cacheSize, perf, fl, start.local, down, n, d.best);
    } else {
      ScanStep(cacheSize, perf, fl, start.local, down, n, start, d.best, e.at, e.best);
      if e.reduced {
        ScanDropped(cacheSize, perf, fl, start.local, down, n + 1, e.best);
      }
    }
  }

  lemma DescentOver(cacheSize: nat, perf: (nat, nat) -> nat, fl: nat -> nat, down: int, start: Split, d: Descent,
                    n: nat)
    requires down <= 0 && DescentInv(cacheSize, perf, fl, down, start, d, n) && !Descending(d)
    ensures Scanned(cacheSize, perf, fl, start.local, down, n, start, d.best)
    ensures ScanOver(cacheSize, perf, fl, start.local, down, n, d.best)
  {
    hide Scanned, ScanOver, At;
    AtNext(start.local, down, n);
    if !d.stopped && !d.reduced {
      ScanEnds(cacheSize, perf, fl, start.local, down, n, d.best);
    }
  }

  /** Shrinking steps until the score drops or the watermark runs out. */
  method TryDecreasing(cacheSize: nat, perf: (nat, nat) -> nat, fl: nat -> nat, step: nat, start: Split)
    returns (best: Split, improved: bool)
    requires Monotone(fl) && OnBudget(cacheSize, perf, start)
    requires (step >= 1 || start.local == 0) && IntsFit(cacheSize, step)
    ensures OnBudget(cacheSize, perf, best)
    ensures if improved then fl(best.performance) > fl(start.performance) else best == start
    ensures start.local == 0 ==> !improved
    ensures FinishedScan(cacheSize, perf, fl, start.local, -(step as int), start, best)
    ensures !improved ==> NoStepDown(cacheSize, perf, fl, step, start)
  {
    hide Scanned, ScanOver, At, NoStepDown;
    ghost var down := -(step as int);
    ghost var n: nat := 0;
    var d := Descent(start, start.local, false, false, false);
    ScanStart(cacheSize, perf, fl, start.local, down, start);
    AtNext(start.local, down, 0);
    while Descending(d)
      invariant DescentInv(cacheSize, perf, fl, down, start, d, n)
      invariant start.local == 0 ==> d == Descent(start, 0, false, false, false)
      decreases d.at
    {
      DescentStep(cacheSize, perf, fl, step, down, start, d, n);
      d := Descend(cacheSize, perf, fl, step, d);
      n := if d.stopped then n else n + 1;
    }
    DescentOver(cacheSize, perf, fl, down, start, d, n);
    best, improved := d.best, d.improved;
    if !improved {
      FirstOfScan(cacheSize, perf, fl, step, down, n, start);
    }
  }

  lemma ScanStart(cacheSize: nat, perf: (nat, nat) -> nat, fl: nat -> nat, from: int, step: int, start: Split)
    requires OnBudget(cacheSize, perf, start)
    ensures Scanned(cacheSize, perf, fl, from, step, 0, start, start)
  {
  }

  lemma ScanEnds(cacheSize: nat, perf: (nat, nat) -> nat, fl: nat -> nat, from: int, step: int, n: nat, best: Split)
    requires !Candidate(cacheSize, At(from, step, n + 1))
    ensures ScanOver(cacheSize, perf, fl, from, step, n, best)
  {
  }

  lemma ScanDropped(cacheSize: nat, perf: (nat, nat) -> nat, fl: nat -> nat, from: int, step: int, n: nat, best: Split)
    requires n >= 1 && Candidate(cacheSize, At(from, step, n))
    requires fl(ScoreAt(cacheSize, perf, At(from, step, n))) < fl(best.performance)
    ensures ScanOver(cacheSize, perf, fl, from, step, n, best)
  {
  }

  /** A finished scan that kept its start has tried the first step, if that was on the budget line. */
  lemma FirstOfScan(cacheSize: nat, perf: (nat, nat) -> nat, fl: nat -> nat, step: nat, down: int, n: nat, start: Split)
    requires down + step == 0
    requires Scanned(cacheSize, perf, fl, start.local, down, n, start, start)
    requires ScanOver(cacheSize, perf, fl, start.local, down, n, start)
    ensures NoStepDown(cacheSize, perf, fl, step, start)
  {
    AtNext(start.local, down, 0);
    assert At(start.local, down, 1) == start.local - step;
  }

  function DescendTimes(cacheSize: nat, perf: (nat, nat) -> nat, fl: nat -> nat, step: nat, d: Descent, k: nat)
    : (e: Descent)
    requires 3 * d.at <= cacheSize
    ensures 3 * e.at <= cacheSize
  {
    if k == 0 then d else Descend(cacheSize, perf, fl, step, DescendTimes(cacheSize, perf, fl, step, d, k - 1))
  }

  /** With a step that rounds down to 0, every iteration from a watermark above 0 repeats the same state. */
  lemma {:induction false} ZeroStepNeverEnds(cacheSize: nat, perf: (nat, nat) -> nat, fl: nat -> nat, start: Split,
                                             k: nat)
    requires OnBudget(cacheSize, perf, start) && start.local > 0
    ensures DescendTimes(cacheSize, perf, fl, 0, Descent(start, start.local, false, false, false), k)
              == Descent(start, start.local, false, false, false)
    ensures Descending(Descent(start, start.local, false, false, false))
  {
    if k > 0 { ZeroStepNeverEnds(cacheSize, perf, fl, start, k - 1); }
  }

  /** With a step of at least 1 the pass has ended after as many iterations as the watermark is high. */
  lemma {:induction false} PositiveStepEnds(cacheSize: nat, perf: (nat, nat) -> nat, fl: nat -> nat, step: nat,
                                            d: Descent, k: nat)
    requires 3 * d.at <= cacheSize && step >= 1
    ensures DescendTimes(cacheSize, perf, fl, step, d, k).at <= d.at - k
    ensures k >= d.at ==> !Descending(DescendTimes(cacheSize, perf, fl, step, d, k))
  {
    if k > 0 { PositiveStepEnds(cacheSize, perf, fl, step, d, k - 1); }
  }

  /** The improvement loop.  The rounded score strictly rises, so it ends; then no step up or down improves. */
  method Climb(cacheSize: nat, perf: (nat, nat) -> nat, fl: nat -> nat, steps: seq<nat>, start: Split)
    returns (best: Split, improved: bool)
    requires Monotone(fl) && Bounded(perf) && OnBudget(cacheSize, perf, start)
    requires GoodSteps(cacheSize, steps) && (steps[0] >= 1 || start.local == 0)
    ensures OnBudget(cacheSize, perf, best)
    ensures if improved then best.performance > start.performance else best == start
    ensures NoStepUp(cacheSize, perf, fl, steps, best) && NoStepDown(cacheSize, perf, fl, steps[0], best)
  {
    hide NoStepUp, NoStepDown;
    best, improved := start, false;
    var again := true;
    while again
      invariant OnBudget(cacheSize, perf, best)
      invariant if improved then fl(best.performance) > fl(start.performance) else best == start
      invariant steps[0] >= 1 || best == start
      invariant again || (NoStepUp(cacheSize, perf, fl, steps, best) && NoStepDown(cacheSize, perf, fl, steps[0], best))
      decreases fl(U64) - fl(best.performance), again
    {
      assert fl(best.performance) <= fl(U64);
      var up, improvedIncreasing := TryIncreasing(cacheSize, perf, fl, steps, best);
      var down, improvedDecreasing := up, false;
      if !improvedIncreasing {
        down, improvedDecreasing := TryDecreasing(cacheSize, perf, fl, steps[0], up);
      }
      assert fl(down.performance) <= fl(U64);
      best := down;
      again := improvedIncreasing || improvedDecreasing;
      improved := improved || again;
    }
  }

  // ---------------------------------------------------------------- when the climb ends

  /** Where the improvement loop stands: before a round, in a shrinking pass, or done. */
  datatype Climbing = Round(best: Split) | Down(d: Descent) | Done(best: Split)

  ghost predicate Within(cacheSize: nat, perf: (nat, nat) -> nat, c: Climbing) {
    match c
    case Down(d) => 3 * d.at <= cacheSize && OnBudget(cacheSize, perf, d.best)
    case _ => OnBudget(cacheSize, perf, c.best)
  }

  function StartDown(s: Split): (d: Descent) { Descent(s, s.local, false, false, false) }

  /** One round of growing, one iteration of shrinking, or the decision to go round again. */
  ghost function StepClimb(cacheSize: nat, perf: (nat, nat) -> nat, fl: nat -> nat, steps: seq<nat>, c: Climbing)
    : (r: Climbing)
    requires |steps| == 3 && Within(cacheSize, perf, c)
    ensures Within(cacheSize, perf, r)
  {
    match c
    case Round(s) =>
      GrowKeeps(cacheSize, perf, fl, steps, s, 0);
      var g := Grow(cacheSize, perf, fl, steps, s, 0);
      if g != s then Round(g) else Down(StartDown(s))
    case Down(d) =>
      if Descending(d) then Down(Descend(cacheSize, perf, fl, steps[0], d))
      else if d.improved then Round(d.best)
      else Done(d.best)
    case Done(_) => c
  }

  ghost function ClimbTimes(cacheSize: nat, perf: (nat, nat) -> nat, fl: nat -> nat, steps: seq<nat>, c: Climbing,
                            k: nat)
    : (r: Climbing)
    requires |steps| == 3 && Within(cacheSize, perf, c)
    decreases k
  {
    if k == 0 then c
    else ClimbTimes(cacheSize, perf, fl, steps, StepClimb(cacheSize, perf, fl, steps, c), k - 1)
  }

  ghost predicate Ends(cacheSize: nat, perf: (nat, nat) -> nat, fl: nat -> nat, steps: seq<nat>, c: Climbing)
    requires |steps| == 3 && Within(cacheSize, perf, c)
  {
    exists k: nat :: ClimbTimes(cacheSize, perf, fl, steps, c, k).Done?
  }

  lemma EndsByStep(cacheSize: nat, perf: (nat, nat) -> nat, fl: nat -> nat, steps: seq<nat>, c: Climbing)
    requires |steps| == 3 && Within(cacheSize, perf, c)
    requires Ends(cacheSize, perf, fl, steps, StepClimb(cacheSize, perf, fl, steps, c))
    ensures Ends(cacheSize, perf, fl, steps, c)
  {
    var next := StepClimb(cacheSize, perf, fl, steps, c);
    var k: nat :| ClimbTimes(cacheSize, perf, fl, steps, next, k).Done?;
    hide StepClimb;
    assert ClimbTimes(cacheSize, perf, fl, steps, c, k + 1).Done?;
  }

  lemma DoneEnds(cacheSize: nat, perf: (nat, nat) -> nat, fl: nat -> nat, steps: seq<nat>, s: Split)
    requires |steps| == 3 && OnBudget(cacheSize, perf, s)
    ensures Ends(cacheSize, perf, fl, steps, Done(s))
  {
    assert ClimbTimes(cacheSize, perf, fl, steps, Done(s), 0).Done?;
  }

  /** Rounded scores left above s. */
  ghost function Above(fl: nat -> nat, s: Split): (n: int) { fl(U64) - fl(s.performance) }

  /** A round strictly improves or hands over to a shrinking pass. */
  lemma {:induction false} RoundEnds(cacheSize: nat, perf: (nat, nat) -> nat, fl: nat -> nat, steps: seq<nat>, s: Split)
    requires Monotone(fl) && Bounded(perf) && |steps| == 3 && OnBudget(cacheSize, perf, s)
    requires steps[0] >= 1 || (s.local == 0 && Grow(cacheSize, perf, fl, steps, s, 0) == s)
    ensures Ends(cacheSize, perf, fl, steps, Round(s))
    decreases Above(fl, s), 1, 0
  {
    hide Grow, Ends;
    GrowKeeps(cacheSize, perf, fl, steps, s, 0);
    var g := Grow(cacheSize, perf, fl, steps, s, 0);
    assert fl(g.performance) <= fl(U64);
    if g != s {
      RoundEnds(cacheSize, perf, fl, steps, g);
    } else {
      PassEnds(cacheSize, perf, fl, steps, s, StartDown(s));
    }
    EndsByStep(cacheSize, perf, fl, steps, Round(s));
  }

  /** A shrinking pass comes down to the bottom, and leads to another round only if it improved. */
  lemma {:induction false} PassEnds(cacheSize: nat, perf: (nat, nat) -> nat, fl: nat -> nat, steps: seq<nat>,
                                    from: Split, d: Descent)
    requires Monotone(fl) && Bounded(perf) && |steps| == 3 && Within(cacheSize, perf, Down(d))
    requires if d.improved then fl(d.best.performance) > fl(from.performance) else d.best == from
    requires steps[0] >= 1 || (d.at == 0 && !d.improved)
    ensures Ends(cacheSize, perf, fl, steps, Down(d))
    decreases Above(fl, from), 0, if Descending(d) then d.at else 0
  {
    hide Grow, Ends;
    assert fl(d.best.performance) <= fl(U64);
    if Descending(d) {
      PassEnds(cacheSize, perf, fl, steps, from, Descend(cacheSize, perf, fl, steps[0], d));
    } else if d.improved {
      RoundEnds(cacheSize, perf, fl, steps, d.best);
    } else {
      DoneEnds(cacheSize, perf, fl, steps, d.best);
    }
    EndsByStep(cacheSize, perf, fl, steps, Down(d));
  }

  /** The climb is above watermark 0, and any shrinking pass is standing still. */
  ghost predicate Stuck(cacheSize: nat, perf: (nat, nat) -> nat, c: Climbing) {
    && Within(cacheSize, perf, c) && !c.Done?
    && if c.Round? then c.best.local > 0 else c.d.best.local > 0 && c.d == StartDown(c.d.best)
  }

  lemma {:induction false} StuckStays(cacheSize: nat, perf: (nat, nat) -> nat, fl: nat -> nat, steps: seq<nat>,
                                      c: Climbing, k: nat)
    requires |steps| == 3 && steps[0] == 0 && Stuck(cacheSize, perf, c)
    ensures !ClimbTimes(cacheSize, perf, fl, steps, c, k).Done?
    decreases k
  {
    hide Grow;
    if k > 0 {
      if c.Round? {
        GrowKeeps(cacheSize, perf, fl, steps, c.best, 0);
      } else {
        ZeroStepNeverEnds(cacheSize, perf, fl, c.d.best, 1);
      }
      StuckStays(cacheSize, perf, fl, steps, StepClimb(cacheSize, perf, fl, steps, c), k - 1);
    }
  }

  /** The improvement loop ends if and only if its smallest step is not 0, or it starts at watermark 0. */
  lemma ClimbEndsExactlyWhen(cacheSize: nat, perf: (nat, nat) -> nat, fl: nat -> nat, steps: seq<nat>, start: Split)
    requires Monotone(fl) && Bounded(perf) && |steps| == 3 && OnBudget(cacheSize, perf, start)
    ensures Ends(cacheSize, perf, fl, steps, Round(start)) <==> steps[0] >= 1 || start.local == 0
  {
    if steps[0] >= 1 || start.local == 0 {
      if steps[0] == 0 { GrowStep(cacheSize, perf, fl, steps, start, 0); }
      RoundEnds(cacheSize, perf, fl, steps, start);
    } else {
      forall k: nat ensures !ClimbTimes(cacheSize, perf, fl, steps, Round(start), k).Done? {
        StuckStays(cacheSize, perf, fl, steps, Round(start), k);
      }
    }
  }

  // ---------------------------------------------------------------- the whole procedure

  /**
   * The last resort when nothing improved: whole-percent steps up from the start.  The first watermark
   * tried is two steps up, and at watermark 0 nothing is tried.
   */
  method FinalIncrease(cacheSize: nat, perf: (nat, nat) -> nat, fl: nat -> nat, percent: nat, start: Split)
    returns (best: Split)
    requires Monotone(fl) && OnBudget(cacheSize, perf, start)
    requires (percent >= 1 || start.local == 0) && IntsFit(cacheSize, percent)
    ensures OnBudget(cacheSize, perf, best)
    ensures best == start || best.performance > start.performance
    ensures start.local == 0 ==> best == start
    ensures start.local > 0 ==> FinishedScan(cacheSize, perf, fl, start.local + percent, percent, start, best)
  {
    hide Scanned, ScanOver, At;
    best := start;
    ghost var from, n: nat := start.local + percent, 0;
    ScanStart(cacheSize, perf, fl, from, percent, start);
    AtNext(from, percent, 0);
    BudgetOrWrap(cacheSize, best.local);
    var newRemote := Wrap(cacheSize - 3 * best.local);
    var newLocal := best.local + percent;
    var reduced := false;
    while newRemote < cacheSize && !reduced
      invariant newLocal <= cacheSize + percent && newLocal == At(from, percent, n)
      invariant OnBudget(cacheSize, perf, best)
      invariant fl(best.performance) >= fl(start.performance)
      invariant Scanned(cacheSize, perf, fl, from, percent, n, start, best)
      invariant best == start || fl(best.performance) > fl(start.performance)
      invariant start.local == 0 ==> n == 0 && best == start
      invariant newRemote >= cacheSize <==> start.local == 0
      invariant reduced ==> ScanOver(cacheSize, perf, fl, from, percent, n, best)
      decreases cacheSize + percent - newLocal
    {
      AtNext(from, percent, n);
      newLocal := newLocal + percent;
      BudgetOrWrap(cacheSize, newLocal);
      newRemote := Wrap(cacheSize - 3 * newLocal);
      if newRemote >= cacheSize {
        ScanEnds(cacheSize, perf, fl, from, percent, n, best);
        break;
      }
      var newPerformance := perf(newLocal, newRemote);
      var next := best;
      if fl(newPerformance) > fl(best.performance) {
        next := Split(newLocal, newRemote, newPerformance);
      } else if fl(newPerformance) < fl(best.performance) {
        reduced := true;
      }
      ScanStep(cacheSize, perf, fl, from, percent, n, start, best, newLocal, next);
      best, n := next, n + 1;
      if reduced {
        ScanDropped(cacheSize, perf, fl, from, percent, n, best);
      }
    }
  }

  /** An overdrawn budget wraps to at least the cache size, so the guard catches it. */
  lemma BudgetOrWrap(cacheSize: nat, local: nat)
    requires cacheSize < U64 && 3 * local < U64
    ensures 3 * local <= cacheSize ==> Wrap(cacheSize - 3 * local) == cacheSize - 3 * local
    ensures 3 * local > cacheSize ==> Wrap(cacheSize - 3 * local) >= cacheSize
  {
    if 3 * local > cacheSize {
      ModShift(cacheSize - 3 * local, 1);
      WrapSmall(cacheSize - 3 * local + U64);
    }
  }

  function ScoreOf(cdf: CdfType, ns: Latency): (perf: (nat, nat) -> nat)
    requires WellFormed(cdf)
    ensures forall local: nat, remote: nat :: perf(local, remote) == Performance(cdf, local, remote, ns)
  {
    (local: nat, remote: nat) => Performance(cdf, local, remote, ns)
  }

  /**
   * Where the climb may end: at a better split that no step up and no first step down beats; or, where the
   * start itself is one, at the best of the whole-percent watermarks above it, or at the start.
   */
  ghost predicate Settled(cacheSize: nat, perf: (nat, nat) -> nat, fl: nat -> nat, steps: seq<nat>, percent: nat,
                          start: Split, end: Split)
    requires |steps| == 3
  {
    || (end.performance > start.performance
        && NoStepUp(cacheSize, perf, fl, steps, end) && NoStepDown(cacheSize, perf, fl, steps[0], end))
    || (NoStepUp(cacheSize, perf, fl, steps, start) && NoStepDown(cacheSize, perf, fl, steps[0], start)
        && if start.local == 0 then end == start
           else FinishedScan(cacheSize, perf, fl, start.local + percent, percent, start, end))
  }

  /** get_best_access_rates, started on the budget line. */
  method GetBestAccessRates(cdf: CdfType, cacheSize: nat, ns: Latency, fl: nat -> nat, steps: seq<nat>, percent: nat,
                            initialLocal: nat, initialRemote: nat)
    returns (choice: Choice)
    requires WellFormed(cdf) && Monotone(fl)
    requires initialRemote + 3 * initialLocal == cacheSize && cacheSize < 3 * |cdf.entries|
    requires GoodSteps(cacheSize, steps) && steps[2] <= percent && IntsFit(cacheSize, percent)
    requires steps[0] >= 1 || initialLocal == 0
    ensures choice.remote + 3 * choice.local == cacheSize
    ensures choice.performance == Score(cdf, cacheSize, ns, choice.local)
    ensures choice.performance >= Score(cdf, cacheSize, ns, initialLocal)
    ensures var perf := ScoreOf(cdf, ns);
            var start := Split(initialLocal, initialRemote, perf(initialLocal, initialRemote));
            Settled(cacheSize, perf, fl, steps, percent, start, Split(choice.local, choice.remote, choice.performance))
    ensures choice.local < |cdf.entries|
    ensures choice.local == 0 ==> choice.accessRate == choice.bucket == choice.cutoffKey == U64 - 1
    ensures choice.local > 0 ==>
              && choice.accessRate == cdf.entries[choice.local].kv.freq
              && choice.bucket == cdf.entries[choice.local].bucket
              && choice.cutoffKey == cdf.entries[choice.local].kv.key
  {
    hide Performance, WellFormed, FinishedScan, NoStepUp, NoStepDown;
    var perf := ScoreOf(cdf, ns);
    var start := Split(initialLocal, initialRemote, perf(initialLocal, initialRemote));
    var best, improved := Climb(cacheSize, perf, fl, steps, start);
    if !improved {
      // The shrinking loop after this one never runs: its flag starts out false.
      best := FinalIncrease(cacheSize, perf, fl, percent, best);
    }
    choice := ChoiceAt(cdf, best.local, best.remote, best.performance);
  }

  /** Run from any split on the budget line, the climb is never better than the exhaustive search. */
  method ClimbAndSearch(cdf: CdfType, cacheSize: nat, ns: Latency, fl: nat -> nat, steps: seq<nat>, percent: nat,
                        initialLocal: nat, initialRemote: nat)
    returns (climbed: Choice, searched: Choice)
    requires WellFormed(cdf) && Monotone(fl) && cacheSize < U64
    requires initialRemote + 3 * initialLocal == cacheSize && cacheSize < 3 * |cdf.entries|
    requires GoodSteps(cacheSize, steps) && steps[2] <= percent && IntsFit(cacheSize, percent)
    requires steps[0] >= 1 || initialLocal == 0
    ensures Score(cdf, cacheSize, ns, initialLocal) <= climbed.performance <= searched.performance
    ensures climbed.remote + 3 * climbed.local == searched.remote + 3 * searched.local == cacheSize
    ensures climbed.performance == Score(cdf, cacheSize, ns, climbed.local)
  {
    climbed := GetBestAccessRates(cdf, cacheSize, ns, fl, steps, percent, initialLocal, initialRemote);
    searched := FindOptimal(cdf, cacheSize, ns);
    assert climbed.local <= LastCandidate(cdf, cacheSize);
  }
}
