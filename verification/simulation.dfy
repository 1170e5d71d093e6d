/**
 The Monte Carlo driver: the construction gate that refuses an invalid
 simulation input, the per-step decision between the tissue boundary and the
 closest virtual boundary, the per-photon do/while that dispatches to the
 detectors or to absorption and scattering, and the photon loop that ends with
 a single normalization of all detectors.

 The photon stepper, the tissue geometry, the virtual boundary controller and
 the source are outside the model: their operations are the fields of an
 Engine, acting on a photon whose state-flag set is visible and whose other
 state (position, direction, weight, step size, history) is the abstract K.
 */
module Simulation {
  import Common
  import VolumeVbValidation

  // ---------------------------------------------------------------- Move

  /** A distance to a boundary as a double: finite, or positive infinity. */
  datatype Distance = Dist(d: real) | Infinity

  /** The double comparison a < b; infinity is less than nothing. */
  predicate Less(a: Distance, b: Distance) {
    match a
    case Infinity => false
    case Dist(x) => b.Infinity? || (b.Dist? && x < b.d)
  }

  /** What a step's move ran into. */
  datatype BoundaryHitType = Virtual | Tissue | None

  datatype Photon<K> = Photon(flags: Common.StateFlags, kin: K)

  /**
   The operations of the collaborators the driver calls.
   - setStepSize, move, testDeath, crossRegionOrReflect, absorb, scatter: the photon's own;
     move returns the moved photon and whether the step reached the boundary;
   - tissueDistance: the tissue's distance to its next boundary along the photon's path;
   - closestVirtualBoundary: the controller's distance to the closest virtual
     boundary and the state flag that boundary marks a crossing photon with;
   - nextPhoton: the source's n-th photon.
   */
  datatype Engine<!K> = Engine(
    setStepSize: Photon<K> -> Photon<K>,
    tissueDistance: Photon<K> -> Distance,
    closestVirtualBoundary: Photon<K> -> (Distance, Common.PhotonStateType),
    move: (Photon<K>, real) -> (Photon<K>, bool),
    testDeath: Photon<K> -> Photon<K>,
    crossRegionOrReflect: Photon<K> -> Photon<K>,
    absorb: Photon<K> -> Photon<K>,
    scatter: Photon<K> -> Photon<K>,
    nextPhoton: int -> Photon<K>)

  datatype MoveResult<K> = MoveResult(photon: Photon<K>, hit: BoundaryHitType)

  /**
   Move the photon toward whichever boundary is strictly closer; ties go to
   the virtual boundary. When neither boundary is at a finite distance the
   photon is not moved but loses its Alive flag.
   */
  function Move<K>(e: Engine<K>, p: Photon<K>): (r: MoveResult<K>)
    ensures var td := e.tissueDistance(p);
            Less(td, e.closestVirtualBoundary(p).0) ==>
              && r.hit != Virtual
              && r.photon == e.move(p, td.d).0
              && (r.hit == Tissue <==> e.move(p, td.d).1)
    ensures var vd := e.closestVirtualBoundary(p).0;
            !Less(e.tissueDistance(p), vd) && vd.Infinity? ==>
              r.hit == Virtual && r.photon == p.(flags := p.flags - {Common.Alive})
    ensures var (vd, vbState) := e.closestVirtualBoundary(p);
            !Less(e.tissueDistance(p), vd) && vd.Dist? ==>
              && r.hit != Tissue
              && vbState in r.photon.flags
              && r.photon.kin == e.move(p, vd.d).0.kin
              && r.photon.flags == e.move(p, vd.d).0.flags + {vbState}
              && (r.hit == Virtual <==> e.move(p, vd.d).1)
  {
    var tissueDistance := e.tissueDistance(p);
    var (vbDistance, vbState) := e.closestVirtualBoundary(p);
    if Less(tissueDistance, vbDistance) then
      var (moved, hitTissueBoundary) := e.move(p, tissueDistance.d);
      MoveResult(moved, if hitTissueBoundary then Tissue else None)
    else if vbDistance.Infinity? then
      MoveResult(p.(flags := p.flags - {Common.Alive}), Virtual)
    else
      var (moved, hitVirtualBoundary) := e.move(p, vbDistance.d);
      MoveResult(moved.(flags := moved.flags + {vbState}), if hitVirtualBoundary then Virtual else None)
  }

  /**
   What each hit means, both ways: Tissue exactly when the tissue boundary is
   strictly closer and the move reaches it; Virtual exactly when it is not and
   either no virtual boundary is finite or the move reaches the virtual one.
   */
  lemma MoveHitCharacterized<K>(e: Engine<K>, p: Photon<K>)
    ensures var (td, (vd, _)) := (e.tissueDistance(p), e.closestVirtualBoundary(p));
            && (Move(e, p).hit == Tissue <==> Less(td, vd) && e.move(p, td.d).1)
            && (Move(e, p).hit == Virtual <==> !Less(td, vd) && (vd.Infinity? || e.move(p, vd.d).1))
            && (Move(e, p).hit == None <==> if Less(td, vd) then !e.move(p, td.d).1 else vd.Dist? && !e.move(p, vd.d).1)
  {
  }

  /** Only a strictly closer tissue boundary can give a Tissue hit; a tie never does. */
  lemma MoveTieGoesToVirtualBoundary<K>(e: Engine<K>, p: Photon<K>)
    requires e.tissueDistance(p) == e.closestVirtualBoundary(p).0
    ensures Move(e, p).hit != Tissue
    ensures e.tissueDistance(p).Dist? ==> e.closestVirtualBoundary(p).1 in Move(e, p).photon.flags
  {
  }

  /** A photon with no boundary ahead of it at all is killed where it stands. */
  lemma MoveWithNoBoundaryKills<K>(e: Engine<K>, p: Photon<K>)
    requires e.tissueDistance(p).Infinity? && e.closestVirtualBoundary(p).0.Infinity?
    ensures Common.Alive !in Move(e, p).photon.flags
    ensures Move(e, p).photon.kin == p.kin && Move(e, p).hit == Virtual
  {
  }

  // ---------------------------------------------------------------- one step

  /** The calls the driver makes that depend on the step's outcome. */
  datatype Event<K> =
    | TerminationTally(dp: Photon<K>)
    | CrossRegionOrReflect
    | Absorb
    | Scatter
    | HistoryTally(history: Photon<K>)
    | DisplayStatus(n: int, percent: int)
    | NormalizeDetectors(numPhotons: int)

  datatype StepResult<K> = StepResult(photon: Photon<K>, events: seq<Event<K>>)

  /** One pass of the do/while body: set the step, move, tally, test for death, then dispatch. */
  function Step<K>(e: Engine<K>, p: Photon<K>): (s: StepResult<K>)
    ensures var m := Move(e, e.setStepSize(p));
            && (TerminationTally(m.photon) in s.events <==> m.hit == Virtual)
            && (CrossRegionOrReflect in s.events <==> m.hit == Tissue)
            && (Absorb in s.events <==> m.hit == None)
            && (Scatter in s.events ==> s.events == [Absorb, Scatter])
            && (m.hit == Virtual ==> s.events == [TerminationTally(m.photon)] && s.photon == e.testDeath(m.photon))
            && (m.hit == Tissue ==>
                  s.events == [CrossRegionOrReflect] && s.photon == e.crossRegionOrReflect(e.testDeath(m.photon)))
            && (m.hit == None ==>
                  var a := e.absorb(e.testDeath(m.photon));
                  && (s.events == [Absorb] || s.events == [Absorb, Scatter])
                  && (Scatter in s.events <==> Common.Absorbed !in a.flags)
                  && s.photon == if Common.Absorbed in a.flags then a else e.scatter(a))
    ensures WellShaped(s)
  {
    var m := Move(e, e.setStepSize(p));
    var tallies := if m.hit == Virtual then [TerminationTally(m.photon)] else [];
    var q := e.testDeath(m.photon);
    if m.hit == Virtual then
      StepResult(q, tallies)
    else if m.hit == Tissue then
      StepResult(e.crossRegionOrReflect(q), [CrossRegionOrReflect])
    else
      var a := e.absorb(q);
      if Common.Absorbed in a.flags then StepResult(a, [Absorb])
      else StepResult(e.scatter(a), [Absorb, Scatter])
  }

  /** The calls a step may make: no history tally, status line or normalization. */
  predicate IsStepEvent<K>(ev: Event<K>) {
    ev.TerminationTally? || ev.CrossRegionOrReflect? || ev.Absorb? || ev.Scatter?
  }

  /** A step makes one or two calls, all of them step calls. */
  predicate WellShaped<K>(s: StepResult<K>) {
    && 1 <= |s.events| <= 2
    && forall i :: 0 <= i < |s.events| ==> IsStepEvent(s.events[i])
  }

  /** The do/while body of engine e, as a function of the photon. */
  function StepOf<K>(e: Engine<K>): Photon<K> -> StepResult<K> {
    p => Step(e, p)
  }

  // ---------------------------------------------------------------- one photon

  /** A photon's life: its final state, the calls made along the way and the number of steps. */
  datatype Lifetime<K> = Lifetime(photon: Photon<K>, events: seq<Event<K>>, steps: nat)

  /**
   The do/while of one photon with loop body step: step at least once, and
   keep stepping while the photon is Alive. The loop is unbounded in the
   engine; here it is given fuel steps and answers None when the photon is
   still alive after them.
   */
  function Live<K>(step: Photon<K> -> StepResult<K>, p: Photon<K>, fuel: nat): (r: Common.Option<Lifetime<K>>)
    ensures r.Some? ==> Common.Alive !in r.value.photon.flags
    ensures r.Some? ==> 1 <= r.value.steps <= fuel
    decreases fuel
  {
    if fuel == 0 then Common.None
    else
      var s := step(p);
      if Common.Alive !in s.photon.flags then
        Common.Some(Lifetime(s.photon, s.events, 1))
      else
        var rest := Live(step, s.photon, fuel - 1);
        if rest.None? then Common.None
        else Common.Some(Lifetime(rest.value.photon, s.events + rest.value.events, rest.value.steps + 1))
  }

  /** Extra fuel never changes a life that already ended. */
  lemma {:induction false} LiveFuelMonotone<K>(step: Photon<K> -> StepResult<K>, p: Photon<K>, fuel: nat, more: nat)
    requires Live(step, p, fuel).Some? && fuel <= more
    ensures Live(step, p, more) == Live(step, p, fuel)
    decreases fuel
  {
    var s := step(p);
    if Common.Alive in s.photon.flags {
      LiveFuelMonotone(step, s.photon, fuel - 1, more - 1);
    }
  }

  /** The engine's step is well shaped for every photon. */
  lemma StepOfWellShaped<K>(e: Engine<K>)
    ensures forall q :: WellShaped(StepOf(e)(q))
  {
    forall q
      ensures WellShaped(StepOf(e)(q))
    {
      assert StepOf(e)(q) == Step(e, q);
    }
  }

  /**
   Under a well-shaped step, a finished life made only step calls, one or two
   per step.
   */
  lemma {:induction false} LiveMakesOnlyStepCalls<K>(step: Photon<K> -> StepResult<K>, p: Photon<K>, fuel: nat)
    requires forall q :: WellShaped(step(q))
    requires Live(step, p, fuel).Some?
    ensures var life := Live(step, p, fuel).value;
            && (forall i :: 0 <= i < |life.events| ==> IsStepEvent(life.events[i]))
            && life.steps <= |life.events| <= 2 * life.steps
    decreases fuel
  {
    var s := step(p);
    assert WellShaped(s);
    if Common.Alive in s.photon.flags {
      var rest := Live(step, s.photon, fuel - 1).value;
      LiveMakesOnlyStepCalls(step, s.photon, fuel - 1);
      assert Live(step, p, fuel).value.events == s.events + rest.events;
    }
  }

  /** The photon after i applications of step, whatever its flags along the way. */
  function Iterate<K>(step: Photon<K> -> StepResult<K>, p: Photon<K>, i: nat): Photon<K>
    decreases i
  {
    if i == 0 then p else Iterate(step, step(p).photon, i - 1)
  }

  /** The calls made by the first k applications of step, in order. */
  function Trace<K>(step: Photon<K> -> StepResult<K>, p: Photon<K>, k: nat): seq<Event<K>>
    decreases k
  {
    if k == 0 then [] else step(p).events + Trace(step, step(p).photon, k - 1)
  }

  /** A finished life stops at the first step that leaves the photon without Alive. */
  lemma {:induction false} LiveFinishedIsIterate<K>(step: Photon<K> -> StepResult<K>, p: Photon<K>, fuel: nat)
    ensures Live(step, p, fuel).Some? ==>
              var life := Live(step, p, fuel).value;
              && life.photon == Iterate(step, p, life.steps)
              && life.events == Trace(step, p, life.steps)
              && forall i :: 1 <= i < life.steps ==> Common.Alive in Iterate(step, p, i).flags
    decreases fuel
  {
    if fuel == 0 {
      return;
    }
    var s := step(p);
    if Common.Alive !in s.photon.flags {
      assert Trace(step, p, 1) == s.events;
      return;
    }
    var rest := Live(step, s.photon, fuel - 1);
    if rest.Some? {
      LiveFinishedIsIterate(step, s.photon, fuel - 1);
      var n := rest.value.steps;
      assert Iterate(step, p, n + 1) == Iterate(step, s.photon, n);
      assert Trace(step, p, n + 1) == s.events + Trace(step, s.photon, n);
      forall i | 1 <= i < n + 1
        ensures Common.Alive in Iterate(step, p, i).flags
      {
        if 1 < i {
          assert Iterate(step, p, i) == Iterate(step, s.photon, i - 1);
        }
      }
    }
  }

  /** An unfinished life keeps the photon Alive through every one of its fuel steps. */
  lemma {:induction false} LiveUnfinishedStaysAlive<K>(step: Photon<K> -> StepResult<K>, p: Photon<K>, fuel: nat)
    ensures Live(step, p, fuel).None? ==>
              forall k :: 1 <= k <= fuel ==> Common.Alive in Iterate(step, p, k).flags
    decreases fuel
  {
    if fuel == 0 || Live(step, p, fuel).Some? {
      return;
    }
    var s := step(p);
    assert Iterate(step, p, 1) == s.photon;
    LiveUnfinishedStaysAlive(step, s.photon, fuel - 1);
    forall k | 1 <= k <= fuel
      ensures Common.Alive in Iterate(step, p, k).flags
    {
      if 1 < k {
        assert Iterate(step, p, k) == Iterate(step, s.photon, k - 1);
      }
    }
  }

  /**
   Live is the do/while: a life finishes within fuel steps exactly when some
   step among the first fuel leaves the photon without Alive; it then stops at
   the first such step, its photon is the step applied that many times, and
   its calls are those of the steps taken. Every photon before the last is
   still Alive, so it is stepped again.
   */
  lemma LiveIsTheDoWhile<K>(step: Photon<K> -> StepResult<K>, p: Photon<K>, fuel: nat)
    ensures Live(step, p, fuel).Some? <==>
              exists k :: 1 <= k <= fuel && Common.Alive !in Iterate(step, p, k).flags
    ensures Live(step, p, fuel).Some? ==>
              var life := Live(step, p, fuel).value;
              && life.photon == Iterate(step, p, life.steps)
              && life.events == Trace(step, p, life.steps)
              && forall i :: 1 <= i < life.steps ==> Common.Alive in Iterate(step, p, i).flags
  {
    LiveFinishedIsIterate(step, p, fuel);
    LiveUnfinishedStaysAlive(step, p, fuel);
    var r := Live(step, p, fuel);
    if r.Some? {
      var k := r.value.steps;
      assert 1 <= k <= fuel && Common.Alive !in Iterate(step, p, k).flags;
    }
  }

  /** A photon that is dead after its first step lives exactly one step, even if it started dead. */
  lemma LiveStepsAtLeastOnce<K>(step: Photon<K> -> StepResult<K>, p: Photon<K>, fuel: nat)
    requires 1 <= fuel && Common.Alive !in step(p).photon.flags
    ensures Live(step, p, fuel) == Common.Some(Lifetime(step(p).photon, step(p).events, 1))
  {
  }

  // ---------------------------------------------------------------- progress report

  /**
   The progress check of the photon loop as written: photon n (1 <= n <= N)
   reports when n is a multiple of N / 10. For N below 10 the period is 0 and
   the remainder throws; None stands for that exception. All operands are
   non-negative here, so truncating and Euclidean division agree.
   */
  function ProgressDueAsWritten(n: int, numberOfPhotons: int): (r: Common.Option<bool>)
    requires 1 <= n <= numberOfPhotons
    ensures r.None? <==> numberOfPhotons < 10
  {
    var period := numberOfPhotons / 10;
    if period == 0 then Common.None else Common.Some(n % period == 0)
  }

  /** The first photon of any run of fewer than ten throws before it is launched. */
  lemma ProgressCheckThrowsBelowTen(numberOfPhotons: int)
    requires 1 <= numberOfPhotons < 10
    ensures ProgressDueAsWritten(1, numberOfPhotons) == Common.None
  {
  }

  /** The progress check with its period floored at 1: every photon reports when N is below 10. */
  function ProgressDue(n: int, numberOfPhotons: int): (due: bool)
    requires 1 <= n <= numberOfPhotons
    ensures numberOfPhotons < 10 ==> due
  {
    var period := if numberOfPhotons / 10 == 0 then 1 else numberOfPhotons / 10;
    n % period == 0
  }

  /** Wherever the written check does not throw, the corrected one agrees with it. */
  lemma ProgressDueAgreesWhereDefined(n: int, numberOfPhotons: int)
    requires 1 <= n <= numberOfPhotons
    ensures ProgressDueAsWritten(n, numberOfPhotons).Some? ==>
              ProgressDueAsWritten(n, numberOfPhotons).value == ProgressDue(n, numberOfPhotons)
    ensures 10 <= numberOfPhotons ==> ProgressDueAsWritten(n, numberOfPhotons) == Common.Some(ProgressDue(n, numberOfPhotons))
  {
  }

  /** Percentage of photons completed, as the truncating integer quotient 100 n / N. */
  function Percent(n: int, numberOfPhotons: int): (pct: int)
    requires 1 <= n <= numberOfPhotons
    ensures 0 <= pct <= 100
    ensures n == numberOfPhotons <==> pct == 100
  {
    PercentBounds(n, numberOfPhotons);
    (100 * n) / numberOfPhotons
  }

  /** Multiplying by a non-negative integer keeps order. */
  lemma MulMonotone(c: int, a: int, b: int)
    requires 0 <= c && a <= b
    ensures c * a <= c * b
  {
    assert c * b - c * a == c * (b - a);
  }

  lemma PercentBounds(n: int, numberOfPhotons: int)
    requires 1 <= n <= numberOfPhotons
    ensures 0 <= (100 * n) / numberOfPhotons <= 100
    ensures n == numberOfPhotons <==> (100 * n) / numberOfPhotons == 100
  {
    var N := numberOfPhotons;
    var q := (100 * n) / N;
    var rem := (100 * n) % N;
    assert 100 * n == N * q + rem && 0 <= rem < N;
    if q < 0 {
      MulMonotone(N, q, -1);
      assert false;
    }
    if q > 100 {
      MulMonotone(N, 101, q);
      assert false;
    }
    if n == N && q < 100 {
      MulMonotone(N, q, 99);
      assert false;
    }
  }

  /**
   Which progress check the loop runs: the one the engine is written with,
   which throws for N below 10, or the one with its period floored at 1.
   */
  datatype ProgressRule = AsWritten | FlooredPeriod

  /** The progress check of photon n under rule: None when it throws, else whether a report is due. */
  function ProgressCheck(rule: ProgressRule, n: int, numberOfPhotons: int): (r: Common.Option<bool>)
    requires 1 <= n <= numberOfPhotons
    ensures r.None? <==> rule == AsWritten && numberOfPhotons < 10
    ensures r.Some? ==> r.value == ProgressDue(n, numberOfPhotons)
  {
    ProgressDueAgreesWhereDefined(n, numberOfPhotons);
    if rule == AsWritten then ProgressDueAsWritten(n, numberOfPhotons) else Common.Some(ProgressDue(n, numberOfPhotons))
  }

  // ---------------------------------------------------------------- the photon loop

  /**
   The status report of photon n, made before it is launched: None when the
   progress check throws, else the percentage done when a report is due and
   None when it is not.
   */
  function StatusReport(rule: ProgressRule, n: int, numberOfPhotons: int): (r: Common.Option<Common.Option<int>>)
    requires 1 <= n <= numberOfPhotons
    ensures r.None? <==> rule == AsWritten && numberOfPhotons < 10
    ensures r.Some? ==> (r.value.Some? <==> ProgressDue(n, numberOfPhotons))
    ensures r.Some? && r.value.Some? ==>
              && r.value.value == Percent(n, numberOfPhotons)
              && 0 <= r.value.value <= 100
              && (r.value.value == 100 <==> n == numberOfPhotons)
  {
    var due := ProgressCheck(rule, n, numberOfPhotons);
    if due.None? then Common.None
    else if due.value then Common.Some(Common.Some(Percent(n, numberOfPhotons)))
    else Common.Some(Common.None)
  }

  /** The status line a report prints: one DisplayStatus, or nothing. */
  function StatusLine<K>(n: int, report: Common.Option<int>): seq<Event<K>> {
    if report.Some? then [DisplayStatus(n, report.value)] else []
  }

  /**
   The calls made for photon n: its status line if due, its steps, then its
   history tally; None when the progress check throws or the photon outlives
   its fuel.
   */
  function PhotonEvents<K>(e: Engine<K>, rule: ProgressRule, n: int, numberOfPhotons: int, fuel: nat)
    : (r: Common.Option<seq<Event<K>>>)
    requires 1 <= n <= numberOfPhotons
    ensures rule == AsWritten && numberOfPhotons < 10 ==> r.None?
    ensures r.Some? ==> 0 < |r.value| && r.value[|r.value| - 1].HistoryTally?
    ensures r.Some? ==> Common.Alive !in r.value[|r.value| - 1].history.flags
  {
    var report := StatusReport(rule, n, numberOfPhotons);
    var life := Live(StepOf(e), e.nextPhoton(n), fuel);
    if report.None? || life.None? then Common.None
    else Common.Some(StatusLine(n, report.value) + life.value.events + [HistoryTally(life.value.photon)])
  }

  /** PhotonEvents for the photons the loop launches; None outside 1..N. */
  function PhotonRun<K>(e: Engine<K>, rule: ProgressRule, numberOfPhotons: int, fuel: nat)
    : int -> Common.Option<seq<Event<K>>>
  {
    n => if 1 <= n <= numberOfPhotons then PhotonEvents(e, rule, n, numberOfPhotons, fuel) else Common.None
  }

  /** The number of photons the loop launches: N, or none when N is not positive. */
  function Photons(numberOfPhotons: int): (k: nat)
    ensures k <= numberOfPhotons || k == 0
  {
    if numberOfPhotons <= 0 then 0 else numberOfPhotons
  }

  /**
   The calls made for photons 1 to k, in order, where run(n) is what running
   photon n produces; None when one of them does not finish.
   */
  function RunPrefix<E>(run: int -> Common.Option<seq<E>>, k: nat): Common.Option<seq<E>>
    decreases k
  {
    if k == 0 then Common.Some([])
    else
      var before := RunPrefix(run, k - 1);
      var current := run(k);
      if before.None? || current.None? then Common.None
      else Common.Some(before.value + current.value)
  }

  /** Once the prefix fails, every longer prefix fails, so failure names the first photon that did not finish. */
  lemma {:induction false} RunPrefixFailureSticks<E>(run: int -> Common.Option<seq<E>>, j: nat, k: nat)
    requires j <= k && RunPrefix(run, j).None?
    ensures RunPrefix(run, k).None?
    decreases k - j
  {
    if j < k {
      RunPrefixFailureSticks(run, j + 1, k);
    }
  }

  /** Runs that agree on photons 1 to k have the same prefix of length k. */
  lemma {:induction false} RunPrefixAgrees<E>(a: int -> Common.Option<seq<E>>, b: int -> Common.Option<seq<E>>, k: nat)
    requires forall n :: 1 <= n <= k ==> a(n) == b(n)
    ensures RunPrefix(a, k) == RunPrefix(b, k)
    decreases k
  {
    if k > 0 {
      RunPrefixAgrees(a, b, k - 1);
    }
  }

  /**
   From ten photons on, the two progress rules make the same calls for every
   prefix of the run: the written check throws only below ten.
   */
  lemma RunPrefixRulesAgreeFromTen<K>(e: Engine<K>, numberOfPhotons: int, fuel: nat, k: nat)
    requires 10 <= numberOfPhotons
    ensures RunPrefix(PhotonRun(e, AsWritten, numberOfPhotons, fuel), k)
         == RunPrefix(PhotonRun(e, FlooredPeriod, numberOfPhotons, fuel), k)
  {
    forall n | 1 <= n <= k
      ensures PhotonRun(e, AsWritten, numberOfPhotons, fuel)(n) == PhotonRun(e, FlooredPeriod, numberOfPhotons, fuel)(n)
    {
      PhotonRunRulesAgreeFromTen(e, numberOfPhotons, fuel, n);
    }
    RunPrefixAgrees(PhotonRun(e, AsWritten, numberOfPhotons, fuel), PhotonRun(e, FlooredPeriod, numberOfPhotons, fuel), k);
  }

  /** From ten photons on, each photon makes the same calls under both progress rules. */
  lemma PhotonRunRulesAgreeFromTen<K>(e: Engine<K>, numberOfPhotons: int, fuel: nat, n: int)
    requires 10 <= numberOfPhotons
    ensures PhotonRun(e, AsWritten, numberOfPhotons, fuel)(n) == PhotonRun(e, FlooredPeriod, numberOfPhotons, fuel)(n)
  {
    if 1 <= n <= numberOfPhotons {
      assert StatusReport(AsWritten, n, numberOfPhotons) == StatusReport(FlooredPeriod, n, numberOfPhotons);
    }
  }

  /** Photon n is the first whose run does not finish: photons 1 to n - 1 all finish. */
  predicate FirstUnfinished<E>(run: int -> Common.Option<seq<E>>, n: int) {
    1 <= n && RunPrefix(run, n - 1).Some? && run(n).None?
  }

  /**
   The loop over photons 1 to N, given what each photon's run produces: the
   calls of all runs in order followed by one NormalizeDetectors(N), or the
   index of the first photon whose run did not finish.
   */
  method PhotonLoop<K>(run: int -> Common.Option<seq<Event<K>>>, numberOfPhotons: int)
    returns (r: Common.Result<seq<Event<K>>, int>)
    ensures r.Success? <==> RunPrefix(run, Photons(numberOfPhotons)).Some?
    ensures r.Success? ==> r.value == RunPrefix(run, Photons(numberOfPhotons)).value + [NormalizeDetectors(numberOfPhotons)]
    ensures r.Failure? ==> r.error <= numberOfPhotons && FirstUnfinished(run, r.error)
  {
    var events: seq<Event<K>> := [];
    var count := Photons(numberOfPhotons);
    var n := 1;
    while n <= count
      invariant 1 <= n <= count + 1
      invariant RunPrefix(run, n - 1) == Common.Some(events)
    {
      var photonEvents := run(n);
      if photonEvents.None? {
        RunPrefixFailureSticks(run, n, count);
        return Common.Failure(n);
      }
      events := events + photonEvents.value;
      n := n + 1;
    }
    r := Common.Success(events + [NormalizeDetectors(numberOfPhotons)]);
  }

  /** Why the photon loop stopped: photon n's progress check threw, or photon n outlived its fuel. */
  datatype LoopFailure = ProgressCheckThrew(photon: int) | StillAlive(photon: int)

  /**
   The engine's photon loop: launch photons 1 to N, run each to its death,
   tally its history, and normalize all detectors once at the end. The result
   is the sequence of outcome-dependent calls made, or the first photon that
   did not finish and why. Under the written progress check a run of 1 to 9
   photons throws at photon 1, before anything is launched.
   */
  method ExecuteMCLoop<K>(e: Engine<K>, rule: ProgressRule, numberOfPhotons: int, fuel: nat)
    returns (r: Common.Result<seq<Event<K>>, LoopFailure>)
    ensures r.Success? <==> RunPrefix(PhotonRun(e, rule, numberOfPhotons, fuel), Photons(numberOfPhotons)).Some?
    ensures r.Success? ==>
              r.value == RunPrefix(PhotonRun(e, rule, numberOfPhotons, fuel), Photons(numberOfPhotons)).value
                         + [NormalizeDetectors(numberOfPhotons)]
    ensures r.Success? ==> 0 < |r.value| && r.value[|r.value| - 1] == NormalizeDetectors(numberOfPhotons)
    ensures r.Success? ==> CountNormalizations(r.value) == 1
    ensures r.Success? ==> CountHistoryTallies(r.value) == Photons(numberOfPhotons)
    ensures r.Failure? ==>
              && r.error.photon <= numberOfPhotons
              && FirstUnfinished(PhotonRun(e, rule, numberOfPhotons, fuel), r.error.photon)
              && PhotonEvents(e, rule, r.error.photon, numberOfPhotons, fuel).None?
    ensures r.Failure? ==> (r.error.ProgressCheckThrew? <==> rule == AsWritten && numberOfPhotons < 10)
    ensures rule == AsWritten && 1 <= numberOfPhotons < 10 ==> r == Common.Failure(ProgressCheckThrew(1))
  {
    var run := PhotonRun(e, rule, numberOfPhotons, fuel);
    var loop := PhotonLoop(run, numberOfPhotons);
    if loop.Success? {
      CompletedRunCounts(e, rule, numberOfPhotons, fuel);
      WrittenCheckStopsEveryPrefix(e, rule, numberOfPhotons, fuel, Photons(numberOfPhotons));
      r := Common.Success(loop.value);
    } else {
      var n := loop.error;
      assert run(n) == PhotonEvents(e, rule, n, numberOfPhotons, fuel);
      WrittenCheckStopsEveryPrefix(e, rule, numberOfPhotons, fuel, n - 1);
      if rule == AsWritten && numberOfPhotons < 10 {
        r := Common.Failure(ProgressCheckThrew(n));
      } else {
        r := Common.Failure(StillAlive(n));
      }
    }
  }

  /**
   Under the written progress check, a run of 1 to 9 photons makes no call at
   all: photon 1's check throws, so no prefix past photon 0 completes.
   */
  lemma WrittenCheckStopsEveryPrefix<K>(e: Engine<K>, rule: ProgressRule, numberOfPhotons: int, fuel: nat, k: nat)
    ensures rule == AsWritten && 1 <= numberOfPhotons < 10 && 1 <= k ==>
              RunPrefix(PhotonRun(e, rule, numberOfPhotons, fuel), k).None?
  {
    if rule == AsWritten && 1 <= numberOfPhotons < 10 && 1 <= k {
      var run := PhotonRun(e, rule, numberOfPhotons, fuel);
      assert run(1) == PhotonEvents(e, rule, 1, numberOfPhotons, fuel);
      RunPrefixFailureSticks(run, 1, k);
    }
  }

  function CountHistoryTallies<K>(events: seq<Event<K>>): nat {
    if events == [] then 0
    else (if events[0].HistoryTally? then 1 else 0) + CountHistoryTallies(events[1..])
  }

  function CountNormalizations<K>(events: seq<Event<K>>): nat {
    if events == [] then 0
    else (if events[0].NormalizeDetectors? then 1 else 0) + CountNormalizations(events[1..])
  }

  lemma {:induction false} CountsDistribute<K>(a: seq<Event<K>>, b: seq<Event<K>>)
    ensures CountHistoryTallies(a + b) == CountHistoryTallies(a) + CountHistoryTallies(b)
    ensures CountNormalizations(a + b) == CountNormalizations(a) + CountNormalizations(b)
    decreases |a|
  {
    if a != [] {
      assert (a + b)[0] == a[0];
      assert (a + b)[1..] == a[1..] + b;
      CountsDistribute(a[1..], b);
    } else {
      assert a + b == b;
    }
  }

  /** The calls of a single step contain neither history tallies nor normalizations. */
  lemma {:induction false} StepEventsCountNothing<K>(events: seq<Event<K>>)
    requires forall i :: 0 <= i < |events| ==> IsStepEvent(events[i])
    ensures CountHistoryTallies(events) == 0 && CountNormalizations(events) == 0
    decreases |events|
  {
    if events != [] {
      StepEventsCountNothing(events[1..]);
    }
  }

  /** The calls made for one photon include exactly one history tally, of a photon no longer Alive. */
  lemma PhotonEventsTallyHistoryOnce<K>(e: Engine<K>, rule: ProgressRule, n: int, numberOfPhotons: int, fuel: nat)
    requires 1 <= n <= numberOfPhotons
    requires PhotonEvents(e, rule, n, numberOfPhotons, fuel).Some?
    ensures CountHistoryTallies(PhotonEvents(e, rule, n, numberOfPhotons, fuel).value) == 1
    ensures CountNormalizations(PhotonEvents(e, rule, n, numberOfPhotons, fuel).value) == 0
    ensures forall i :: 0 <= i < |PhotonEvents(e, rule, n, numberOfPhotons, fuel).value| &&
                        PhotonEvents(e, rule, n, numberOfPhotons, fuel).value[i].HistoryTally? ==>
              Common.Alive !in PhotonEvents(e, rule, n, numberOfPhotons, fuel).value[i].history.flags
  {
    var life := Live(StepOf(e), e.nextPhoton(n), fuel).value;
    StepOfWellShaped(e);
    LiveMakesOnlyStepCalls(StepOf(e), e.nextPhoton(n), fuel);
    OnePhotonCounts(StatusLine(n, StatusReport(rule, n, numberOfPhotons).value), life.events, life.photon);
  }

  /**
   A status line, then step calls, then one history tally: exactly one history
   tally, of the given photon, and no normalization.
   */
  lemma OnePhotonCounts<K>(status: seq<Event<K>>, steps: seq<Event<K>>, last: Photon<K>)
    requires forall i :: 0 <= i < |status| ==> status[i].DisplayStatus?
    requires forall i :: 0 <= i < |steps| ==> IsStepEvent(steps[i])
    ensures var all := status + steps + [HistoryTally(last)];
            && CountHistoryTallies(all) == 1
            && CountNormalizations(all) == 0
            && forall i :: 0 <= i < |all| && all[i].HistoryTally? ==> all[i].history == last
  {
    var tally: seq<Event<K>> := [HistoryTally(last)];
    StatusCountsNothing(status);
    StepEventsCountNothing(steps);
    CountsDistribute(status, steps);
    CountsDistribute(status + steps, tally);
  }

  /** Status lines contain neither history tallies nor normalizations. */
  lemma {:induction false} StatusCountsNothing<K>(status: seq<Event<K>>)
    requires forall i :: 0 <= i < |status| ==> status[i].DisplayStatus?
    ensures CountHistoryTallies(status) == 0 && CountNormalizations(status) == 0
    decreases |status|
  {
    if status != [] {
      StatusCountsNothing(status[1..]);
    }
  }

  /**
   If every photon's calls hold exactly one history tally and no
   normalization, then the calls of photons 1 to k hold k history tallies and
   no normalization.
   */
  lemma {:induction false} RunPrefixCounts<K>(run: int -> Common.Option<seq<Event<K>>>, k: nat)
    requires forall n :: 1 <= n <= k && run(n).Some? ==>
               CountHistoryTallies(run(n).value) == 1 && CountNormalizations(run(n).value) == 0
    ensures RunPrefix(run, k).Some? ==>
              CountHistoryTallies(RunPrefix(run, k).value) == k && CountNormalizations(RunPrefix(run, k).value) == 0
    decreases k
  {
    if k > 0 && RunPrefix(run, k).Some? {
      RunPrefixCounts(run, k - 1);
      CountsDistribute(RunPrefix(run, k - 1).value, run(k).value);
    }
  }

  /**
   After k photons the history detectors have been tallied exactly k times and
   nothing has been normalized yet.
   */
  lemma RunPrefixTalliesEachHistoryOnce<K>(e: Engine<K>, rule: ProgressRule, numberOfPhotons: int, fuel: nat, k: nat)
    ensures var prefix := RunPrefix(PhotonRun(e, rule, numberOfPhotons, fuel), k);
            prefix.Some? ==> CountHistoryTallies(prefix.value) == k && CountNormalizations(prefix.value) == 0
  {
    var run := PhotonRun(e, rule, numberOfPhotons, fuel);
    forall n | 1 <= n <= k && run(n).Some?
      ensures CountHistoryTallies(run(n).value) == 1 && CountNormalizations(run(n).value) == 0
    {
      PhotonEventsTallyHistoryOnce(e, rule, n, numberOfPhotons, fuel);
    }
    RunPrefixCounts(run, k);
  }

  /** A completed run tallies one history per photon launched and normalizes once, last. */
  lemma CompletedRunCounts<K>(e: Engine<K>, rule: ProgressRule, numberOfPhotons: int, fuel: nat)
    ensures var prefix := RunPrefix(PhotonRun(e, rule, numberOfPhotons, fuel), Photons(numberOfPhotons));
            prefix.Some? ==>
              var events := prefix.value + [NormalizeDetectors(numberOfPhotons)];
              && CountNormalizations(events) == 1
              && CountHistoryTallies(events) == Photons(numberOfPhotons)
  {
    var k := Photons(numberOfPhotons);
    RunPrefixTalliesEachHistoryOnce(e, rule, numberOfPhotons, fuel, k);
    if RunPrefix(PhotonRun(e, rule, numberOfPhotons, fuel), k).Some? {
      var normalize: seq<Event<K>> := [NormalizeDetectors(numberOfPhotons)];
      CountsDistribute(RunPrefix(PhotonRun(e, rule, numberOfPhotons, fuel), k).value, normalize);
      assert CountNormalizations(normalize) == 1 && CountHistoryTallies(normalize) == 0;
    }
  }

  // ---------------------------------------------------------------- construction

  /** The run options the constructor reads. */
  datatype SimulationOptions = SimulationOptions(trackStatistics: bool, tallySecondMoment: bool, seed: int)

  /** A simulation input; I holds the tissue, source and detector inputs the factories consume. */
  datatype SimulationInput<I> = SimulationInput(n: int, options: SimulationOptions, rest: I)

  /** The parts the constructor builds. */
  datatype Component =
    | Statistics
    | RandomNumberGenerator
    | TissueComponent
    | SourceComponent
    | DetectorsComponent
    | DetectorControllerComponent
    | VirtualBoundaryControllerComponent

  /** Which parts each part is built from. */
  function Dependencies(c: Component): set<Component> {
    match c
    case Statistics => {}
    case RandomNumberGenerator => {}
    case TissueComponent => {}
    case SourceComponent => {TissueComponent, RandomNumberGenerator}
    case DetectorsComponent => {TissueComponent}
    case DetectorControllerComponent => {DetectorsComponent}
    case VirtualBoundaryControllerComponent => {DetectorControllerComponent, TissueComponent}
  }

  /** Building cs in order, with the parts in built already there, never needs a part not yet built. */
  predicate BuiltAfterDependencies(cs: seq<Component>, built: set<Component>)
    decreases |cs|
  {
    cs == [] || (Dependencies(cs[0]) <= built && BuiltAfterDependencies(cs[1..], built + {cs[0]}))
  }

  /** The step-by-step check means each part's dependencies were there before it or come earlier in cs. */
  lemma {:induction false} BuiltAfterDependenciesInOrder(cs: seq<Component>, built: set<Component>)
    requires BuiltAfterDependencies(cs, built)
    ensures forall i, d :: 0 <= i < |cs| && d in Dependencies(cs[i]) ==> d in built || d in cs[..i]
    decreases |cs|
  {
    if cs != [] {
      BuiltAfterDependenciesInOrder(cs[1..], built + {cs[0]});
      forall i, d | 0 < i < |cs| && d in Dependencies(cs[i])
        ensures d in built || d in cs[..i]
      {
        assert cs[1..][i - 1] == cs[i];
        assert d in built + {cs[0]} || d in cs[1..][..i - 1];
        assert cs[..i] == [cs[0]] + cs[1..][..i - 1];
      }
    }
  }

  /** The parts after the optional statistics, in the order the constructor builds them. */
  const ConstructionOrder: seq<Component> := [
    RandomNumberGenerator, TissueComponent, SourceComponent, DetectorsComponent,
    DetectorControllerComponent, VirtualBoundaryControllerComponent]

  lemma ConstructionOrderBuildable()
    ensures BuiltAfterDependencies(ConstructionOrder, {})
  {
    var r, t, src, det, dc, vbc := RandomNumberGenerator, TissueComponent, SourceComponent, DetectorsComponent,
                                   DetectorControllerComponent, VirtualBoundaryControllerComponent;
    assert BuiltAfterDependencies([vbc], {r, t, src, det, dc});
    assert {r, t, src, det} + {dc} == {r, t, src, det, dc};
    assert BuiltAfterDependencies([dc, vbc], {r, t, src, det});
    assert [det, dc, vbc][1..] == [dc, vbc];
    assert {r, t, src} + {det} == {r, t, src, det};
    assert BuiltAfterDependencies([det, dc, vbc], {r, t, src});
    assert [src, det, dc, vbc][1..] == [det, dc, vbc];
    assert {r, t} + {src} == {r, t, src};
    assert BuiltAfterDependencies([src, det, dc, vbc], {r, t});
    assert [t, src, det, dc, vbc][1..] == [src, det, dc, vbc];
    assert {r} + {t} == {r, t};
    assert BuiltAfterDependencies([t, src, det, dc, vbc], {r});
    assert {} + {r} == {r};
    assert ConstructionOrder[1..] == [t, src, det, dc, vbc];
  }

  /** Parts already built only help: a buildable order stays buildable from a larger start. */
  lemma {:induction false} BuiltAfterDependenciesWiden(cs: seq<Component>, built: set<Component>, more: set<Component>)
    requires BuiltAfterDependencies(cs, built) && built <= more
    ensures BuiltAfterDependencies(cs, more)
    decreases |cs|
  {
    if cs != [] {
      BuiltAfterDependenciesWiden(cs[1..], built + {cs[0]}, more + {cs[0]});
    }
  }

  /** The parts built, in order: the statistics first when tracked, then the rest. */
  function Components(trackStatistics: bool): seq<Component> {
    (if trackStatistics then [Statistics] else []) + ConstructionOrder
  }

  /** The build order holds every part but the statistics, and the statistics exactly when tracked. */
  lemma ComponentsHoldEveryPart(trackStatistics: bool)
    ensures forall c :: c in Components(trackStatistics) <==> c != Statistics || trackStatistics
  {
    var components := Components(trackStatistics);
    forall c
      ensures c in components <==> c != Statistics || trackStatistics
    {
      match c
      case Statistics => assert Statistics !in ConstructionOrder;
      case RandomNumberGenerator => assert components[|components| - 6] == c;
      case TissueComponent => assert components[|components| - 5] == c;
      case SourceComponent => assert components[|components| - 4] == c;
      case DetectorsComponent => assert components[|components| - 3] == c;
      case DetectorControllerComponent => assert components[|components| - 2] == c;
      case VirtualBoundaryControllerComponent => assert components[|components| - 1] == c;
    }
  }

  lemma ComponentsBuildable(trackStatistics: bool)
    ensures forall c :: c in Components(trackStatistics) <==> c != Statistics || trackStatistics
    ensures BuiltAfterDependencies(Components(trackStatistics), {})
    ensures forall i, d :: 0 <= i < |Components(trackStatistics)| && d in Dependencies(Components(trackStatistics)[i]) ==>
              d in Components(trackStatistics)[..i]
  {
    var components := Components(trackStatistics);
    ComponentsHoldEveryPart(trackStatistics);
    ConstructionOrderBuildable();
    if trackStatistics {
      BuiltAfterDependenciesWiden(ConstructionOrder, {}, {Statistics});
      assert components[0] == Statistics && components[1..] == ConstructionOrder;
      assert {} + {Statistics} == {Statistics};
    } else {
      assert components == ConstructionOrder;
    }
    BuiltAfterDependenciesInOrder(components, {});
  }

  datatype Simulation = Simulation(numberOfPhotons: int, options: SimulationOptions, components: seq<Component>)

  /** The text of the exception thrown for an invalid input: the rule, then "; " and the remarks if any. */
  function ErrorMessage(result: VolumeVbValidation.ValidationResult): (message: string)
    ensures |result.validationRule| <= |message|
    ensures message[..|result.validationRule|] == result.validationRule
    ensures result.remarks == [] ==> message == result.validationRule
    ensures result.remarks != [] ==> message[|result.validationRule|..] == "; " + result.remarks
  {
    result.validationRule + (if result.remarks != [] then "; " + result.remarks else [])
  }

  /**
   Construct a simulation: validate first and fail with the validation message,
   building nothing; otherwise build the parts in dependency order, the
   statistics only when they are tracked.
   */
  function Construct<I>(input: SimulationInput<I>, validate: SimulationInput<I> -> VolumeVbValidation.ValidationResult)
    : (r: Common.Result<Simulation, string>)
    ensures r.Failure? <==> !validate(input).isValid
    ensures r.Failure? ==> r.error == ErrorMessage(validate(input))
    ensures r.Success? ==> r.value.numberOfPhotons == input.n && r.value.options == input.options
    ensures r.Success? ==> (Statistics in r.value.components <==> input.options.trackStatistics)
    ensures r.Success? ==> forall c :: c in r.value.components <==> c != Statistics || input.options.trackStatistics
    ensures r.Success? ==> forall i, d :: 0 <= i < |r.value.components| && d in Dependencies(r.value.components[i]) ==>
              d in r.value.components[..i]
  {
    var result := validate(input);
    if !result.isValid then
      Common.Failure(ErrorMessage(result))
    else
      var components := Components(input.options.trackStatistics);
      ComponentsBuildable(input.options.trackStatistics);
      Common.Success(Simulation(input.n, input.options, components))
  }

  /** Every part is built exactly once, so no part is rebuilt from a later state. */
  lemma ConstructBuildsEachPartOnce<I>(input: SimulationInput<I>, validate: SimulationInput<I> -> VolumeVbValidation.ValidationResult)
    requires validate(input).isValid
    ensures forall i, j :: 0 <= i < j < |Construct(input, validate).value.components| ==>
              Construct(input, validate).value.components[i] != Construct(input, validate).value.components[j]
    ensures TissueComponent in Construct(input, validate).value.components
  {
  }
}
