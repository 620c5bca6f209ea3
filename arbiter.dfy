/** The step arbiter of `analysis` as pure functions over the objects' current steps:
    the per-tick decision, one tick of the run loop and the whole run. The table-level
    state that realises these (the `current_flg` and `created_at` columns) is in
    module Simulation. */
module Arbiter {
  import opened Geometry
  import opened MasterTable

  /** Hard-coded guard of the interference branch: object 1's next step may not reach 100. */
  const StepLimit: nat := 100

  /** What one tick decides once both objects have a current row. */
  datatype Verdict =
    | AdvanceBoth          // no interference: both objects step
    | AdvanceOnly(k: ObjId) // interference: only object k steps
    | Halt                 // the step guard stops the run
    | NoLookahead          // the preferred object has no next row: the lookahead query fails

  /** The object the interference branch tries first: object 1 only when its
      `priority_no` is strictly smaller; equal priorities prefer object 2. */
  function Preferred(m: Master): ObjId
  {
    if m.obj1.priority < m.obj2.priority then 1 else 2
  }

  /** The preferred object never has a larger priority number than the other one, and
      object 1 is preferred exactly when it has the strictly smaller number. */
  lemma PreferredHasPrecedence(m: Master)
    ensures m.Obj(Preferred(m)).priority <= m.Obj(Other(Preferred(m))).priority
    ensures Preferred(m) == 1 <==> m.obj1.priority < m.obj2.priority
    ensures m.obj1.priority == m.obj2.priority ==> Preferred(m) == 2
  {
  }

  /** Position of object k at step s1 or s2, whichever is its own. */
  function PosAt(m: Master, k: ObjId, s1: nat, s2: nat): Point
    requires s1 < m.Count(1) && s2 < m.Count(2)
  {
    if k == 1 then m.obj1.path[s1] else m.obj2.path[s2]
  }

  /** One tick's decision for objects at steps s1 and s2, with the distance tests
      done on squares. */
  function Decide(m: Master, s1: nat, s2: nat): Verdict
    requires s1 < m.Count(1) && s2 < m.Count(2)
  {
    var sum := m.BarrierSum();
    var p1 := m.obj1.path[s1];
    var p2 := m.obj2.path[s2];
    if Apart(sum, p1, p2) then AdvanceBoth
    else if s1 + 1 >= StepLimit then Halt
    else if Preferred(m) == 1 then
      if s1 + 1 >= m.Count(1) then NoLookahead
      else if AheadClear(sum, m.obj1.path[s1 + 1], p2) then AdvanceOnly(1)
      else AdvanceOnly(2)
    else
      if s2 + 1 >= m.Count(2) then NoLookahead
      else if AheadClear(sum, p1, m.obj2.path[s2 + 1]) then AdvanceOnly(2)
      else AdvanceOnly(1)
  }

  /** The same decision as the source writes it, on the Euclidean distances themselves:
      `d` between the two current positions and `dAhead` between the preferred object's
      next position and the other object's current one. */
  function DecideOnDistances(m: Master, s1: nat, s2: nat, d: real, dAhead: real): Verdict
    requires s1 < m.Count(1) && s2 < m.Count(2)
  {
    var sum := m.BarrierSum();
    if sum < d then AdvanceBoth
    else if s1 + 1 >= StepLimit then Halt
    else if m.obj1.priority < m.obj2.priority then
      if s1 + 1 >= m.Count(1) then NoLookahead
      else if RatioBelowTwo(sum, dAhead) then AdvanceOnly(1)
      else AdvanceOnly(2)
    else
      if s2 + 1 >= m.Count(2) then NoLookahead
      else if RatioBelowTwo(sum, dAhead) then AdvanceOnly(2)
      else AdvanceOnly(1)
  }

  /** With non-negative barrier ranges, deciding on squared distances gives the same
      verdict as the source's square-root and division tests, for every pair of steps. */
  lemma DecideAgreesWithDistances(m: Master, s1: nat, s2: nat, d: real, dAhead: real)
    requires m.WellFormed() && s1 < m.Count(1) && s2 < m.Count(2)
    requires d >= 0.0 && d * d == SqDist(m.obj1.path[s1], m.obj2.path[s2])
    requires dAhead >= 0.0
    requires Preferred(m) == 1 && s1 + 1 < m.Count(1) ==>
               dAhead * dAhead == SqDist(m.obj1.path[s1 + 1], m.obj2.path[s2])
    requires Preferred(m) == 2 && s2 + 1 < m.Count(2) ==>
               dAhead * dAhead == SqDist(m.obj1.path[s1], m.obj2.path[s2 + 1])
    ensures Decide(m, s1, s2) == DecideOnDistances(m, s1, s2, d, dAhead)
  {
    var sum := m.BarrierSum();
    BelowIffSquareBelow(sum, d, SqDist(m.obj1.path[s1], m.obj2.path[s2]));
    if Preferred(m) == 1 && s1 + 1 < m.Count(1) {
      RatioIffSquareBelow(sum, dAhead, SqDist(m.obj1.path[s1 + 1], m.obj2.path[s2]));
    } else if Preferred(m) == 2 && s2 + 1 < m.Count(2) {
      RatioIffSquareBelow(sum, dAhead, SqDist(m.obj1.path[s1], m.obj2.path[s2 + 1]));
    }
  }

  /** The lookahead rule, stated for whichever object is preferred: under interference,
      below the step guard and with a next row for the preferred object P, P steps when
      its next position keeps the margin against the other object's current position,
      and otherwise the other object steps instead. */
  lemma LookaheadRule(m: Master, s1: nat, s2: nat)
    requires s1 < m.Count(1) && s2 < m.Count(2)
    requires !Apart(m.BarrierSum(), m.obj1.path[s1], m.obj2.path[s2]) && s1 + 1 < StepLimit
    requires Preferred(m) == 1 ==> s1 + 1 < m.Count(1)
    requires Preferred(m) == 2 ==> s2 + 1 < m.Count(2)
    ensures var pk := Preferred(m);
            var ahead := if pk == 1 then m.obj1.path[s1 + 1] else m.obj2.path[s2 + 1];
            Decide(m, s1, s2) ==
              if AheadClear(m.BarrierSum(), ahead, PosAt(m, Other(pk), s1, s2))
              then AdvanceOnly(pk) else AdvanceOnly(Other(pk))
  {
    var pk := Preferred(m);
    if pk == 1 {
      assert PosAt(m, Other(pk), s1, s2) == m.obj2.path[s2];
    } else {
      assert PosAt(m, Other(pk), s1, s2) == m.obj1.path[s1];
      assert SqDist(m.obj2.path[s2 + 1], m.obj1.path[s1]) == SqDist(m.obj1.path[s1], m.obj2.path[s2 + 1]);
    }
  }

  /** An object's current step, or Exhausted once it has no current row. */
  datatype Pos = At(step: nat) | Exhausted

  predicate ValidPos(m: Master, k: ObjId, p: Pos)
  {
    p.At? ==> p.step < m.Count(k)
  }

  /** The position right after loading: step 0, or none for an object without rows. */
  function Start(m: Master, k: ObjId): Pos
  {
    if m.Count(k) > 0 then At(0) else Exhausted
  }

  /** Where one advance from step s of an object with n rows leads: the next step, or
      none after the last row. */
  function Moved(s: nat, n: nat): (q: Pos)
    ensures q.At? ==> q.step == s + 1 && q.step < n
  {
    if s + 1 < n then At(s + 1) else Exhausted
  }

  /** q is p or one step further. */
  predicate StaysOrSteps(m: Master, k: ObjId, p: Pos, q: Pos)
    requires ValidPos(m, k, p)
  {
    q == p || (p.At? && q == Moved(p.step, m.Count(k)))
  }

  /** Why a tick ended: it advanced (the loop goes on), or one of the three ways the
      loop stops — an object without a current row, the step guard, or the failed
      lookahead query. */
  datatype Outcome = Advanced | NoCurrentRow | StepLimitReached | LookaheadMissing

  datatype TickResult = TickResult(outcome: Outcome, pos1: Pos, pos2: Pos)

  /** One iteration of the loop of `analysis`, on the objects' current steps. */
  function TickSpec(m: Master, p1: Pos, p2: Pos): (r: TickResult)
    requires ValidPos(m, 1, p1) && ValidPos(m, 2, p2)
    ensures ValidPos(m, 1, r.pos1) && ValidPos(m, 2, r.pos2)
  {
    if p1 == Exhausted || p2 == Exhausted then TickResult(NoCurrentRow, p1, p2)
    else
      match Decide(m, p1.step, p2.step)
      case AdvanceBoth => TickResult(Advanced, Moved(p1.step, m.Count(1)), Moved(p2.step, m.Count(2)))
      case AdvanceOnly(k) =>
        if k == 1 then TickResult(Advanced, Moved(p1.step, m.Count(1)), p2)
        else TickResult(Advanced, p1, Moved(p2.step, m.Count(2)))
      case Halt => TickResult(StepLimitReached, p1, p2)
      case NoLookahead => TickResult(LookaheadMissing, p1, p2)
  }

  /** What one iteration does to the objects: each stays or moves exactly one step; the
      loop stops on a missing current row exactly when an object has none; a tick
      advances exactly when it moves something; both move exactly when they are apart;
      the guard stops the run exactly under interference with object 1's next step at
      the limit; and the lookahead query fails exactly under interference, below the
      guard, when the preferred object has no next row. */
  lemma TickSpecMeaning(m: Master, p1: Pos, p2: Pos)
    requires ValidPos(m, 1, p1) && ValidPos(m, 2, p2)
    ensures var r := TickSpec(m, p1, p2);
      && StaysOrSteps(m, 1, p1, r.pos1) && StaysOrSteps(m, 2, p2, r.pos2)
      && (r.outcome == NoCurrentRow <==> p1 == Exhausted || p2 == Exhausted)
      && (r.outcome == Advanced <==> r.pos1 != p1 || r.pos2 != p2)
      && (r.pos1 != p1 && r.pos2 != p2 <==>
            p1.At? && p2.At? && Apart(m.BarrierSum(), m.obj1.path[p1.step], m.obj2.path[p2.step]))
      && (r.outcome == StepLimitReached <==>
            p1.At? && p2.At? && !Apart(m.BarrierSum(), m.obj1.path[p1.step], m.obj2.path[p2.step])
            && p1.step + 1 >= StepLimit)
      && (r.outcome == LookaheadMissing <==>
            p1.At? && p2.At? && !Apart(m.BarrierSum(), m.obj1.path[p1.step], m.obj2.path[p2.step])
            && p1.step + 1 < StepLimit
            && (if Preferred(m) == 1 then p1.step + 1 >= m.Count(1) else p2.step + 1 >= m.Count(2)))
  {
  }

  datatype RunResult = RunResult(outcome: Outcome, pos1: Pos, pos2: Pos, ticks: nat)

  /** The loop of `analysis` with `budget` iterations left: ticks until one stops it. */
  function RunSpec(m: Master, p1: Pos, p2: Pos, budget: nat): (r: RunResult)
    requires ValidPos(m, 1, p1) && ValidPos(m, 2, p2)
    ensures ValidPos(m, 1, r.pos1) && ValidPos(m, 2, r.pos2)
    ensures r.ticks <= budget
    // a run that is not stopped uses up all its iterations
    ensures r.outcome == Advanced ==> r.ticks == budget
    decreases budget
  {
    if budget == 0 then RunResult(Advanced, p1, p2, 0)
    else
      var t := TickSpec(m, p1, p2);
      if t.outcome != Advanced then RunResult(t.outcome, t.pos1, t.pos2, 1)
      else
        var r := RunSpec(m, t.pos1, t.pos2, budget - 1);
        RunResult(r.outcome, r.pos1, r.pos2, r.ticks + 1)
  }

  /** A stopped run ends in a state where the next tick would stop it the same way:
      the stopping tick changed nothing. */
  lemma {:induction false} RunStopsAsTickWould(m: Master, p1: Pos, p2: Pos, budget: nat)
    requires ValidPos(m, 1, p1) && ValidPos(m, 2, p2)
    ensures var r := RunSpec(m, p1, p2, budget);
      r.outcome != Advanced ==> TickSpec(m, r.pos1, r.pos2).outcome == r.outcome
    decreases budget
  {
    if budget > 0 {
      var t := TickSpec(m, p1, p2);
      TickSpecMeaning(m, p1, p2);
      if t.outcome == Advanced {
        RunStopsAsTickWould(m, t.pos1, t.pos2, budget - 1);
      }
    }
  }

  /** `total` is a run that, after `done` ticks, stands at (p1, p2) with `budget`
      iterations left. */
  ghost predicate Tracks(m: Master, total: RunResult, p1: Pos, p2: Pos, budget: nat, done: nat)
  {
    && ValidPos(m, 1, p1) && ValidPos(m, 2, p2)
    && var r := RunSpec(m, p1, p2, budget);
       total == RunResult(r.outcome, r.pos1, r.pos2, r.ticks + done)
  }

  /** A run with iterations left is its first tick followed, when that tick advances,
      by the run from where the tick left the objects. */
  lemma RunUnfolds(m: Master, total: RunResult, p1: Pos, p2: Pos, budget: nat, done: nat,
                   o: Outcome, q1: Pos, q2: Pos)
    requires Tracks(m, total, p1, p2, budget, done) && budget > 0
    requires TickSpec(m, p1, p2) == TickResult(o, q1, q2)
    ensures o != Advanced ==> total == RunResult(o, q1, q2, done + 1)
    ensures o == Advanced ==> Tracks(m, total, q1, q2, budget - 1, done + 1)
  {
  }

  /** An upper bound on the ticks left before the loop stops: the rows still ahead of
      both objects, or a single tick once one of them has none. */
  function Remaining(m: Master, p1: Pos, p2: Pos): nat
    requires ValidPos(m, 1, p1) && ValidPos(m, 2, p2)
  {
    if p1.At? && p2.At? then (m.Count(1) - p1.step) + (m.Count(2) - p2.step) else 1
  }

  /** Given at least Remaining iterations, the loop is always stopped by one of its
      breaks, after at most Remaining ticks. */
  lemma {:induction false} RunEndsByBreak(m: Master, p1: Pos, p2: Pos, budget: nat)
    requires ValidPos(m, 1, p1) && ValidPos(m, 2, p2)
    requires budget >= Remaining(m, p1, p2)
    ensures RunSpec(m, p1, p2, budget).outcome != Advanced
    ensures RunSpec(m, p1, p2, budget).ticks <= Remaining(m, p1, p2)
    decreases budget
  {
    var t := TickSpec(m, p1, p2);
    TickSpecMeaning(m, p1, p2);
    if t.outcome == Advanced {
      assert Remaining(m, t.pos1, t.pos2) < Remaining(m, p1, p2);
      RunEndsByBreak(m, t.pos1, t.pos2, budget - 1);
    }
  }

  /** The `for` loop over `len(df_pre)` iterations never runs out: from any state, on a
      non-empty table, a break ends the run within `len(df_pre)` ticks. */
  lemma TableLengthBoundsRun(m: Master, p1: Pos, p2: Pos)
    requires ValidPos(m, 1, p1) && ValidPos(m, 2, p2)
    requires m.Size() > 0
    ensures RunSpec(m, p1, p2, m.Size()).outcome != Advanced
    ensures RunSpec(m, p1, p2, m.Size()).ticks <= m.Size()
  {
    RunEndsByBreak(m, p1, p2, m.Size());
  }
}
