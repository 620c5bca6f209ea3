/** The working table `df_pre` of the simulator: the master table's rows with the two
    columns the run changes in place, `current_flg` and `created_at`. The constructor
    is the column initialisation at the end of `read_sqlite`; Tick is one iteration of
    the loop of `analysis` and Analysis the whole loop. The wall clock is a tick
    counter: loading happens at time 0 and the i-th tick (from 1) runs at time i. */
module Simulation {
  import opened MasterTable
  import opened Arbiter
  import opened Table

  class Simulation {
    const master: Master
    /** `current_flg`, one cell per row of the master table. */
    const flag: array<bool>
    /** `created_at`, one cell per row of the master table. */
    const createdAt: array<Stamp>
    /** Time of the latest tick (`nowt`); 0 at load time. */
    var clock: nat

    /** The step the query for object k reads as its current one (lines 120-127). */
    ghost function CurrentStep(k: ObjId): Pos
      reads this, flag
      requires flag.Length == master.Size()
    {
      Cur(master, flag[..], k)
    }

    ghost predicate Valid()
      reads this, flag, createdAt
    {
      && master.WellFormed()
      && flag.Length == master.Size()
      && createdAt.Length == master.Size()
      && TableValid(master, flag[..], createdAt[..], clock)
    }

    /** Lines 86-105: every flag starts at 0 and `created_at` at NaT; then the step-0
        rows become current, stamped with the load time. */
    constructor (m: Master)
      requires m.WellFormed()
      ensures Valid()
      ensures master == m && clock == 0
      ensures fresh(flag) && fresh(createdAt)
      ensures flag[..] == InitialFlags(m) && createdAt[..] == InitialStamps(m)
      ensures CurrentStep(1) == Start(m, 1) && CurrentStep(2) == Start(m, 2)
    {
      master := m;
      flag := new bool[m.Size()](i requires 0 <= i < m.Size() => m.StepOf(i) == 0);
      createdAt := new Stamp[m.Size()](i requires 0 <= i < m.Size() =>
                     if m.StepOf(i) == 0 then Stamped(0) else NaT);
      clock := 0;
      new;
      assert flag[..] == InitialFlags(m);
      assert createdAt[..] == InitialStamps(m);
      InitialValid(m);
    }

    /** One advance of object k from step s (lines 142-146, 147-151, 165-169,
        175-179, 188-192, 195-199), on the rows of object k. */
    method Advance(k: ObjId, s: nat, nowt: nat)
      requires flag.Length == master.Size() && createdAt.Length == master.Size()
      requires s < master.Count(k)
      modifies flag, createdAt
      ensures flag[..] == AdvanceFlags(master, ObjectId(k), old(flag[..]), s)
      ensures createdAt[..] == AdvanceStamps(master, ObjectId(k), old(flag[..]), old(createdAt[..]), s, nowt)
    {
      var here := master.Row(k, s);
      var wasNextCurrent := s + 1 < master.Count(k) && flag[master.Row(k, s + 1)];
      if flag[here] {
        flag[here] := false;
      }
      if s + 1 < master.Count(k) && !wasNextCurrent {
        var next := master.Row(k, s + 1);
        flag[next] := true;
        createdAt[next] := Stamped(nowt);
      }
      forall i | 0 <= i < master.Size()
        ensures flag[i] == AdvanceFlags(master, ObjectId(k), old(flag[..]), s)[i]
        ensures createdAt[i] == AdvanceStamps(master, ObjectId(k), old(flag[..]), old(createdAt[..]), s, nowt)[i]
      {
        AdvanceAt(master, k, old(flag[..]), old(createdAt[..]), s, nowt, i);
      }
    }

    /** One iteration of the loop of `analysis` (lines 118-199): the columns change as
        TickRows says, so the objects move as TickSpec says and the rows that become
        current are exactly the rows stamped with this tick's time. */
    method Tick() returns (outcome: Outcome)
      requires Valid()
      modifies this, flag, createdAt
      ensures Valid()
      ensures clock == old(clock) + 1
      ensures TickRows(master, old(flag[..]), old(createdAt[..]), clock)
              == TableTick(outcome, flag[..], createdAt[..])
      ensures TickSpec(master, old(CurrentStep(1)), old(CurrentStep(2))) == TickResult(outcome, CurrentStep(1), CurrentStep(2))
      ensures StampedWhenReached(old(flag[..]), old(createdAt[..]), flag[..], createdAt[..], clock)
    {
      ghost var f0, t0, c0 := flag[..], createdAt[..], clock;
      outcome := UpdateRows();
      TickRowsRefines(master, f0, t0, c0, clock, outcome, flag[..], createdAt[..]);
    }

    /** The body of one iteration, on the rows: read both objects' current steps, decide,
        and apply the advances the verdict calls for at time `clock + 1`. */
    method UpdateRows() returns (outcome: Outcome)
      requires flag.Length == master.Size() && createdAt.Length == master.Size()
      modifies this, flag, createdAt
      ensures clock == old(clock) + 1
      ensures TickRows(master, old(flag[..]), old(createdAt[..]), clock)
              == TableTick(outcome, flag[..], createdAt[..])
    {
      var nowt := clock + 1;
      var c1 := FirstCurrent(flag[..], master.Base(1), master.Count(1));
      var c2 := FirstCurrent(flag[..], master.Base(2), master.Count(2));
      if c1 == Exhausted || c2 == Exhausted {
        outcome := NoCurrentRow;
      } else {
        var s1, s2 := c1.step, c2.step;
        match Decide(master, s1, s2) {
          case AdvanceBoth =>
            Advance(1, s1, nowt);
            Advance(2, s2, nowt);
            outcome := Advanced;
          case AdvanceOnly(k) =>
            Advance(k, if k == 1 then s1 else s2, nowt);
            outcome := Advanced;
          case Halt =>
            outcome := StepLimitReached;
          case NoLookahead =>
            outcome := LookaheadMissing;
        }
      }
      clock := nowt;
    }

    /** One iteration seen from the run: if the loop, having done `done` ticks, stands
        where the run `total` has `budget` iterations left, then after this tick it either
        has stopped exactly as `total` says or stands where `total` has one iteration
        fewer left. */
    method Iterate(ghost total: RunResult, ghost budget: nat, ghost done: nat) returns (outcome: Outcome)
      requires Valid() && budget > 0
      requires Tracks(master, total, CurrentStep(1), CurrentStep(2), budget, done)
      modifies this, flag, createdAt
      ensures Valid() && clock == old(clock) + 1
      ensures outcome != Advanced ==> total == RunResult(outcome, CurrentStep(1), CurrentStep(2), done + 1)
      ensures outcome == Advanced ==> Tracks(master, total, CurrentStep(1), CurrentStep(2), budget - 1, done + 1)
    {
      ghost var p1, p2 := CurrentStep(1), CurrentStep(2);
      outcome := Tick();
      RunUnfolds(master, total, p1, p2, budget, done, outcome, CurrentStep(1), CurrentStep(2));
    }

    /** The loop of `analysis` (lines 116-200): at most `len(df_pre)` ticks, leaving the
        loop at the first tick that breaks. It runs as RunSpec says and, on a non-empty
        table, always ends by a break within `len(df_pre)` ticks. */
    method Analysis() returns (outcome: Outcome, ticks: nat)
      requires Valid()
      modifies this, flag, createdAt
      ensures Valid()
      ensures RunSpec(master, old(CurrentStep(1)), old(CurrentStep(2)), master.Size()) == RunResult(outcome, CurrentStep(1), CurrentStep(2), ticks)
      ensures clock == old(clock) + ticks
      ensures master.Size() > 0 ==> outcome != Advanced && ticks <= master.Size()
    {
      ghost var p1, p2 := CurrentStep(1), CurrentStep(2);
      ghost var total := RunSpec(master, p1, p2, master.Size());
      if master.Size() > 0 {
        TableLengthBoundsRun(master, p1, p2);
      }
      outcome, ticks := RunLoop(total);
    }

    /** The loop itself: iterations until a break or until `len(df_pre)` have run. */
    method RunLoop(ghost total: RunResult) returns (outcome: Outcome, ticks: nat)
      requires Valid()
      requires Tracks(master, total, CurrentStep(1), CurrentStep(2), master.Size(), 0)
      modifies this, flag, createdAt
      ensures Valid()
      ensures clock == old(clock) + ticks
      ensures total == RunResult(outcome, CurrentStep(1), CurrentStep(2), ticks)
    {
      var n := flag.Length;
      ghost var left: nat := n;
      outcome, ticks := Advanced, 0;
      while ticks < n
        invariant left + ticks == n
        invariant Valid()
        invariant clock == old(clock) + ticks
        invariant Tracks(master, total, CurrentStep(1), CurrentStep(2), left, ticks)
      {
        var r := Iterate(total, left, ticks);
        left, ticks := left - 1, ticks + 1;
        if r != Advanced {
          outcome := r;
          return;
        }
      }
    }
  }
}
