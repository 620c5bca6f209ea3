/** The two columns `analysis` changes, as sequences over the rows of the master
    table: `current_flg` (a row is the object's current step) and `created_at` (when
    the row became current; NaT until then). This module holds the row query, the
    row update of one advance, and the invariants that tie the columns to the
    objects' current steps. */
module Table {
  import opened MasterTable
  import opened Arbiter

  /** A `created_at` cell: NaT, or the tick at which the row became current. */
  datatype Stamp = NaT | Stamped(time: nat)

  /** Which rows an update selects besides the step: by `obj_id` or by `priority_no`. */
  datatype Key = ObjectId(k: ObjId) | PriorityNo(p: int)

  predicate Selects(m: Master, key: Key, i: nat)
    requires i < m.Size()
  {
    match key
    case ObjectId(k) => m.ObjOf(i) == k
    case PriorityNo(p) => m.PriorityOf(i) == p
  }

  /** The query for an object's current row, `step` of its first match, over the
      object's block of rows [lo, lo + n); Exhausted when no row is current. */
  function FirstCurrent(flags: seq<bool>, lo: nat, n: nat): (p: Pos)
    requires lo + n <= |flags|
    ensures p.At? ==> p.step < n && flags[lo + p.step]
    ensures p.At? ==> forall i :: lo <= i < lo + p.step ==> !flags[i]
    ensures p == Exhausted ==> forall i :: lo <= i < lo + n ==> !flags[i]
    decreases n
  {
    if n == 0 then Exhausted
    else if flags[lo] then At(0)
    else
      match FirstCurrent(flags, lo + 1, n - 1)
      case At(s) => At(s + 1)
      case Exhausted => Exhausted
  }

  /** In the block [lo, lo + n) exactly the row of step p is current (none when p is
      Exhausted): an object never has two current rows. */
  ghost predicate Marks(flags: seq<bool>, lo: nat, n: nat, p: Pos)
    requires lo + n <= |flags|
  {
    && (p.At? ==> p.step < n)
    && forall i :: lo <= i < lo + n ==> (flags[i] <==> p == At(i - lo))
  }

  /** When the block marks p, the query finds p. */
  lemma MarksFound(flags: seq<bool>, lo: nat, n: nat, p: Pos)
    requires lo + n <= |flags| && Marks(flags, lo, n, p)
    ensures FirstCurrent(flags, lo, n) == p
  {
    var q := FirstCurrent(flags, lo, n);
    assert q.At? ==> flags[lo + q.step];
    assert p.At? ==> flags[lo + p.step];
  }

  /** `created_at` of the block [lo, lo + n) for an object at p: the rows up to the
      current one (all rows once exhausted) carry stamps no later than `clock`,
      strictly increasing with the step; the rows beyond it are still NaT. */
  ghost predicate Logged(stamps: seq<Stamp>, lo: nat, n: nat, p: Pos, clock: nat)
    requires lo + n <= |stamps|
  {
    var reached := if p.At? then p.step + 1 else n;
    && reached <= n
    && (forall i :: lo <= i < lo + reached ==> stamps[i].Stamped? && stamps[i].time <= clock)
    && (forall i :: lo + reached <= i < lo + n ==> stamps[i] == NaT)
    && (forall i, j :: lo <= i < j < lo + reached ==> stamps[i].time < stamps[j].time)
  }

  /** The `current_flg` update of one advance (lines 142-146 and their copies): among
      the rows `key` selects, the current row at step s is cleared and the row at step
      s + 1 becomes current if it is not already. */
  function AdvanceFlags(m: Master, key: Key, flags: seq<bool>, s: nat): (r: seq<bool>)
    requires |flags| == m.Size()
    ensures |r| == |flags|
  {
    seq(|flags|, i requires 0 <= i < |flags| =>
      if Selects(m, key, i) && m.StepOf(i) == s && flags[i] then false
      else if Selects(m, key, i) && m.StepOf(i) == s + 1 && !flags[i] then true
      else flags[i])
  }

  /** The `created_at` update of the same advance: the row that becomes current is
      stamped with the tick's time `now`. */
  function AdvanceStamps(m: Master, key: Key, flags: seq<bool>, stamps: seq<Stamp>, s: nat, now: nat): (r: seq<Stamp>)
    requires |flags| == m.Size() && |stamps| == m.Size()
    ensures |r| == |stamps|
  {
    seq(|stamps|, i requires 0 <= i < |stamps| =>
      if Selects(m, key, i) && m.StepOf(i) == s + 1 && !flags[i] then Stamped(now)
      else stamps[i])
  }

  /** Row by row, an advance of object k keyed by its `obj_id` from step s clears the
      row at step s, makes the row at step s + 1 current (stamped with `now`) unless it
      already was, and leaves every other row of the table as it was. */
  lemma AdvanceAt(m: Master, k: ObjId, flags: seq<bool>, stamps: seq<Stamp>, s: nat, now: nat, i: nat)
    requires |flags| == m.Size() && |stamps| == m.Size()
    requires s < m.Count(k) && i < m.Size()
    ensures AdvanceFlags(m, ObjectId(k), flags, s)[i] ==
              if i == m.Row(k, s) then false
              else if s + 1 < m.Count(k) && i == m.Row(k, s + 1) then true
              else flags[i]
    ensures AdvanceStamps(m, ObjectId(k), flags, stamps, s, now)[i] ==
              if s + 1 < m.Count(k) && i == m.Row(k, s + 1) && !flags[i] then Stamped(now)
              else stamps[i]
  {
    RowOfCell(m, i);
  }

  /** One advance within a block of rows: if the block held exactly the row of step s
      and after the update holds exactly the row of step s + 1, stamped with a later
      time `now`, then the block marks the next position and its history grows by that
      row, keeping the stamps strictly increasing. */
  lemma BlockStep(stamps: seq<Stamp>, f: seq<bool>, t: seq<Stamp>, lo: nat, n: nat, s: nat, clock: nat, now: nat)
    requires lo + n <= |f| && lo + n <= |stamps| == |t|
    requires s < n && clock < now && Logged(stamps, lo, n, At(s), clock)
    requires forall i :: lo <= i < lo + n ==> (f[i] <==> s + 1 < n && i == lo + s + 1)
    requires forall i :: lo <= i < lo + n ==>
               t[i] == if s + 1 < n && i == lo + s + 1 then Stamped(now) else stamps[i]
    ensures Marks(f, lo, n, Moved(s, n)) && Logged(t, lo, n, Moved(s, n), now)
  {
    var reached := if s + 1 < n then s + 2 else n;
    forall i | lo <= i < lo + reached
      ensures t[i].Stamped? && t[i].time <= now
    {
    }
    forall i, j | lo <= i < j < lo + reached
      ensures t[i].time < t[j].time
    {
      if j == lo + s + 1 {
        assert t[i] == stamps[i];
      }
    }
  }

  /** Rows outside an object's block do not affect its Marks and Logged facts, and a
      later clock keeps Logged. */
  lemma BlockFrame(flags: seq<bool>, flags': seq<bool>, stamps: seq<Stamp>, stamps': seq<Stamp>,
                   lo: nat, n: nat, p: Pos, clock: nat, clock': nat)
    requires lo + n <= |flags| == |flags'| && lo + n <= |stamps| == |stamps'|
    requires forall i :: lo <= i < lo + n ==> flags'[i] == flags[i] && stamps'[i] == stamps[i]
    requires clock <= clock'
    requires Marks(flags, lo, n, p) && Logged(stamps, lo, n, p, clock)
    ensures Marks(flags', lo, n, p) && Logged(stamps', lo, n, p, clock')
  {
  }

  /** A row is stamped with `now` exactly when it became current; every other stamp is kept. */
  ghost predicate StampedWhenReached(flags: seq<bool>, stamps: seq<Stamp>, flags': seq<bool>, stamps': seq<Stamp>, now: nat)
    requires |flags| == |stamps| == |flags'| == |stamps'|
  {
    forall i :: 0 <= i < |stamps'| ==> stamps'[i] == if flags'[i] && !flags[i] then Stamped(now) else stamps[i]
  }

  /** An advance of object k, keyed by its `obj_id`, from its current step s: object k
      moves to its next position, the row it reaches is stamped with `now`, its history
      stays strictly increasing, and every row of the other object is untouched. */
  lemma AdvanceMoves(m: Master, k: ObjId, flags: seq<bool>, stamps: seq<Stamp>, s: nat, clock: nat, now: nat)
    requires |flags| == m.Size() && |stamps| == m.Size() && clock < now
    requires Marks(flags, m.Base(k), m.Count(k), At(s))
    requires Logged(stamps, m.Base(k), m.Count(k), At(s), clock)
    ensures var f := AdvanceFlags(m, ObjectId(k), flags, s);
            var t := AdvanceStamps(m, ObjectId(k), flags, stamps, s, now);
            && Marks(f, m.Base(k), m.Count(k), Moved(s, m.Count(k)))
            && Logged(t, m.Base(k), m.Count(k), Moved(s, m.Count(k)), now)
            && (forall i :: 0 <= i < m.Size() && m.ObjOf(i) != k ==> f[i] == flags[i] && t[i] == stamps[i])
            && StampedWhenReached(flags, stamps, f, t, now)
  {
    var f := AdvanceFlags(m, ObjectId(k), flags, s);
    var t := AdvanceStamps(m, ObjectId(k), flags, stamps, s, now);
    var lo, n := m.Base(k), m.Count(k);
    forall i | 0 <= i < m.Size()
      ensures lo <= i < lo + n ==> (f[i] <==> s + 1 < n && i == lo + s + 1)
      ensures lo <= i < lo + n ==> t[i] == if s + 1 < n && i == lo + s + 1 then Stamped(now) else stamps[i]
      ensures m.ObjOf(i) != k ==> f[i] == flags[i] && t[i] == stamps[i]
      ensures t[i] == if f[i] && !flags[i] then Stamped(now) else stamps[i]
    {
      AdvanceAt(m, k, flags, stamps, s, now, i);
      RowOfCell(m, i);
    }
    BlockStep(stamps, f, t, lo, n, s, clock, now);
  }

  /** The step the query for object k reads as its current one. */
  function Cur(m: Master, flags: seq<bool>, k: ObjId): Pos
    requires |flags| == m.Size()
  {
    FirstCurrent(flags, m.Base(k), m.Count(k))
  }

  /** A block of rows is consistent: it marks the row the query finds, and its history
      is logged up to `clock`. */
  ghost predicate BlockValid(flags: seq<bool>, stamps: seq<Stamp>, lo: nat, n: nat, clock: nat)
    requires lo + n <= |flags| && lo + n <= |stamps|
  {
    var p := FirstCurrent(flags, lo, n);
    Marks(flags, lo, n, p) && Logged(stamps, lo, n, p, clock)
  }

  /** The two columns agree with the objects' current steps: each object has at most
      one current row, and `created_at` records its history up to `clock`. */
  ghost predicate TableValid(m: Master, flags: seq<bool>, stamps: seq<Stamp>, clock: nat)
  {
    && |flags| == m.Size()
    && |stamps| == m.Size()
    && BlockValid(flags, stamps, m.Base(1), m.Count(1), clock)
    && BlockValid(flags, stamps, m.Base(2), m.Count(2), clock)
  }

  /** `current_flg` after loading: 1 exactly on the step-0 rows. */
  function InitialFlags(m: Master): (r: seq<bool>)
    ensures |r| == m.Size()
  {
    seq(m.Size(), i requires 0 <= i < m.Size() => m.StepOf(i) == 0)
  }

  /** `created_at` after loading: the load time 0 on the step-0 rows, NaT elsewhere. */
  function InitialStamps(m: Master): (r: seq<Stamp>)
    ensures |r| == m.Size()
  {
    seq(m.Size(), i requires 0 <= i < m.Size() => if m.StepOf(i) == 0 then Stamped(0) else NaT)
  }

  /** The loaded table is valid at time 0, with each object at its start position:
      step 0, or no current row for an object without rows. */
  lemma InitialValid(m: Master)
    ensures TableValid(m, InitialFlags(m), InitialStamps(m), 0)
    ensures Cur(m, InitialFlags(m), 1) == Start(m, 1)
    ensures Cur(m, InitialFlags(m), 2) == Start(m, 2)
  {
    var flags, stamps := InitialFlags(m), InitialStamps(m);
    forall k: ObjId, i | m.Base(k) <= i < m.Base(k) + m.Count(k)
      ensures flags[i] <==> Start(m, k) == At(i - m.Base(k))
      ensures stamps[i] == if i == m.Base(k) then Stamped(0) else NaT
    {
      RowOfCell(m, i);
    }
    MarksFound(flags, m.Base(1), m.Count(1), Start(m, 1));
    MarksFound(flags, m.Base(2), m.Count(2), Start(m, 2));
  }

  datatype TableTick = TableTick(outcome: Outcome, flags: seq<bool>, stamps: seq<Stamp>)

  /** One iteration of the loop of `analysis` on the two columns, at time `now`. */
  function TickRows(m: Master, flags: seq<bool>, stamps: seq<Stamp>, now: nat): (r: TableTick)
    requires |flags| == m.Size() && |stamps| == m.Size()
    ensures |r.flags| == |flags| && |r.stamps| == |stamps|
  {
    var c1 := Cur(m, flags, 1);
    var c2 := Cur(m, flags, 2);
    if c1 == Exhausted || c2 == Exhausted then TableTick(NoCurrentRow, flags, stamps)
    else
      match Decide(m, c1.step, c2.step)
      case AdvanceBoth =>
        var f1 := AdvanceFlags(m, ObjectId(1), flags, c1.step);
        var t1 := AdvanceStamps(m, ObjectId(1), flags, stamps, c1.step, now);
        TableTick(Advanced, AdvanceFlags(m, ObjectId(2), f1, c2.step),
                  AdvanceStamps(m, ObjectId(2), f1, t1, c2.step, now))
      case AdvanceOnly(k) =>
        var s := if k == 1 then c1.step else c2.step;
        TableTick(Advanced, AdvanceFlags(m, ObjectId(k), flags, s),
                  AdvanceStamps(m, ObjectId(k), flags, stamps, s, now))
      case Halt => TableTick(StepLimitReached, flags, stamps)
      case NoLookahead => TableTick(LookaheadMissing, flags, stamps)
  }

  /** Object k alone advances from its current step s in a valid table. */
  lemma OneAdvanceValid(m: Master, k: ObjId, flags: seq<bool>, stamps: seq<Stamp>, clock: nat, now: nat, s: nat)
    requires TableValid(m, flags, stamps, clock) && clock < now && Cur(m, flags, k) == At(s)
    ensures var f := AdvanceFlags(m, ObjectId(k), flags, s);
            var t := AdvanceStamps(m, ObjectId(k), flags, stamps, s, now);
            && TableValid(m, f, t, now)
            && Cur(m, f, k) == Moved(s, m.Count(k))
            && Cur(m, f, Other(k)) == Cur(m, flags, Other(k))
            && StampedWhenReached(flags, stamps, f, t, now)
  {
    var j := Other(k);
    var f := AdvanceFlags(m, ObjectId(k), flags, s);
    var t := AdvanceStamps(m, ObjectId(k), flags, stamps, s, now);
    AdvanceMoves(m, k, flags, stamps, s, clock, now);
    forall i | m.Base(j) <= i < m.Base(j) + m.Count(j)
      ensures f[i] == flags[i] && t[i] == stamps[i]
    {
      RowOfCell(m, i);
    }
    BlockFrame(flags, f, stamps, t, m.Base(j), m.Count(j), Cur(m, flags, j), clock, now);
    MarksFound(f, m.Base(k), m.Count(k), Moved(s, m.Count(k)));
    MarksFound(f, m.Base(j), m.Count(j), Cur(m, flags, j));
  }

  /** Two updates that touch disjoint rows compose: each row is stamped with `now`
      exactly when it became current over both. */
  lemma StampedCompose(flags: seq<bool>, stamps: seq<Stamp>, f1: seq<bool>, t1: seq<Stamp>,
                       f: seq<bool>, t: seq<Stamp>, now: nat)
    requires |flags| == |stamps| == |f1| == |t1| == |f| == |t|
    requires StampedWhenReached(flags, stamps, f1, t1, now)
    requires StampedWhenReached(f1, t1, f, t, now)
    requires forall i :: 0 <= i < |f| ==>
               (f[i] == f1[i] && t[i] == t1[i]) || (f1[i] == flags[i] && t1[i] == stamps[i])
    ensures StampedWhenReached(flags, stamps, f, t, now)
  {
  }

  /** Both objects advance from their current steps s1 and s2 in a valid table. */
  lemma BothAdvanceValid(m: Master, flags: seq<bool>, stamps: seq<Stamp>, clock: nat, now: nat, s1: nat, s2: nat)
    requires TableValid(m, flags, stamps, clock) && clock < now
    requires Cur(m, flags, 1) == At(s1) && Cur(m, flags, 2) == At(s2)
    ensures var f1 := AdvanceFlags(m, ObjectId(1), flags, s1);
            var t1 := AdvanceStamps(m, ObjectId(1), flags, stamps, s1, now);
            var f := AdvanceFlags(m, ObjectId(2), f1, s2);
            var t := AdvanceStamps(m, ObjectId(2), f1, t1, s2, now);
            && TableValid(m, f, t, now)
            && Cur(m, f, 1) == Moved(s1, m.Count(1))
            && Cur(m, f, 2) == Moved(s2, m.Count(2))
            && StampedWhenReached(flags, stamps, f, t, now)
  {
    var f1 := AdvanceFlags(m, ObjectId(1), flags, s1);
    var t1 := AdvanceStamps(m, ObjectId(1), flags, stamps, s1, now);
    var f := AdvanceFlags(m, ObjectId(2), f1, s2);
    var t := AdvanceStamps(m, ObjectId(2), f1, t1, s2, now);
    OneAdvanceValid(m, 1, flags, stamps, clock, now, s1);
    AdvanceMoves(m, 2, f1, t1, s2, clock, now);
    forall i | 0 <= i < m.Size()
      ensures m.Base(1) <= i < m.Base(1) + m.Count(1) ==> f[i] == f1[i] && t[i] == t1[i]
      ensures (f[i] == f1[i] && t[i] == t1[i]) || (f1[i] == flags[i] && t1[i] == stamps[i])
    {
      RowOfCell(m, i);
    }
    BlockFrame(f1, f, t1, t, m.Base(1), m.Count(1), Moved(s1, m.Count(1)), now, now);
    MarksFound(f, m.Base(1), m.Count(1), Moved(s1, m.Count(1)));
    MarksFound(f, m.Base(2), m.Count(2), Moved(s2, m.Count(2)));
    StampedCompose(flags, stamps, f1, t1, f, t, now);
  }

  /** The row-level tick refines the tick on current steps: from a valid table it leaves
      a valid table (f', t') whose objects stand where TickSpec puts them, and the rows
      stamped with the tick's time are exactly the rows that became current. */
  lemma TickRowsRefines(m: Master, f: seq<bool>, t: seq<Stamp>, clock: nat, now: nat,
                         o: Outcome, f': seq<bool>, t': seq<Stamp>)
    requires TableValid(m, f, t, clock) && clock < now
    requires TickRows(m, f, t, now) == TableTick(o, f', t')
    ensures TableValid(m, f', t', now)
    ensures TickSpec(m, Cur(m, f, 1), Cur(m, f, 2)) == TickResult(o, Cur(m, f', 1), Cur(m, f', 2))
    ensures StampedWhenReached(f, t, f', t', now)
  {
    var c1 := Cur(m, f, 1);
    var c2 := Cur(m, f, 2);
    if c1 != Exhausted && c2 != Exhausted {
      match Decide(m, c1.step, c2.step)
      case AdvanceBoth =>
        BothAdvanceValid(m, f, t, clock, now, c1.step, c2.step);
      case AdvanceOnly(k) =>
        OneAdvanceValid(m, k, f, t, clock, now, if k == 1 then c1.step else c2.step);
      case Halt =>
      case NoLookahead =>
    }
  }

  /** When object k's `priority_no` is k, selecting by priority and by object agree. */
  lemma PriorityKeyAgrees(m: Master, flags: seq<bool>, stamps: seq<Stamp>, k: ObjId, s: nat, now: nat)
    requires |flags| == m.Size() && |stamps| == m.Size()
    requires m.obj1.priority == 1 && m.obj2.priority == 2
    ensures AdvanceFlags(m, PriorityNo(k), flags, s) == AdvanceFlags(m, ObjectId(k), flags, s)
    ensures AdvanceStamps(m, PriorityNo(k), flags, stamps, s, now) == AdvanceStamps(m, ObjectId(k), flags, stamps, s, now)
  {
    forall i | 0 <= i < m.Size()
      ensures Selects(m, PriorityNo(k), i) == Selects(m, ObjectId(k), i)
    {
    }
  }

  /** A loaded table where object 1 has `priority_no` 2 and object 2 has `priority_no` 1,
      three rows each and barrier ranges 0: object 1 stays on the origin, object 2 starts
      there and moves away along the x axis. */
  const SwappedMaster := Master(Object(2, 0.0, [Geometry.Point(0.0, 0.0), Geometry.Point(0.0, 0.0), Geometry.Point(0.0, 0.0)]),
                                Object(1, 0.0, [Geometry.Point(0.0, 0.0), Geometry.Point(1.0, 0.0), Geometry.Point(2.0, 0.0)]))
  const SwappedFlags := [true, false, false, true, false, false]
  const SwappedStamps := [Stamped(0), NaT, NaT, Stamped(0), NaT, NaT]

  /** The columns of that table are the ones loading leaves, with both objects at step 0. */
  lemma SwappedStart()
    ensures SwappedMaster.Size() == |SwappedFlags| == |SwappedStamps|
    ensures InitialFlags(SwappedMaster) == SwappedFlags && InitialStamps(SwappedMaster) == SwappedStamps
    ensures Cur(SwappedMaster, SwappedFlags, 1) == At(0) && Cur(SwappedMaster, SwappedFlags, 2) == At(0)
  {
    assert InitialFlags(SwappedMaster) == SwappedFlags;
    assert InitialStamps(SwappedMaster) == SwappedStamps;
    MarksFound(SwappedFlags, 0, 3, At(0));
    MarksFound(SwappedFlags, 3, 3, At(0));
  }

  /** At step 0 the objects interfere, object 2 is preferred and its lookahead passes. */
  lemma SwappedDecision()
    ensures Decide(SwappedMaster, 0, 0) == AdvanceOnly(2)
  {
  }

  /** The selection by `priority_no` goes wrong when object 1 has priority 2 and object
      2 priority 1. At the first tick after loading object 2 is chosen (line 181) and its
      lookahead passes, but the update of lines 188-192 selects `priority_no == 2`, which
      is object 1's rows: object 1 steps, without any lookahead of its own, and object 2
      stays where it was. */
  lemma SwappedPrioritiesMoveWrongObject()
    ensures SwappedMaster.Size() == |SwappedFlags| == |SwappedStamps|
    ensures InitialFlags(SwappedMaster) == SwappedFlags && InitialStamps(SwappedMaster) == SwappedStamps
    ensures Decide(SwappedMaster, 0, 0) == AdvanceOnly(2)
    ensures var r := AdvanceFlags(SwappedMaster, PriorityNo(2), SwappedFlags, 0);
            && r == [false, true, false, true, false, false]
            && AdvanceStamps(SwappedMaster, PriorityNo(2), SwappedFlags, SwappedStamps, 0, 1)
               == [Stamped(0), Stamped(1), NaT, Stamped(0), NaT, NaT]
            && Cur(SwappedMaster, r, 1) == At(1)
            && Cur(SwappedMaster, r, 2) == At(0)
  {
    var m, flags := SwappedMaster, SwappedFlags;
    SwappedStart();
    SwappedDecision();
    var r := AdvanceFlags(m, PriorityNo(2), flags, 0);
    assert r == [false, true, false, true, false, false];
    assert AdvanceStamps(m, PriorityNo(2), flags, SwappedStamps, 0, 1)
           == [Stamped(0), Stamped(1), NaT, Stamped(0), NaT, NaT];
    MarksFound(r, 0, 3, At(1));
    MarksFound(r, 3, 3, At(0));
  }

  /** On the same table the tick of the model, which selects rows by `obj_id`, moves
      object 2 to step 1 and leaves object 1 at step 0. */
  lemma SwappedTickMoves()
    ensures SwappedMaster.Size() == |SwappedFlags| == |SwappedStamps|
    ensures var fixed := TickRows(SwappedMaster, SwappedFlags, SwappedStamps, 1);
            && fixed.outcome == Advanced
            && Cur(SwappedMaster, fixed.flags, 1) == At(0)
            && Cur(SwappedMaster, fixed.flags, 2) == At(1)
  {
    SwappedStart();
    SwappedDecision();
    var b := AdvanceFlags(SwappedMaster, ObjectId(2), SwappedFlags, 0);
    assert b == [true, false, false, false, true, false];
    MarksFound(b, 0, 3, At(0));
    MarksFound(b, 3, 3, At(1));
  }

  /** A table where both objects have `priority_no` 1, two rows each, both at step 0 on
      the same point, with object 2's next point one unit away. */
  const TiedMaster := Master(Object(1, 0.0, [Geometry.Point(0.0, 0.0), Geometry.Point(0.0, 0.0)]),
                             Object(1, 0.0, [Geometry.Point(0.0, 0.0), Geometry.Point(1.0, 0.0)]))
  const TiedFlags := [true, false, true, false]
  const TiedStamps := [Stamped(0), NaT, Stamped(0), NaT]

  /** The columns of that table are the ones loading leaves, with both objects at step 0. */
  lemma TiedStart()
    ensures TiedMaster.Size() == |TiedFlags| == |TiedStamps|
    ensures InitialFlags(TiedMaster) == TiedFlags && InitialStamps(TiedMaster) == TiedStamps
    ensures Marks(TiedFlags, 0, 2, At(0)) && Marks(TiedFlags, 2, 2, At(0))
    ensures Cur(TiedMaster, TiedFlags, 1) == At(0) && Cur(TiedMaster, TiedFlags, 2) == At(0)
  {
    assert InitialFlags(TiedMaster) == TiedFlags;
    assert InitialStamps(TiedMaster) == TiedStamps;
    MarksFound(TiedFlags, 0, 2, At(0));
    MarksFound(TiedFlags, 2, 2, At(0));
  }

  /** At step 0 the objects interfere, object 2 is preferred and its lookahead passes. */
  lemma TiedDecision()
    ensures Decide(TiedMaster, 0, 0) == AdvanceOnly(2)
  {
  }

  /** The selection by `priority_no` also stalls when both objects have priority 1:
      under interference object 2 is preferred (line 181) and its lookahead passes, but
      the update of lines 188-192 selects `priority_no == 2`, which no row has, so
      nothing changes and every later tick repeats the same decision. */
  lemma TiedPrioritiesStall()
    ensures TiedMaster.Size() == |TiedFlags| == |TiedStamps|
    ensures Decide(TiedMaster, 0, 0) == AdvanceOnly(2)
    ensures AdvanceFlags(TiedMaster, PriorityNo(2), TiedFlags, 0) == TiedFlags
    ensures AdvanceStamps(TiedMaster, PriorityNo(2), TiedFlags, TiedStamps, 0, 1) == TiedStamps
  {
    TiedStart();
    TiedDecision();
    assert AdvanceFlags(TiedMaster, PriorityNo(2), TiedFlags, 0) == TiedFlags;
    assert AdvanceStamps(TiedMaster, PriorityNo(2), TiedFlags, TiedStamps, 0, 1) == TiedStamps;
  }

  /** On the same table the tick of the model, which selects rows by `obj_id`, moves
      object 2 to its next step and leaves object 1 where it was. */
  lemma TiedTickMoves()
    ensures TiedMaster.Size() == |TiedFlags| == |TiedStamps|
    ensures var fixed := TickRows(TiedMaster, TiedFlags, TiedStamps, 1);
            && fixed.outcome == Advanced
            && Cur(TiedMaster, fixed.flags, 1) == At(0)
            && Cur(TiedMaster, fixed.flags, 2) == At(1)
  {
    TiedStart();
    TiedDecision();
    var b := AdvanceFlags(TiedMaster, ObjectId(2), TiedFlags, 0);
    assert b == [true, false, false, true];
    assert FirstCurrent(b, 0, 2) == At(0);
    assert FirstCurrent(b, 2, 2) == At(1);
  }
}
