/** The master trajectory table as the simulator loads it: the immutable columns of
    two objects' rows, ordered by (obj_id, step). Each object's steps run 0..N-1,
    one row per trajectory sample. */
module MasterTable {
  import opened Geometry

  /** The two object identifiers the arbiter reads (`obj_id == 1`, `obj_id == 2`). */
  type ObjId = k: int | k == 1 || k == 2 witness 1

  /** The other object of the pair. */
  function Other(k: ObjId): (j: ObjId)
    ensures j != k
  {
    3 - k
  }

  /** One object's constant columns and its trajectory; `path[s]` is the position at step `s`. */
  datatype Object = Object(priority: int, barrier: real, path: seq<Point>)

  /** The loaded table: object 1's rows (steps 0..N1-1) followed by object 2's. */
  datatype Master = Master(obj1: Object, obj2: Object)
  {
    function Obj(k: ObjId): Object
    {
      if k == 1 then obj1 else obj2
    }

    /** Number of rows (trajectory samples) of object `k`. */
    function Count(k: ObjId): nat
    {
      |Obj(k).path|
    }

    /** Number of rows of the whole table, `len(df_pre)`. */
    function Size(): nat
    {
      Count(1) + Count(2)
    }

    /** Index of object `k`'s first row. */
    function Base(k: ObjId): nat
    {
      if k == 1 then 0 else Count(1)
    }

    /** The `obj_id` column. */
    function ObjOf(i: nat): ObjId
      requires i < Size()
    {
      if i < Count(1) then 1 else 2
    }

    /** The `step` column. */
    function StepOf(i: nat): nat
      requires i < Size()
    {
      if i < Count(1) then i else i - Count(1)
    }

    /** The `priority_no` column: constant over an object's rows. */
    function PriorityOf(i: nat): int
      requires i < Size()
    {
      Obj(ObjOf(i)).priority
    }

    /** The row holding object `k` at step `s`. */
    function Row(k: ObjId, s: nat): (i: nat)
      requires s < Count(k)
      ensures i < Size() && ObjOf(i) == k && StepOf(i) == s
      ensures Base(k) <= i < Base(k) + Count(k)
    {
      Base(k) + s
    }

    /** Sum of the two barrier ranges (line 131). */
    function BarrierSum(): real
    {
      obj1.barrier + obj2.barrier
    }

    /** The source never checks barrier ranges; the model assumes they are non-negative. */
    predicate WellFormed()
    {
      obj1.barrier >= 0.0 && obj2.barrier >= 0.0
    }
  }

  /** Every row is the row of its own (obj_id, step) pair, and object k's rows are
      exactly the block starting at Base(k). */
  lemma RowOfCell(m: Master, i: nat)
    requires i < m.Size()
    ensures m.StepOf(i) < m.Count(m.ObjOf(i))
    ensures m.Row(m.ObjOf(i), m.StepOf(i)) == i
    ensures m.Base(m.ObjOf(i)) <= i < m.Base(m.ObjOf(i)) + m.Count(m.ObjOf(i))
  {
  }
}
