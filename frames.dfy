/**
 * The part of a pandas DataFrame the core relies on: named columns of cell
 * values, all of the same height.
 */
module Frames {
  import opened Common

  const NanosPerDay: int := 86_400_000_000_000

  type NanoOfDay = n: int | 0 <= n < NanosPerDay

  /** A timezone-naive UTC instant: the day counted from 1970-01-01 and the nanoseconds into it. */
  datatype Timestamp = Timestamp(day: int, nanoOfDay: NanoOfDay)

  /** The instant as nanoseconds since the epoch. */
  function EpochNanos(t: Timestamp): int
  {
    t.day * NanosPerDay + t.nanoOfDay
  }

  /**
   * The nanosecond counts a datetime64[ns] cell can hold: those of an int64
   * other than -2^63, which pandas reserves for NaT.
   */
  predicate InNanosRange(n: int)
  {
    -0x8000_0000_0000_0000 < n < 0x8000_0000_0000_0000
  }

  /** pandas reads an integer as nanoseconds since the epoch when it converts it to a timestamp. */
  function FromEpochNanos(n: int): (t: Timestamp)
    ensures t.day * NanosPerDay + t.nanoOfDay == n
  {
    Timestamp(n / NanosPerDay, n % NanosPerDay)
  }

  /** One cell: NaN/None/NaT, an integer, a string or a timestamp. */
  datatype Value = Null | Num(n: int) | Text(s: string) | Stamp(t: Timestamp)

  /** The value of a DataFrame: each column's cells by column name, and the number of rows. */
  datatype Table = Table(data: map<string, seq<Value>>, height: nat)
  {
    ghost predicate WellFormed()
    {
      forall c :: c in data ==> |data[c]| == height
    }

    /** `df.empty`: no rows, or no columns. */
    predicate IsEmpty()
    {
      height == 0 || data == map[]
    }

    /** Column `c`; a column the table lacks reads as all-null. */
    function Column(c: string): (r: seq<Value>)
      requires WellFormed()
      ensures |r| == height
      ensures c in data ==> r == data[c]
      ensures c !in data ==> forall i :: 0 <= i < height ==> r[i] == Null
    {
      if c in data then data[c] else Nulls(height)
    }

    /** `df[c] = vs`: replaces column `c`, or adds it. */
    function Assign(c: string, vs: seq<Value>): (r: Table)
      requires WellFormed() && |vs| == height
      ensures r.WellFormed() && r.height == height && r.data == data[c := vs]
    {
      Table(data[c := vs], height)
    }
  }

  /** A column of `n` nulls (`np.nan` broadcast to every row). */
  function Nulls(n: nat): (r: seq<Value>)
    ensures |r| == n && forall i :: 0 <= i < n ==> r[i] == Null
  {
    seq(n, _ => Null)
  }

  /** A DataFrame object: the core mutates it column by column. */
  class Frame {
    var data: map<string, seq<Value>>
    var height: nat

    function Snapshot(): Table
      reads this
    {
      Table(data, height)
    }

    ghost predicate Valid()
      reads this
    {
      Snapshot().WellFormed()
    }

    /** `df.empty` */
    predicate Empty()
      reads this
    {
      Snapshot().IsEmpty()
    }

    constructor (t: Table)
      requires t.WellFormed()
      ensures Valid() && Snapshot() == t
    {
      data, height := t.data, t.height;
    }

    /** `df[c] = vs` */
    method SetColumn(c: string, vs: seq<Value>)
      requires Valid() && |vs| == height
      modifies this
      ensures Valid() && Snapshot() == old(Snapshot()).Assign(c, vs)
    {
      data := data[c := vs];
    }
  }
}
