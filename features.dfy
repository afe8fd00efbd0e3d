/**
  Per-row calendar features of a datetime column: the grouping keys of the
  temporal counts (`dt.date`, `dt.isocalendar().week`, `dt.month`) and the
  feature columns written back into the frame.
*/
module Features {
  import opened Wrappers
  import opened Calendar
  import opened Frames
  import opened Tallies

  /** `dt.date` as day numbers; NaT is missing. */
  function DayKeys(col: seq<Cell>): (r: seq<Option<int>>)
    ensures |r| == |col|
    ensures forall i :: 0 <= i < |col| ==> (r[i].Some? <==> col[i].Some? && col[i].value.Stamp?)
    ensures forall i :: 0 <= i < |col| && col[i].Some? && col[i].value.Stamp? ==> r[i] == Some(col[i].value.day as int)
  {
    seq(|col|, i requires 0 <= i < |col| => if col[i].Some? && col[i].value.Stamp? then Some(col[i].value.day as int) else None)
  }

  /** `dt.isocalendar().week` */
  function WeekKeys(col: seq<Cell>): (r: seq<Option<int>>)
    ensures |r| == |col|
    ensures forall i :: 0 <= i < |col| ==> (r[i].Some? <==> col[i].Some? && col[i].value.Stamp?)
    ensures forall i :: 0 <= i < |col| && col[i].Some? && col[i].value.Stamp? ==> r[i] == Some(IsoWeek(col[i].value.day))
  {
    seq(|col|, i requires 0 <= i < |col| => if col[i].Some? && col[i].value.Stamp? then Some(IsoWeek(col[i].value.day)) else None)
  }

  /** `dt.month` */
  function MonthKeys(col: seq<Cell>): (r: seq<Option<int>>)
    ensures |r| == |col|
    ensures forall i :: 0 <= i < |col| ==> (r[i].Some? <==> col[i].Some? && col[i].value.Stamp?)
    ensures forall i :: 0 <= i < |col| && col[i].Some? && col[i].value.Stamp? ==> r[i] == Some(MonthOf(col[i].value.day))
  {
    seq(|col|, i requires 0 <= i < |col| => if col[i].Some? && col[i].value.Stamp? then Some(MonthOf(col[i].value.day)) else None)
  }

  /** `dt.dayofweek`: Monday is 0, Sunday 6. */
  function WeekdayKeys(col: seq<Cell>): (r: seq<Option<int>>)
    ensures |r| == |col|
    ensures forall i :: 0 <= i < |col| ==> (r[i].Some? <==> col[i].Some? && col[i].value.Stamp?)
    ensures forall i :: 0 <= i < |col| && col[i].Some? && col[i].value.Stamp? ==> r[i] == Some(Weekday(col[i].value.day))
    ensures forall i :: 0 <= i < |col| && r[i].Some? ==> 0 <= r[i].value <= 6
  {
    seq(|col|, i requires 0 <= i < |col| => if col[i].Some? && col[i].value.Stamp? then Some(Weekday(col[i].value.day)) else None)
  }

  /** `dt.year` */
  function YearKeys(col: seq<Cell>): (r: seq<Option<int>>)
    ensures |r| == |col|
    ensures forall i :: 0 <= i < |col| ==> (r[i].Some? <==> col[i].Some? && col[i].value.Stamp?)
    ensures forall i :: 0 <= i < |col| && col[i].Some? && col[i].value.Stamp? ==> r[i] == Some(YearOf(col[i].value.day))
  {
    seq(|col|, i requires 0 <= i < |col| => if col[i].Some? && col[i].value.Stamp? then Some(YearOf(col[i].value.day)) else None)
  }

  /** The dtype of an integer `dt` feature: int32, or float64 once a NaT
      turns its value into NaN. */
  function FeatureDType(keys: seq<Option<int>>): (d: DType)
    ensures forall i :: 0 <= i < |keys| ==> Fits(d, IntCells(keys)[i])
  {
    if forall i :: 0 <= i < |keys| ==> keys[i].Some? then Int32 else Float64
  }

  /** Number of rows holding a date. */
  function Dated(col: seq<Cell>): nat {
    Present(DayKeys(col))
  }

  /** The integer keys of a numeric column (`groupby` on it). */
  function IntKeys(col: seq<Cell>): (r: seq<Option<int>>)
    ensures |r| == |col|
  {
    seq(|col|, i requires 0 <= i < |col| => if col[i].Some? && col[i].value.Num? then Some(col[i].value.r.Floor) else None)
  }

  /** A column of integer features with NaN where the date is NaT. */
  function IntCells(keys: seq<Option<int>>): (r: seq<Cell>)
    ensures |r| == |keys|
    ensures IntKeys(r) == keys
  {
    seq(|keys|, i requires 0 <= i < |keys| => if keys[i].Some? then Some(Num(keys[i].value as real)) else None)
  }

  /** The `Week` column `dt.isocalendar().week` writes (nullable UInt32). */
  function WeekCells(col: seq<Cell>): (r: seq<Cell>)
    ensures |r| == |col|
    ensures forall i :: 0 <= i < |r| ==> Fits(UInt32, r[i])
    ensures IntKeys(r) == WeekKeys(col)
  {
    forall i | 0 <= i < |col| && col[i].Some? && col[i].value.Stamp? ensures IsoWeek(col[i].value.day) >= 1 {
      IsoWeekRange(col[i].value.day);
    }
    IntCells(WeekKeys(col))
  }

  /** Sequences missing in the same places have the same number of present values. */
  lemma {:induction false} SamePresence<A(!new), B(!new)>(xs: seq<Option<A>>, ys: seq<Option<B>>)
    requires |xs| == |ys| && forall i :: 0 <= i < |xs| ==> (xs[i].Some? <==> ys[i].Some?)
    ensures Present(xs) == Present(ys)
  {
    if xs != [] {
      SamePresence(xs[..|xs| - 1], ys[..|ys| - 1]);
    }
  }

  /** A sequence missing wherever another is missing has no more present values. */
  lemma {:induction false} FewerPresent<A(!new), B(!new)>(xs: seq<Option<A>>, ys: seq<Option<B>>)
    requires |xs| == |ys| && forall i :: 0 <= i < |xs| && xs[i].Some? ==> ys[i].Some?
    ensures Present(xs) <= Present(ys)
  {
    if xs != [] {
      FewerPresent(xs[..|xs| - 1], ys[..|ys| - 1]);
    }
  }

  /** `pd.to_datetime` never fills in a missing cell, so a converted column has
      at most as many dated rows as the column had values; it may have fewer,
      when the parser turns a value into NaT.  A column that was already
      datetime keeps all its dated rows. */
  lemma ConvertedDates(col: seq<Cell>, parse: DateParser)
    requires ToDatetime(col, parse).Some?
    ensures Dated(ToDatetime(col, parse).value) <= Present(col)
    ensures AllDatetime(col) ==> Dated(ToDatetime(col, parse).value) == Present(col)
  {
    var dates := ToDatetime(col, parse).value;
    FewerPresent(DayKeys(dates), col);
    if AllDatetime(col) {
      SamePresence(DayKeys(col), col);
    }
  }

  /** Every week key is an ISO week number 1 .. 53 and every month key a month 1 .. 12;
      years are not part of either key. */
  lemma KeyRanges(col: seq<Cell>)
    ensures forall i :: 0 <= i < |col| && WeekKeys(col)[i].Some? ==> 1 <= WeekKeys(col)[i].value <= 53
    ensures forall i :: 0 <= i < |col| && MonthKeys(col)[i].Some? ==> 1 <= MonthKeys(col)[i].value <= 12
  {
    forall i | 0 <= i < |col| && WeekKeys(col)[i].Some? ensures 1 <= WeekKeys(col)[i].value <= 53 {
      IsoWeekRange(col[i].value.day);
    }
  }

  /** The daily, weekly and monthly counts of a date column: each adds up to
      the number of dated rows, keys ascending, week keys in 1 .. 53 and
      month keys in 1 .. 12. */
  lemma TemporalCounts(col: seq<Cell>)
    ensures Total(GroupSizes(DayKeys(col))) == Dated(col)
    ensures Total(GroupSizes(WeekKeys(col))) == Dated(col)
    ensures Total(GroupSizes(MonthKeys(col))) == Dated(col)
    ensures forall k :: k in Keys(GroupSizes(WeekKeys(col))) ==> 1 <= k <= 53
    ensures forall k :: k in Keys(GroupSizes(MonthKeys(col))) ==> 1 <= k <= 12
  {
    SamePresence(WeekKeys(col), DayKeys(col));
    SamePresence(MonthKeys(col), DayKeys(col));
    KeyRanges(col);
    KeysWithin(WeekKeys(col), 1, 53);
    KeysWithin(MonthKeys(col), 1, 12);
  }
}
