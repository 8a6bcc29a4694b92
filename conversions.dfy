/** The integer conversions between the values a script sees and the values
    the model stores: output limits and curve, module channel count. */
module Conversions {
  import opened Wrappers

  /** The converted fields of an output table as a script sees it. A field
      is None when the table has no such key: getOutput leaves `curve` out
      when there is none, and setOutput only visits the keys the table
      holds. A Lua table cannot hold a nil value, so a key that is present
      always carries a number. */
  datatype OutputTable = OutputTable(min: Option<int>, max: Option<int>, curve: Option<int>)

  /** The stored limits of an output: `curve` is 0 for none, else index + 1. */
  datatype LimitData = LimitData(min: int, max: int, curve: int)

  /** setOutput: every key the table holds overwrites its stored field
      (min + 1000, max - 1000, curve index + 1); every other field keeps
      its stored value. */
  function StoreOutput(d: LimitData, t: OutputTable): (e: LimitData)
    ensures t.min.None? ==> e.min == d.min
    ensures t.max.None? ==> e.max == d.max
    ensures t.curve.None? ==> e.curve == d.curve
    ensures e.curve == 0 <==> t.curve == Some(-1) || (t.curve.None? && d.curve == 0)
  {
    LimitData(
      if t.min.Some? then t.min.value + 1000 else d.min,
      if t.max.Some? then t.max.value - 1000 else d.max,
      if t.curve.Some? then t.curve.value + 1 else d.curve)
  }

  /** getOutput: min and max are always reported; curve only when one is set. */
  function ReportOutput(d: LimitData): (t: OutputTable)
    ensures t.min.Some? && t.max.Some?
    ensures t.curve.None? <==> d.curve == 0
  {
    OutputTable(Some(d.min - 1000), Some(d.max + 1000), if d.curve != 0 then Some(d.curve - 1) else None)
  }

  /** getOutput after setOutput: each key the script wrote reads back as
      written, except the curve index -1, which clears the curve; each key
      it left out reads back as getOutput reported it before. */
  lemma OutputRoundTrip(d: LimitData, t: OutputTable)
    ensures var r := ReportOutput(StoreOutput(d, t));
            var before := ReportOutput(d);
            && r.min == (if t.min.Some? then t.min else before.min)
            && r.max == (if t.max.Some? then t.max else before.max)
            && r.curve == (if t.curve == Some(-1) then None else if t.curve.Some? then t.curve else before.curve)
  {
  }

  /** Writing back what getOutput reports leaves the stored limits as they were. */
  lemma StoredOutputRoundTrip(d: LimitData)
    ensures StoreOutput(d, ReportOutput(d)) == d
  {
  }

  /** Copying the table of an output without a curve onto an output with a
      curve does not clear it: the reported table has no `curve` key. */
  lemma CopyKeepsCurve(source: LimitData, target: LimitData)
    requires source.curve == 0 && target.curve != 0
    ensures StoreOutput(target, ReportOutput(source)).curve == target.curve
    ensures ReportOutput(StoreOutput(target, ReportOutput(source))) != ReportOutput(source)
  {
  }

  /** setModule: channelsCount is stored relative to 8, so a count of 8
      is stored as 0 and smaller counts as negative values. */
  function StoreChannelsCount(n: int): (stored: int)
    ensures stored == 0 <==> n == 8
    ensures stored < 0 <==> n < 8
  {
    n - 8
  }

  /** getModule: the count a script sees is the one that, stored, gives
      back the stored value. */
  function ReportChannelsCount(stored: int): (n: int)
    ensures StoreChannelsCount(n) == stored
  {
    stored + 8
  }

  /** Storing and reporting the channel count are inverse in both directions. */
  lemma ChannelsCountRoundTrip(n: int, stored: int)
    ensures ReportChannelsCount(StoreChannelsCount(n)) == n
    ensures StoreChannelsCount(ReportChannelsCount(stored)) == stored
  {
  }
}
