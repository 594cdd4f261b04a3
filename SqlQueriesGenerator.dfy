/**
 * `src/sql_queries_generator.py`: the query generator with its bounds as
 * module constants, and the sleep-time rule of `QueryAthena`.
 */
module SqlQueriesGenerator {
  import opened Wrappers
  import opened Text
  import opened Templates
  import opened DetectionRanges

  const DefaultSleepTime := 30
  const MaxSleepTime := 120
  const MinSleepTime := 0
  const LowerBound := 1
  const UpperBound := 100

  /** `_validate_detection_range_value`: an int no smaller than `LowerBound` and no larger than `UpperBound`. */
  function ValidateDetectionRangeValue(arg: BlockSizeArg): (ok: bool)
    ensures ok <==> arg.IntVal? && LowerBound <= arg.n <= UpperBound
  {
    match arg
    case NonInt => false
    case IntVal(n) => !(n < LowerBound || n > UpperBound)
  }

  /** The distance ranges for block size `bs`. */
  function Ranges(bs: int): seq<Range>
    requires bs >= 1
  {
    Blocks(LowerBound, UpperBound, bs)
  }

  /** What `create_query_by_range` returns: nothing for an invalid size, else the outer query around the range lines. */
  function QueryFor(arg: BlockSizeArg): Option<string> {
    if !ValidateDetectionRangeValue(arg) then None
    else Some(ReplaceAll(Show(QueryTemplate), Marker(PlaceHolder), Render(Ranges(arg.n))))
  }

  /**
   * `create_query_by_range`: `None` when validation fails; otherwise the
   * range lines, substituted for `###PLACE_HOLDER###` in the outer query.
   */
  method CreateQueryByRange(arg: BlockSizeArg) returns (query: Option<string>)
    ensures query.None? <==> !ValidateDetectionRangeValue(arg)
    ensures query == QueryFor(arg)
  {
    if !ValidateDetectionRangeValue(arg) {
      return None;
    }
    var lines := RangeLines(LowerBound, UpperBound, arg.n);
    query := Some(ReplaceAll(Show(QueryTemplate), Marker(PlaceHolder), lines));
  }

  /**
   * A valid size gives the outer query with the range lines in place of its
   * placeholder and its text otherwise unchanged; no marker of any slot is
   * left in it.
   */
  lemma QueryComplete(bs: int)
    requires LowerBound <= bs <= UpperBound
    ensures QueryFor(IntVal(bs)) == Some(Head + (Render(Ranges(bs)) + Tail))
    ensures forall slot: Slot :: !Contains(QueryFor(IntVal(bs)).value, Marker(slot))
  {
    var lines := Render(Ranges(bs));
    QueryFilled(lines);
    SkeletonHashFree();
    RenderHashFree(Ranges(bs));
    var q := Head + (lines + Tail);
    assert '#' !in q;
    forall slot: Slot
      ensures !Contains(q, Marker(slot))
    {
      AbsentCharNotContained(q, Marker(slot));
    }
  }

  /** The ranges start at 1, end at 100, and each lies inside [1, 100] and ends no earlier than it starts. */
  lemma RangesSpan(bs: int)
    requires LowerBound <= bs <= UpperBound
    ensures var rs := Ranges(bs);
      |rs| >= 1 && rs[0].start == LowerBound && rs[|rs| - 1].end == UpperBound &&
      forall i :: 0 <= i < |rs| ==> LowerBound <= rs[i].start <= rs[i].end <= UpperBound
  {
    BlocksWidths(LowerBound, UpperBound, bs);
    BlocksInBounds(LowerBound, UpperBound, bs);
  }

  /** Each range ends just before the next one starts, and every distance in [1, 100] is in one of them. */
  lemma RangesPartition(bs: int)
    requires LowerBound <= bs <= UpperBound
    ensures var rs := Ranges(bs);
      (forall i :: 0 <= i < |rs| - 1 ==> rs[i].end + 1 == rs[i + 1].start) &&
      forall d :: LowerBound <= d <= UpperBound ==> Covered(rs, d)
  {
    BlocksContiguous(LowerBound, UpperBound, bs);
    forall d | LowerBound <= d <= UpperBound
      ensures Covered(Ranges(bs), d)
    {
      BlocksCover(LowerBound, UpperBound, bs, d);
    }
  }

  /** All ranges but the last hold `bs` distances; the last holds at most `bs`. */
  lemma RangesWidths(bs: int)
    requires LowerBound <= bs <= UpperBound
    ensures var rs := Ranges(bs);
      |rs| >= 1 &&
      (forall i :: 0 <= i < |rs| - 1 ==> rs[i].end - rs[i].start + 1 == bs) &&
      rs[|rs| - 1].end - rs[|rs| - 1].start + 1 <= bs
  {
    BlocksWidths(LowerBound, UpperBound, bs);
  }

  /** There are ceil(100 / bs) ranges, so as many lines, each ended by one line break. */
  lemma LineCount(bs: int)
    requires LowerBound <= bs <= UpperBound
    ensures |Ranges(bs)| == (UpperBound + bs - 1) / bs
    ensures (|Ranges(bs)| - 1) * bs < UpperBound <= |Ranges(bs)| * bs
    ensures multiset(Render(Ranges(bs)))['\n'] == |Ranges(bs)|
  {
    BlockCount(LowerBound, UpperBound, bs);
    RenderLineBreaks(Ranges(bs));
  }

  /** Size 30 gives the ranges 1-30, 31-60, 61-90 and 91-100. */
  lemma ThirtyExample()
    ensures Ranges(30) == [Range(1, 30), Range(31, 60), Range(61, 90), Range(91, 100)]
  {
    assert Blocks(121, 100, 30) == [];
    assert Blocks(91, 100, 30) == [Range(91, 100)];
    assert Blocks(61, 100, 30) == [Range(61, 90), Range(91, 100)];
  }

  /** Size 100 gives one column, aliased "1-100", and size 1 gives 100 lines. */
  lemma SizeExtremes()
    ensures Ranges(100) == [Range(1, 100)]
    ensures Render(Ranges(100)) == Line(1, 100) + "\n"
    ensures exists p :: Line(1, 100) == p + "\"1-100\""
    ensures |Ranges(1)| == 100 && multiset(Render(Ranges(1)))['\n'] == 100
  {
    assert Blocks(101, 100, 100) == [];
    LineAlias(1, 100);
    assert IntToString(1) == "1";
    assert NatToString(10) == "10";
    assert IntToString(100) == "100";
    assert "\"" + Label(1, 100) + "\"" == "\"1-100\"";
    LineCount(1);
  }

  /**
   * `QueryAthena._get_sleep_time`: the text of the `SLEEP_TIME` setting, or
   * `str(DEFAULT_SLEEP_TIME)` when it is unset, read by `int`; an
   * unreadable or negative value gives the default and a value above the
   * maximum gives the maximum. `parse` is Python's `int` on text.
   */
  function GetSleepTime(setting: Option<string>, parse: string -> Option<int>): (t: int)
    ensures MinSleepTime <= t <= MaxSleepTime
  {
    var text := setting.GetOr(IntToString(DefaultSleepTime));
    var v := parse(text).GetOr(DefaultSleepTime);
    if v < MinSleepTime then DefaultSleepTime else if v > MaxSleepTime then MaxSleepTime else v
  }

  /**
   * The four cases of the rule: unreadable text and negative values give 30,
   * values above 120 give 120 and values in [0, 120] are kept; an unset
   * setting reads as "30".
   */
  lemma SleepTimeCases(setting: Option<string>, parse: string -> Option<int>)
    ensures var v := parse(setting.GetOr("30"));
      var t := GetSleepTime(setting, parse);
      (v.None? ==> t == 30) &&
      (v.Some? && v.value < 0 ==> t == 30) &&
      (v.Some? && v.value > 120 ==> t == 120) &&
      (v.Some? && 0 <= v.value <= 120 ==> t == v.value)
  {
    assert IntToString(DefaultSleepTime) == "30";
  }

  /**
   * A resolved time written back as the setting resolves to itself, given a
   * `parse` that reads decimal text back.
   */
  lemma SleepTimeFixedPoint(setting: Option<string>, parse: string -> Option<int>)
    requires forall n: nat :: parse(IntToString(n)) == Some(n)
    ensures GetSleepTime(Some(IntToString(GetSleepTime(setting, parse))), parse) == GetSleepTime(setting, parse)
  {
    var t := GetSleepTime(setting, parse);
    assert parse(IntToString(t)) == Some(t);
  }
}
