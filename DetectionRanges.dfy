/**
 * The distance ranges of the query generator and the loop that renders them
 * (`_get_sql_detection_range_lines`). Both copies of the generator run the
 * same loop over their own bounds, so the loop is written once here over a
 * lower bound `lo`, an upper bound `hi` and the block size `bs`.
 */
module DetectionRanges {
  import opened Templates

  /**
   * The value passed as `block_size`: an int, or a value of any other
   * Python type (a string such as "10", `None`, ...).
   */
  datatype BlockSizeArg = IntVal(n: int) | NonInt

  /** One distance range, both ends included. */
  datatype Range = Range(start: int, end: int)

  function Min(a: int, b: int): int {
    if a <= b then a else b
  }

  /**
   * The ranges the loop visits from `start` on: a block of `bs` values
   * starting at `start`, cut at `hi`, then the ranges from `start + bs`.
   */
  function Blocks(start: int, hi: int, bs: int): seq<Range>
    requires bs >= 1 // the loop never ends for bs <= 0; callers validate the size first
    decreases hi - start
  {
    if start > hi then [] else [Range(start, Min(start + bs - 1, hi))] + Blocks(start + bs, hi, bs)
  }

  /** The `i`-th range starts `i` blocks after `start` and ends a block later, or at `hi`. */
  lemma {:induction false} BlockAt(start: int, hi: int, bs: int, i: nat)
    requires bs >= 1 && i < |Blocks(start, hi, bs)|
    ensures Blocks(start, hi, bs)[i] == Range(start + i * bs, Min(start + i * bs + bs - 1, hi))
    decreases i
  {
    if i > 0 {
      BlockAt(start + bs, hi, bs, i - 1);
      assert start + bs + (i - 1) * bs == start + i * bs;
    }
  }

  /** Every range lies inside `[start, hi]` and is non-empty. */
  lemma {:induction false} BlocksInBounds(start: int, hi: int, bs: int)
    requires bs >= 1
    ensures forall i :: 0 <= i < |Blocks(start, hi, bs)| ==>
      start <= Blocks(start, hi, bs)[i].start <= Blocks(start, hi, bs)[i].end <= hi
    decreases hi - start
  {
    if start <= hi {
      BlocksInBounds(start + bs, hi, bs);
      var rs := Blocks(start, hi, bs);
      assert forall i :: 1 <= i < |rs| ==> rs[i] == Blocks(start + bs, hi, bs)[i - 1];
    }
  }

  /** Each range ends just before the next one starts. */
  lemma {:induction false} BlocksContiguous(start: int, hi: int, bs: int)
    requires bs >= 1
    ensures forall i :: 0 <= i < |Blocks(start, hi, bs)| - 1 ==>
      Blocks(start, hi, bs)[i].end + 1 == Blocks(start, hi, bs)[i + 1].start
    decreases hi - start
  {
    if start <= hi {
      BlocksContiguous(start + bs, hi, bs);
      var rs, tail := Blocks(start, hi, bs), Blocks(start + bs, hi, bs);
      assert forall i :: 1 <= i < |rs| ==> rs[i] == tail[i - 1];
      if tail != [] {
        assert tail[0].start == start + bs;
      }
    }
  }

  /**
   * Every range but the last holds exactly `bs` values; the last holds at
   * most `bs` and ends at `hi`.
   */
  lemma {:induction false} BlocksWidths(start: int, hi: int, bs: int)
    requires bs >= 1 && start <= hi
    ensures var rs := Blocks(start, hi, bs);
      |rs| >= 1 &&
      (forall i :: 0 <= i < |rs| - 1 ==> rs[i].end - rs[i].start + 1 == bs) &&
      rs[|rs| - 1].end - rs[|rs| - 1].start + 1 <= bs &&
      rs[|rs| - 1].end == hi
    decreases hi - start
  {
    var rs, tail := Blocks(start, hi, bs), Blocks(start + bs, hi, bs);
    if start + bs <= hi {
      BlocksWidths(start + bs, hi, bs);
      assert forall i :: 1 <= i < |rs| ==> rs[i] == tail[i - 1];
    }
  }

  /**
   * There are `n` ranges with `n - 1` whole blocks fitting before `hi` and
   * `n` blocks reaching past it.
   */
  lemma {:induction false} BlocksCount(start: int, hi: int, bs: int)
    requires bs >= 1 && start <= hi
    ensures var n := |Blocks(start, hi, bs)|;
      n >= 1 && start + (n - 1) * bs <= hi < start + n * bs
    decreases hi - start
  {
    var n := |Blocks(start, hi, bs)|;
    if start + bs <= hi {
      BlocksCount(start + bs, hi, bs);
      assert start + bs + (n - 2) * bs == start + (n - 1) * bs;
      assert start + bs + (n - 1) * bs == start + n * bs;
    }
  }

  /** `d` lies in one of the ranges `rs`. */
  predicate Covered(rs: seq<Range>, d: int) {
    exists i :: 0 <= i < |rs| && rs[i].start <= d <= rs[i].end
  }

  /** Every value of `[start, hi]` falls in some range. */
  lemma {:induction false} BlocksCover(start: int, hi: int, bs: int, d: int)
    requires bs >= 1 && start <= d <= hi
    ensures Covered(Blocks(start, hi, bs), d)
    decreases hi - start
  {
    var rs := Blocks(start, hi, bs);
    if d > Min(start + bs - 1, hi) {
      BlocksCover(start + bs, hi, bs, d);
      var i :| 0 <= i < |Blocks(start + bs, hi, bs)| &&
        Blocks(start + bs, hi, bs)[i].start <= d <= Blocks(start + bs, hi, bs)[i].end;
      assert rs[i + 1] == Blocks(start + bs, hi, bs)[i];
    } else {
      assert rs[0].start <= d <= rs[0].end;
    }
  }

  lemma MulStep(d: int, a: int, b: int)
    requires d > 0 && a < b
    ensures d * a + d <= d * b
  {
    var k := b - a - 1;
    assert d * b == d * a + d + d * k;
  }

  lemma DivUnique(x: int, d: int, q: int)
    requires d > 0 && d * q <= x < d * q + d
    ensures x / d == q
  {
    var q', r := x / d, x % d;
    assert x == d * q' + r && 0 <= r < d;
    if q' < q {
      MulStep(d, q', q);
    } else if q' > q {
      MulStep(d, q, q');
    }
  }

  /** The number of ranges is the width of `[lo, hi]` divided by `bs`, rounded up. */
  lemma BlockCount(lo: int, hi: int, bs: int)
    requires bs >= 1 && lo <= hi
    ensures var n := |Blocks(lo, hi, bs)|;
      (n - 1) * bs < hi - lo + 1 <= n * bs && n == (hi - lo + bs) / bs
  {
    var n := |Blocks(lo, hi, bs)|;
    BlocksCount(lo, hi, bs);
    assert bs * n <= hi - lo + bs < bs * n + bs;
    DivUnique(hi - lo + bs, bs, n);
  }

  // -------------------------------------------------------------- rendering

  /**
   * The text the loop appends for the ranges `rs`: each range's column line,
   * followed by ",\n", except the last one, followed by "\n".
   */
  function Render(rs: seq<Range>): string {
    if rs == [] then ""
    else Line(rs[0].start, rs[0].end) + (if |rs| == 1 then "\n" else ",\n") + Render(rs[1..])
  }

  /** The column line of range `i` of `rs`, with a trailing comma unless it is the last. */
  function Columns(rs: seq<Range>): (cs: seq<string>)
    ensures |cs| == |rs|
  {
    seq(|rs|, i requires 0 <= i < |rs| => Line(rs[i].start, rs[i].end) + (if i + 1 < |rs| then "," else ""))
  }

  /** The lines `ls`, each ended by a line break. */
  function Unlines(ls: seq<string>): string {
    if ls == [] then "" else ls[0] + "\n" + Unlines(ls[1..])
  }

  /**
   * The rendered text is the range columns, one per line, in range order,
   * all but the last ending with a comma.
   */
  lemma {:induction false} RenderLines(rs: seq<Range>)
    ensures Render(rs) == Unlines(Columns(rs))
  {
    if rs != [] {
      RenderLines(rs[1..]);
      var cs := Columns(rs);
      assert cs[1..] == Columns(rs[1..]);
      if |rs| == 1 {
        assert cs[0] + "\n" == Line(rs[0].start, rs[0].end) + "\n";
      } else {
        assert cs[0] + "\n" == Line(rs[0].start, rs[0].end) + ",\n";
      }
    }
  }

  /** No column holds a line break, so the text has exactly one line per range. */
  lemma {:induction false} RenderLineBreaks(rs: seq<Range>)
    ensures multiset(Render(rs))['\n'] == |rs|
  {
    if rs != [] {
      RenderLineBreaks(rs[1..]);
      var line := Line(rs[0].start, rs[0].end);
      LinePlain(rs[0].start, rs[0].end);
      assert '\n' !in line;
      var sep := if |rs| == 1 then "\n" else ",\n";
      assert multiset(sep)['\n'] == 1;
      assert multiset(line + sep + Render(rs[1..])) == multiset(line) + multiset(sep) + multiset(Render(rs[1..]));
    }
  }

  /** The rendered text holds no marker character, so no marker is left. */
  lemma {:induction false} RenderHashFree(rs: seq<Range>)
    ensures '#' !in Render(rs)
  {
    if rs != [] {
      RenderHashFree(rs[1..]);
      LinePlain(rs[0].start, rs[0].end);
    }
  }

  /** Rendering the ranges from `start` on emits the first range, then the ranges of the next block. */
  lemma RenderStep(start: int, hi: int, bs: int)
    requires bs >= 1 && start <= hi
    ensures Render(Blocks(start, hi, bs)) ==
      Line(start, Min(start + bs - 1, hi)) + (if start + bs > hi then "\n" else ",\n") + Render(Blocks(start + bs, hi, bs))
  {
    var rs := Blocks(start, hi, bs);
    assert rs[1..] == Blocks(start + bs, hi, bs);
  }

  /** Appending the first range's line and its separator moves the loop on by one block. */
  lemma AppendStep(done: string, start: int, hi: int, bs: int, whole: string)
    requires bs >= 1 && start <= hi
    requires done + Render(Blocks(start, hi, bs)) == whole
    ensures done + Line(start, Min(start + bs - 1, hi)) + (if start + bs > hi then "\n" else ",\n")
      + Render(Blocks(start + bs, hi, bs)) == whole
  {
    RenderStep(start, hi, bs);
  }

  /**
   * `_get_sql_detection_range_lines`: walks `start` from `lo` in steps of
   * `bs` while it is at most `hi`, substitutes each range into the line
   * template and appends it with ",\n", or "\n" when the next start is past
   * `hi`.
   */
  method RangeLines(lo: int, hi: int, bs: int) returns (output: string)
    requires bs >= 1 // with bs <= 0 `start` never passes `hi`; the only caller validates first
    ensures output == Render(Blocks(lo, hi, bs))
  {
    output := "";
    var start := lo;
    while start <= hi
      invariant output + Render(Blocks(start, hi, bs)) == Render(Blocks(lo, hi, bs))
      decreases hi - start
    {
      var end := start + bs - 1;
      if end > hi {
        end := hi;
      }
      var newline := Line(start, end);
      AppendStep(output, start, hi, bs, Render(Blocks(lo, hi, bs)));
      start := start + bs;
      if start > hi {
        output := output + newline + "\n";
      } else {
        output := output + newline + ",\n";
      }
    }
  }
}
