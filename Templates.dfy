/**
 * The two SQL templates of the query generator and what substituting into
 * them with `str.replace` produces.
 *
 * A template is kept as a list of pieces: literal text, and holes that the
 * template text shows as markers `###NAME###`. The template strings of the
 * source are the shown piece lists, and the main theorem here says that
 * replacing a marker in the shown text is the same as filling that hole.
 */
module Templates {
  import opened Text

  /** The placeholders of the templates. */
  datatype Slot = Start | End | PlaceHolder

  function Name(slot: Slot): string {
    match slot
    case Start => "START"
    case End => "END"
    case PlaceHolder => "PLACE_HOLDER"
  }

  /** How a placeholder appears in template text. */
  function Marker(slot: Slot): (m: string)
    ensures |m| > 6 && m[0] == '#'
  {
    "###" + Name(slot) + "###"
  }

  /** A template: literal text and holes, in order. */
  datatype Template = Empty | Text(s: string, rest: Template) | Hole(slot: Slot, rest: Template)

  /** The template text: literal text as is, holes as their markers. */
  function Show(t: Template): string {
    match t
    case Empty => ""
    case Text(s, r) => s + Show(r)
    case Hole(x, r) => Marker(x) + Show(r)
  }

  /** The template with every hole for `slot` turned into the literal text `v`. */
  function Fill(t: Template, slot: Slot, v: string): Template {
    match t
    case Empty => Empty
    case Text(s, r) => Text(s, Fill(r, slot, v))
    case Hole(x, r) => if x == slot then Text(v, Fill(r, slot, v)) else Hole(x, Fill(r, slot, v))
  }

  /** A character that cannot continue a marker: neither '#' nor an upper-case letter. */
  predicate EndsMarker(c: char) {
    c != '#' && !('A' <= c <= 'Z')
  }

  /** `t` is empty or starts with non-empty text whose first character ends a marker. */
  predicate SafeAfterHole(t: Template) {
    t.Empty? || (t.Text? && t.s != [] && EndsMarker(t.s[0]))
  }

  /**
   * Literal text never holds a '#', and a hole is last or followed by
   * literal text that cannot continue its marker; then a marker can only be
   * found where the template has a hole.
   */
  predicate Spaced(t: Template) {
    match t
    case Empty => true
    case Text(s, r) => '#' !in s && Spaced(r)
    case Hole(_, r) => SafeAfterHole(r) && Spaced(r)
  }

  lemma NotPrefixAt(x: string, p: string, k: nat)
    requires k < |p|
    requires k < |x| ==> x[k] != p[k]
    ensures !StartsWith(x, p)
  {
    if k < |x| && |p| <= |x| {
      assert x[..|p|][k] == x[k];
    }
  }

  /** The marker of one slot never starts inside the marker of another one. */
  lemma MarkerNoMatch(o: Slot, slot: Slot, rest: string)
    requires o != slot
    requires rest == [] || EndsMarker(rest[0])
    ensures NoMatchStartsIn(Marker(o), rest, Marker(slot))
  {
    var m, p, n := Marker(o), Marker(slot), |Name(o)|;
    forall j | 0 <= j < |m|
      ensures !StartsWith(m[j..] + rest, p)
    {
      var x := m[j..] + rest;
      if j < 3 {
        assert x[3 - j] == m[3] == Name(o)[0];
        NotPrefixAt(x, p, 3 - j);
      } else if j < 3 + n {
        assert x[0] == m[j] == Name(o)[j - 3];
        NotPrefixAt(x, p, 0);
      } else {
        assert |m[j..]| == |m| - j;
        NotPrefixAt(x, p, |m| - j);
      }
    }
  }

  /**
   * `str.replace` of a marker on the template text fills the holes for that
   * marker and leaves the rest of the template as it was.
   */
  lemma {:induction false} ReplaceFills(t: Template, slot: Slot, v: string)
    requires Spaced(t)
    ensures ReplaceAll(Show(t), Marker(slot), v) == Show(Fill(t, slot, v))
  {
    var p := Marker(slot);
    match t
    case Empty =>
      assert !StartsWith("", p);
    case Text(s, r) =>
      ReplaceFills(r, slot, v);
      NoMatchInCharFree(s, Show(r), p);
      ReplaceAllSkips(s, Show(r), p, v);
    case Hole(o, r) =>
      ReplaceFills(r, slot, v);
      if o == slot {
        ReplaceAllAtFront(p, Show(r), v);
      } else {
        if r.Text? {
          assert Show(r)[0] == r.s[0];
        }
        MarkerNoMatch(o, slot, Show(r));
        ReplaceAllSkips(Marker(o), Show(r), p, v);
      }
  }

  /** Filling a hole with text free of '#' keeps a template spaced. */
  lemma {:induction false} FillSpaced(t: Template, slot: Slot, v: string)
    requires Spaced(t) && '#' !in v
    ensures Spaced(Fill(t, slot, v))
  {
    match t
    case Empty =>
    case Text(_, r) => FillSpaced(r, slot, v);
    case Hole(x, r) =>
      FillSpaced(r, slot, v);
      assert SafeAfterHole(Fill(r, slot, v)) by {
        if r.Hole? { assert r.Empty? || r.Text?; }
      }
  }

  // ------------------------------------------------------- the two templates

  /** Text with neither a marker character nor a line break. */
  predicate Plain(s: string) {
    forall k :: 0 <= k < |s| ==> s[k] != '#' && s[k] != '\n'
  }

  lemma PlainAppend(a: string, b: string)
    requires Plain(a) && Plain(b)
    ensures Plain(a + b)
  {
  }

  /** Decimal text, with a sign for negatives, is plain. */
  lemma NumberPlain(i: int)
    ensures Plain(IntToString(i))
  {
  }

  /*
   * The line template, cut at its markers; long literals are written as
   * several shorter ones.
   */
  const Round := "ROUND((SUM(CASE WHEN distance BETWEEN "
  const And := " AND "
  const Detected := " AND detection = TRUE THEN " + "1 ELSE 0 END) * 100.0 / " + "NULLIF(SUM(CASE WHEN distance BETWEEN "
  const Cast := " THEN 1 ELSE 0 END), 0)), 3) AS "
  const Dash := "-"
  const Quote := "\""

  /** `###START###`, the text `sep`, `###END###`, then `rest`: the shape that occurs three times in a line. */
  function Pair(sep: string, rest: Template): Template {
    Hole(Start, Text(sep, Hole(End, rest)))
  }

  /**
   * `_get_sql_detection_range_template`: the aggregate column for one
   * distance range, the percentage of true detections among the rows whose
   * distance lies between `###START###` and `###END###`, rounded to three
   * places and aliased `"###START###-###END###"`.
   */
  const LineTemplate: Template :=
    Text(Round, Pair(And, Text(Detected, Pair(And, Text(Cast, Text(Quote, Pair(Dash, Text(Quote, Empty))))))))

  lemma DetectedPlain()
    ensures Plain(Detected)
  {
    assert Plain(" AND detection = TRUE THEN ");
    assert Plain("1 ELSE 0 END) * 100.0 / ");
    assert Plain("NULLIF(SUM(CASE WHEN distance BETWEEN ");
    PlainAppend(" AND detection = TRUE THEN ", "1 ELSE 0 END) * 100.0 / ");
    PlainAppend(" AND detection = TRUE THEN " + "1 ELSE 0 END) * 100.0 / ", "NULLIF(SUM(CASE WHEN distance BETWEEN ");
  }

  lemma LineTextsPlain()
    ensures Plain(Round) && Plain(And) && Plain(Detected) && Plain(Cast) && Plain(Dash) && Plain(Quote)
  {
    assert Plain(Round) by {}
    assert Plain(Cast) by {}
    DetectedPlain();
  }

  lemma PairSpaced(sep: string, rest: Template)
    requires sep != [] && EndsMarker(sep[0]) && Plain(sep)
    requires SafeAfterHole(rest) && Spaced(rest)
    ensures Spaced(Pair(sep, rest))
  {
  }

  lemma PairFilled(sep: string, rest: Template, a: string, b: string)
    ensures Show(FillBoth(Pair(sep, rest), a, b)) == a + sep + b + Show(FillBoth(rest, a, b))
  {
    var r1 := Fill(rest, Start, a);
    assert Fill(Hole(End, rest), Start, a) == Hole(End, r1);
    assert Fill(Text(sep, Hole(End, rest)), Start, a) == Text(sep, Hole(End, r1));
    assert Fill(Pair(sep, rest), Start, a) == Text(a, Text(sep, Hole(End, r1)));
    var r := Fill(r1, End, b);
    assert Fill(Hole(End, r1), End, b) == Text(b, r);
    assert Fill(Text(sep, Hole(End, r1)), End, b) == Text(sep, Text(b, r));
    assert Fill(Text(a, Text(sep, Hole(End, r1))), End, b) == Text(a, Text(sep, Text(b, r)));
    assert Show(Text(b, r)) == b + Show(r);
    assert Show(Text(sep, Text(b, r))) == sep + (b + Show(r));
    assert Show(Text(a, Text(sep, Text(b, r)))) == a + (sep + (b + Show(r)));
  }

  lemma TextFilled(s: string, rest: Template, a: string, b: string)
    ensures Show(FillBoth(Text(s, rest), a, b)) == s + Show(FillBoth(rest, a, b))
  {
    assert Fill(Text(s, rest), Start, a) == Text(s, Fill(rest, Start, a));
    assert FillBoth(Text(s, rest), a, b) == Text(s, FillBoth(rest, a, b));
  }

  lemma LineSpaced()
    ensures Spaced(LineTemplate)
  {
    LineTextsPlain();
    var p3 := Pair(Dash, Text(Quote, Empty));
    PairSpaced(Dash, Text(Quote, Empty));
    var p2 := Pair(And, Text(Cast, Text(Quote, p3)));
    PairSpaced(And, Text(Cast, Text(Quote, p3)));
    var p1 := Pair(And, Text(Detected, p2));
    PairSpaced(And, Text(Detected, p2));
  }

  /**
   * One range column: the line template with `str(start)` put in for every
   * `###START###` and then `str(end)` for every `###END###`.
   */
  function Line(start: int, end: int): string {
    ReplaceAll(ReplaceAll(Show(LineTemplate), Marker(Start), IntToString(start)), Marker(End), IntToString(end))
  }

  /** Both holes of `t` filled, first `###START###` with `a`, then `###END###` with `b`. */
  function FillBoth(t: Template, a: string, b: string): Template {
    Fill(Fill(t, Start, a), End, b)
  }

  /**
   * The line template's text with `a` in place of every `###START###` and
   * `b` in place of every `###END###`.
   */
  function ColumnText(a: string, b: string): string {
    Round + (a + And + b + (Detected + (a + And + b + (Cast + (Quote + (a + Dash + b + Quote))))))
  }

  /** Filling both holes of the line template gives its text with the two values in place. */
  lemma LineFilled(a: string, b: string)
    ensures Show(FillBoth(LineTemplate, a, b)) == ColumnText(a, b)
  {
    var t3 := a + Dash + b + Quote;
    var p3 := Pair(Dash, Text(Quote, Empty));
    assert Show(FillBoth(p3, a, b)) == t3 by {
      PairFilled(Dash, Text(Quote, Empty), a, b);
      assert Fill(Text(Quote, Empty), Start, a) == Text(Quote, Empty);
      assert Fill(Text(Quote, Empty), End, b) == Text(Quote, Empty);
      assert Show(Text(Quote, Empty)) == Quote;
    }
    var t2 := a + And + b + (Cast + (Quote + t3));
    var p2 := Pair(And, Text(Cast, Text(Quote, p3)));
    assert Show(FillBoth(p2, a, b)) == t2 by {
      PairFilled(And, Text(Cast, Text(Quote, p3)), a, b);
      TextFilled(Cast, Text(Quote, p3), a, b);
      TextFilled(Quote, p3, a, b);
    }
    var t1 := a + And + b + (Detected + t2);
    var p1 := Pair(And, Text(Detected, p2));
    assert Show(FillBoth(p1, a, b)) == t1 by {
      PairFilled(And, Text(Detected, p2), a, b);
      TextFilled(Detected, p2, a, b);
    }
    TextFilled(Round, p1, a, b);
  }

  /** The substituted line is the template text with the two numbers in place of the markers. */
  lemma LineForm(start: int, end: int)
    ensures Line(start, end) == ColumnText(IntToString(start), IntToString(end))
  {
    var a, b := IntToString(start), IntToString(end);
    NumberPlain(start);
    LineSpaced();
    ReplaceFills(LineTemplate, Start, a);
    FillSpaced(LineTemplate, Start, a);
    ReplaceFills(Fill(LineTemplate, Start, a), End, b);
    LineFilled(a, b);
  }

  /** Under both holes filled with plain text, a column line is plain: no marker character and no line break. */
  lemma ColumnPlain(a: string, b: string)
    requires Plain(a) && Plain(b)
    ensures Plain(ColumnText(a, b))
  {
    LineTextsPlain();
    PlainAppend(a, Dash);
    PlainAppend(a + Dash, b);
    PlainAppend(a + Dash + b, Quote);
    PlainAppend(Quote, a + Dash + b + Quote);
    PlainAppend(Cast, Quote + (a + Dash + b + Quote));
    PlainAppend(a, And);
    PlainAppend(a + And, b);
    var t2 := a + And + b + (Cast + (Quote + (a + Dash + b + Quote)));
    PlainAppend(a + And + b, Cast + (Quote + (a + Dash + b + Quote)));
    PlainAppend(Detected, t2);
    PlainAppend(a + And + b, Detected + t2);
    PlainAppend(Round, a + And + b + (Detected + t2));
  }

  /** A substituted column line holds neither a marker character nor a line break. */
  lemma LinePlain(start: int, end: int)
    ensures Plain(Line(start, end))
  {
    LineForm(start, end);
    NumberPlain(start);
    NumberPlain(end);
    ColumnPlain(IntToString(start), IntToString(end));
  }

  /** The label of a range: `str(start)`, a dash, `str(end)`. */
  function Label(start: int, end: int): string {
    IntToString(start) + "-" + IntToString(end)
  }

  /** The alias of a column is the label of its range between double quotes, at the end of the line. */
  lemma LineAlias(start: int, end: int)
    ensures exists p :: Line(start, end) == p + ("\"" + Label(start, end) + "\"")
  {
    var a, b := IntToString(start), IntToString(end);
    LineForm(start, end);
    var p := Round + (a + And + b + (Detected + (a + And + b + Cast)));
    assert Line(start, end) == p + (Quote + (a + Dash + b + Quote));
    assert Quote + (a + Dash + b + Quote) == "\"" + (a + "-" + b) + "\"";
    assert a + "-" + b == Label(start, end);
  }

  /*
   * The outer query of `_get_template_query`, cut at its one marker; its
   * lines are indented by twelve and sixteen spaces.
   */
  const Indent12 := "            "
  const Indent16 := "                "
  const Head := "\n" + Indent12 + "SELECT \n" + Indent16 + "vehicle_type,\n" + Indent16
  const Tail := "\n" + TailLines
  const TailLines := Indent12 + "FROM \n" + Indent16 + "mobileye_detect_vehicle_db.data\n"
    + Indent12 + "WHERE \n" + Indent16 + "distance BETWEEN 1 AND 100\n"
    + Indent12 + "GROUP BY \n" + Indent16 + "vehicle_type\n"
    + Indent12 + "ORDER BY \n" + Indent16 + "vehicle_type;\n" + Indent16

  /** `_get_template_query`: select the category and the range columns over distances 1 to 100, per category. */
  const QueryTemplate: Template := Text(Head, Hole(PlaceHolder, Text(Tail, Empty)))

  lemma SkeletonHashFree()
    ensures '#' !in Head && '#' !in Tail && Tail[0] == '\n'
  {
    assert '#' !in Indent12 && '#' !in Indent16;
    assert '#' !in "mobileye_detect_vehicle_db.data\n";
    assert '#' !in "distance BETWEEN 1 AND 100\n";
  }

  /**
   * Replacing `###PLACE_HOLDER###` in the outer query by `v` puts `v`
   * between the unchanged text before and after the marker.
   */
  lemma QuerySpaced()
    ensures Spaced(QueryTemplate)
  {
    SkeletonHashFree();
    assert Spaced(Text(Tail, Empty));
    assert Spaced(Hole(PlaceHolder, Text(Tail, Empty)));
  }

  lemma QueryFilled(v: string)
    ensures Show(QueryTemplate) == Head + (Marker(PlaceHolder) + Tail)
    ensures ReplaceAll(Show(QueryTemplate), Marker(PlaceHolder), v) == Head + (v + Tail)
  {
    QuerySpaced();
    ReplaceFills(QueryTemplate, PlaceHolder, v);
    assert Fill(Text(Tail, Empty), PlaceHolder, v) == Text(Tail, Empty);
    assert Fill(Hole(PlaceHolder, Text(Tail, Empty)), PlaceHolder, v) == Text(v, Text(Tail, Empty));
    assert Fill(QueryTemplate, PlaceHolder, v) == Text(Head, Text(v, Text(Tail, Empty)));
    assert Show(Text(Tail, Empty)) == Tail;
    assert Show(Hole(PlaceHolder, Text(Tail, Empty))) == Marker(PlaceHolder) + Tail;
  }

  /** Ranges of non-negative ends with the same label are the same range, so no two columns share an alias. */
  lemma LabelInjective(s1: nat, e1: nat, s2: nat, e2: nat)
    requires Label(s1, e1) == Label(s2, e2)
    ensures s1 == s2 && e1 == e2
  {
    var a1, a2 := IntToString(s1), IntToString(s2);
    var shown := Label(s1, e1);
    assert shown == a1 + ("-" + IntToString(e1));
    assert shown == a2 + ("-" + IntToString(e2));
    DashAfterDigits(a1, "-" + IntToString(e1));
    DashAfterDigits(a2, "-" + IntToString(e2));
    var k := |a1|;
    assert a1 == shown[..k] == a2;
    assert IntToString(e1) == shown[k + 1..] == IntToString(e2);
    IntToStringInjective(s1, s2);
    IntToStringInjective(e1, e2);
  }
}
