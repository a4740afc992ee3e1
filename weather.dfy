/** The weather report of `main.js`: one request for the latest InSight
    weather, a guard against a non-OK response and against a payload without
    sols, the write of the payload to `output_insight.json`, and a text table
    with one column per sol.

    The run is a function of what the request answers. The two conversions
    the table leaves to the JavaScript runtime are parameters:
    `fmt(x)` is `x.toFixed(1)`, and `iso(d)` is `new Date(d).toISOString()`,
    `None` when `d` is not a date (a RangeError). */
module Weather {
  import opened Wrappers
  import opened Http
  import opened JsString

  /** The fields of one sol the table reads. `firstUtc` is `First_UTC`; the
      three readings are the `av` fields of `AT`, `HWS` and `PRE`, `None`
      where the reading or its `av` is absent. */
  datatype Sol = Sol(firstUtc: Option<string>, at: Option<real>, hws: Option<real>, pre: Option<real>)

  /** The response body: `sol_keys` (`None` when absent or null) and the
      objects stored under the sol keys. */
  datatype Payload = Payload(solKeys: Option<seq<string>>, sols: map<string, Sol>)

  /** The cells of the table, one per sol, in `sol_keys` order. */
  datatype Table = Table(headers: seq<string>, dates: seq<string>, temps: seq<string>,
                         winds: seq<string>, pressures: seq<string>)

  /** How a run ends. `Saved` wrote the payload to `output_insight.json`; its
      table is `None` when building the table threw (a sol key with no
      object, or a `First_UTC` that is not a date), so nothing was printed. */
  datatype Outcome =
    | Crashed              // the request itself was rejected: unhandled
    | ApiError(status: int) // non-OK response, logged
    | NoData               // `sol_keys` absent or empty, logged
    | Saved(data: Payload, table: Option<Table>)

  /** The three readings, each printed with its unit after the value. */
  datatype Metric = Temperature | Wind | Pressure {
    function Unit(): (u: string) {
      match this
      case Temperature => " °C"
      case Wind => " м/с"
      case Pressure => " Па"
    }

    function Reading(sol: Sol): (v: Option<real>) {
      match this
      case Temperature => sol.at
      case Wind => sol.hws
      case Pressure => sol.pre
    }
  }

  /** The cell of a value that is not there. */
  const Missing: string := "н/д"

  const LabelWidth: nat := 25
  const CellWidth: nat := 18
  const Separator: string := " | "
  const RuleWidth: nat := 100
  /** The line under the header row. */
  const Rule: string := Repeat('-', RuleWidth)

  /** The row titles, each written as its leading part (an emoji on the
      reading rows) and the rest. */
  const HeaderLabel: string := "Параметр" + " / Sol"
  const DatesLabel: string := "\U{1F30D}" + " Земна дата"
  const TempsLabel: string := "\U{1F321}" + " Температура"
  const WindsLabel: string := "\U{1F32C}" + " Вітер"
  const PressuresLabel: string := "\U{1F4C8}" + " Тиск"

  // ---------------------------------------------------------------------
  // Cells
  // ---------------------------------------------------------------------

  /** The column headers: one per sol, in order, "Sol " and the key. */
  function Headers(sols: seq<string>): (r: seq<string>)
    ensures |r| == |sols|
    ensures forall i :: 0 <= i < |sols| ==> r[i] == "Sol " + sols[i]
  {
    seq(|sols|, i requires 0 <= i < |sols| => "Sol " + sols[i])
  }

  /** Different sols get different headers, and each header gives its sol
      back after the four characters of "Sol ". */
  lemma HeadersDistinct(sols: seq<string>, i: nat, j: nat)
    requires i < |sols| && j < |sols|
    ensures Headers(sols)[i][4..] == sols[i]
    ensures Headers(sols)[i] == Headers(sols)[j] <==> sols[i] == sols[j]
  {
    var h := Headers(sols);
    assert h[i][4..] == sols[i];
    assert h[j][4..] == sols[j];
  }

  /** No unit ends the way `Missing` does, so a formatted reading is never
      mistaken for a missing one. */
  lemma UnitNotMissing(m: Metric, s: string)
    ensures s + m.Unit() != Missing
  {
    var r := s + m.Unit();
    assert r[|r| - 1] == m.Unit()[|m.Unit()| - 1];
    assert Missing[|Missing| - 1] == 'д';
  }

  /** A reading cell: `Missing` exactly when the reading is absent, and
      otherwise the formatted value followed by the unit. */
  function MetricCell(m: Metric, v: Option<real>, fmt: real -> string): (r: string)
    ensures r == Missing <==> v.None?
    ensures v.Some? ==> fmt(v.value) <= r && r[|fmt(v.value)|..] == m.Unit()
  {
    match v
    case None => Missing
    case Some(x) =>
      UnitNotMissing(m, fmt(x));
      assert (fmt(x) + m.Unit())[|fmt(x)|..] == m.Unit();
      fmt(x) + m.Unit()
  }

  /** A date cell: `Missing` when `First_UTC` is absent or the empty string
      (both falsy), otherwise the part of its ISO form before the first 'T';
      `None` when the text is not a date. */
  function DateCell(sol: Sol, iso: string -> Option<string>): (r: Option<string>)
    ensures sol.firstUtc.None? || sol.firstUtc == Some("") ==> r == Some(Missing)
    ensures sol.firstUtc.Some? && sol.firstUtc != Some("") ==>
      var t := iso(sol.firstUtc.value);
      (r.Some? <==> t.Some?)
      && (r.Some? ==> r.value <= t.value && 'T' !in r.value
                      && (|r.value| == |t.value| || t.value[|r.value|] == 'T'))
  {
    match sol.firstUtc
    case None => Some(Missing)
    case Some(d) =>
      if d == "" then Some(Missing)
      else match iso(d)
        case None => None
        case Some(t) => Some(BeforeFirst(t, 'T'))
  }

  /** An ISO timestamp "YYYY-MM-DDTHH:mm:ss.sssZ" gives the cell
      "YYYY-MM-DD". */
  lemma DateCellOfTimestamp(sol: Sol, iso: string -> Option<string>, date: string, time: string)
    requires sol.firstUtc.Some? && sol.firstUtc != Some("")
    requires iso(sol.firstUtc.value) == Some(date + "T" + time)
    requires 'T' !in date
    ensures DateCell(sol, iso) == Some(date)
  {
    BeforeFirstOfJoined(date, 'T', time);
    assert date + "T" + time == date + ['T'] + time;
  }

  // ---------------------------------------------------------------------
  // Rows
  // ---------------------------------------------------------------------

  /** Every value padded to the cell width. */
  function Cells(values: seq<string>): (cells: seq<string>)
    ensures |cells| == |values|
    ensures forall i :: 0 <= i < |values| ==> cells[i] == PadEnd(values[i], CellWidth)
  {
    seq(|values|, i requires 0 <= i < |values| => PadEnd(values[i], CellWidth))
  }

  /** `row(title, values)`: the title padded to 25 code units, " | ", then the
      values padded to 18 code units each and joined with " | ". */
  function Row(title: string, values: seq<string>): (r: string)
    ensures title <= r
    ensures forall i :: |title| <= i < |PadEnd(title, LabelWidth)| ==> i < |r| && r[i] == ' '
  {
    PadEnd(title, LabelWidth) + Separator + Join(Separator, Cells(values))
  }

  /** A value fits its cell when it is at most 18 code units long. */
  predicate Fits(values: seq<string>) {
    forall i :: 0 <= i < |values| ==> Utf16Length(values[i]) <= CellWidth
  }

  lemma SeparatorWidth()
    ensures Utf16Length(Separator) == 3
  {
    assert Separator[1..][1..][1..] == [];
  }

  /** Padding makes every fitting value exactly one cell wide. */
  lemma CellsWidth(values: seq<string>)
    requires Fits(values)
    ensures forall i :: 0 <= i < |values| ==> Utf16Length(Cells(values)[i]) == CellWidth
  {
  }

  /** A row whose title fits is 25 + 3 code units before its first cell and
      18 + 3 units per further cell: 25 + 21 n for n > 0 cells, 28 for none.
      Every row with the same number of fitting cells has the same width. */
  lemma {:induction false} RowWidth(title: string, values: seq<string>)
    requires Utf16Length(title) <= LabelWidth
    requires Fits(values)
    ensures Utf16Length(Row(title, values)) ==
      if values == [] then LabelWidth + 3 else LabelWidth + (CellWidth + 3) * |values|
  {
    var cells := Cells(values);
    SeparatorWidth();
    Utf16LengthAppend(PadEnd(title, LabelWidth), Separator);
    Utf16LengthAppend(PadEnd(title, LabelWidth) + Separator, Join(Separator, cells));
    if values != [] {
      CellsWidth(values);
      JoinWidth(Separator, cells, CellWidth);
    }
  }

  /** The part of a row before cell `k`: the padded title, the separator,
      and the cells before `k`, each followed by a separator. */
  function RowPrefix(title: string, values: seq<string>, k: nat): (r: string)
    requires k <= |values|
  {
    PadEnd(title, LabelWidth) + Separator + JoinBefore(Cells(values), k)
  }

  function JoinBefore(cells: seq<string>, k: nat): (r: string)
    requires k <= |cells|
  {
    if k == 0 then "" else Join(Separator, cells[..k]) + Separator
  }

  /** Cell `k` of every row whose title and cells fit starts at code unit
      28 + 21 k: the columns of the table line up. */
  lemma RowColumn(title: string, values: seq<string>, k: nat)
    requires k < |values|
    requires Utf16Length(title) <= LabelWidth
    requires Fits(values)
    ensures RowPrefix(title, values, k) + PadEnd(values[k], CellWidth) <= Row(title, values)
    ensures Utf16Length(RowPrefix(title, values, k)) == LabelWidth + 3 + (CellWidth + 3) * k
  {
    var cells := Cells(values);
    var head := PadEnd(title, LabelWidth) + Separator;
    JoinColumn(cells, k);
    PrefixAppend(head, JoinBefore(cells, k) + cells[k], Join(Separator, cells));
    assert head + (JoinBefore(cells, k) + cells[k]) == RowPrefix(title, values, k) + PadEnd(values[k], CellWidth);
    SeparatorWidth();
    Utf16LengthAppend(PadEnd(title, LabelWidth), Separator);
    Utf16LengthAppend(head, JoinBefore(cells, k));
    CellsWidth(values);
    JoinBeforeWidth(cells, k);
  }

  /** In a join, cell `k` follows the cells before it and their separators. */
  lemma {:induction false} JoinColumn(cells: seq<string>, k: nat)
    requires k < |cells|
    ensures JoinBefore(cells, k) + cells[k] <= Join(Separator, cells)
  {
    if k > 0 {
      JoinSplit(Separator, cells, k);
      assert cells[k..][0] == cells[k];
      var before := Join(Separator, cells[..k]) + Separator;
      PrefixAppend(before, cells[k], Join(Separator, cells[k..]));
    }
  }

  lemma PrefixAppend<T>(a: seq<T>, b: seq<T>, c: seq<T>)
    requires b <= c
    ensures a + b <= a + c
  {
    assert (a + c)[..|a + b|] == a + b;
  }

  /** `k` cells of 18 code units and their separators take 21 k units. */
  lemma JoinBeforeWidth(cells: seq<string>, k: nat)
    requires k <= |cells|
    requires forall i :: 0 <= i < |cells| ==> Utf16Length(cells[i]) == CellWidth
    ensures Utf16Length(JoinBefore(cells, k)) == (CellWidth + 3) * k
  {
    if k > 0 {
      var before := cells[..k];
      assert forall i :: 0 <= i < k ==> Utf16Length(before[i]) == CellWidth;
      JoinWidth(Separator, before, CellWidth);
      SeparatorWidth();
      Utf16LengthAppend(Join(Separator, before), Separator);
      MulPred(k, 3);
    }
  }

  /** The rule is 100 dashes, 100 code units. */
  lemma RuleIsDashes()
    ensures |Rule| == RuleWidth && Utf16Length(Rule) == RuleWidth
    ensures forall i :: 0 <= i < |Rule| ==> Rule[i] == '-'
  {
    Utf16LengthRepeat('-', RuleWidth);
  }

  // ---------------------------------------------------------------------
  // The table and the run
  // ---------------------------------------------------------------------

  /** The table of the sols in `sol_keys` order, or `None` when building it
      throws: a sol key without an object (TypeError) or a date that is not
      one (RangeError). */
  function MakeTable(sols: seq<string>, data: map<string, Sol>,
                     fmt: real -> string, iso: string -> Option<string>): (r: Option<Table>)
    ensures r.Some? <==> forall i :: 0 <= i < |sols| ==>
      sols[i] in data && DateCell(data[sols[i]], iso).Some?
    ensures r.Some? ==>
      var t := r.value;
      |t.headers| == |t.dates| == |t.temps| == |t.winds| == |t.pressures| == |sols|
      && t.headers == Headers(sols)
      && forall i :: 0 <= i < |sols| ==>
        var sol := data[sols[i]];
        Some(t.dates[i]) == DateCell(sol, iso)
        && t.temps[i] == MetricCell(Temperature, sol.at, fmt)
        && t.winds[i] == MetricCell(Wind, sol.hws, fmt)
        && t.pressures[i] == MetricCell(Pressure, sol.pre, fmt)
  {
    if exists i :: 0 <= i < |sols| && (sols[i] !in data || DateCell(data[sols[i]], iso).None?) then None
    else
      Some(Table(
        Headers(sols),
        seq(|sols|, i requires 0 <= i < |sols| => DateCell(data[sols[i]], iso).value),
        MetricCells(sols, data, Temperature, fmt),
        MetricCells(sols, data, Wind, fmt),
        MetricCells(sols, data, Pressure, fmt)))
  }

  /** One reading of every sol, in order. */
  function MetricCells(sols: seq<string>, data: map<string, Sol>, m: Metric, fmt: real -> string)
    : (r: seq<string>)
    requires forall i :: 0 <= i < |sols| ==> sols[i] in data
    ensures |r| == |sols|
    ensures forall i :: 0 <= i < |sols| ==> r[i] == MetricCell(m, m.Reading(data[sols[i]]), fmt)
  {
    seq(|sols|, i requires 0 <= i < |sols| => MetricCell(m, m.Reading(data[sols[i]]), fmt))
  }

  /** The row titles, top to bottom, and the cells of each row. */
  const Titles: seq<string> := [HeaderLabel, DatesLabel, TempsLabel, WindsLabel, PressuresLabel]

  function Columns(t: Table): (columns: seq<seq<string>>)
    ensures |columns| == 5
  {
    [t.headers, t.dates, t.temps, t.winds, t.pressures]
  }

  /** The line that prints row `j`: the rule sits between rows 0 and 1. */
  function LineOf(j: nat): (i: nat) {
    if j == 0 then 0 else j + 1
  }

  /** The row printed on line `i`, for the lines other than the rule. */
  function RowOf(i: nat): (j: nat)
    requires i != 1
    ensures LineOf(j) == i
  {
    if i == 0 then 0 else i - 1
  }

  /** The printed table: the header row, 100 dashes, then one row per
      reading. */
  function Lines(t: Table): (lines: seq<string>)
    ensures |lines| == 6
  {
    seq(6, i requires 0 <= i < 6 =>
      if i == 1 then Rule else Row(Titles[RowOf(i)], Columns(t)[RowOf(i)]))
  }

  /** The rule is printed right under the header row. */
  lemma LinesRule(t: Table)
    ensures Lines(t)[1] == Rule
  {
  }

  /** Every line but the rule is the row of one title and its cells. */
  lemma LinesRow(t: Table, j: nat)
    requires j < 5
    ensures Lines(t)[LineOf(j)] == Row(Titles[j], Columns(t)[j])
  {
    assert LineOf(j) != 1 && RowOf(LineOf(j)) == j;
  }

  /** The columns of the printed table line up: in every row whose cells
      fit, cell `k` starts at code unit 28 + 21 k. */
  lemma LinesAligned(t: Table, j: nat, k: nat)
    requires j < 5 && k < |Columns(t)[j]| && Fits(Columns(t)[j])
    ensures var values := Columns(t)[j];
      RowPrefix(Titles[j], values, k) + PadEnd(values[k], CellWidth) <= Lines(t)[LineOf(j)]
      && Utf16Length(RowPrefix(Titles[j], values, k)) == LabelWidth + 3 + (CellWidth + 3) * k
  {
    TitleFits(j);
    LinesRow(t, j);
    RowColumn(Titles[j], Columns(t)[j], k);
  }

  /** Every title fits the title column. */
  lemma TitleFits(j: nat)
    requires j < |Titles|
    ensures Utf16Length(Titles[j]) <= LabelWidth
  {
    if j == 0 {
      HeaderTitleWidth();
    } else if j == 1 {
      DatesTitleWidth();
    } else if j == 2 {
      TempsTitleWidth();
    } else if j == 3 {
      WindsTitleWidth();
    } else {
      PressuresTitleWidth();
    }
  }

  /** The widths of the titles in code units: an emoji takes two. */
  lemma HeaderTitleWidth()
    ensures Utf16Length(HeaderLabel) == 14
  {
    Utf16LengthAppend("Параметр", " / Sol");
  }

  lemma DatesTitleWidth()
    ensures Utf16Length(DatesLabel) == 13
  {
    Utf16LengthAppend("\U{1F30D}", " Земна дата");
  }

  lemma TempsTitleWidth()
    ensures Utf16Length(TempsLabel) == 14
  {
    Utf16LengthAppend("\U{1F321}", " Температура");
  }

  lemma WindsTitleWidth()
    ensures Utf16Length(WindsLabel) == 8
  {
    Utf16LengthAppend("\U{1F32C}", " Вітер");
  }

  lemma PressuresTitleWidth()
    ensures Utf16Length(PressuresLabel) == 7
  {
    Utf16LengthAppend("\U{1F4C8}", " Тиск");
  }

  /** `main` after the request: a rejected request is an unhandled
      rejection; a non-OK status is logged; a payload without sols is
      logged; otherwise the payload is written and the table built. */
  function Main(fetched: Fetched<Payload>, fmt: real -> string, iso: string -> Option<string>)
    : (o: Outcome)
    ensures o == Crashed <==> fetched.Rejected?
    ensures o.ApiError? <==> fetched.Answered? && !fetched.Ok()
    ensures o.ApiError? ==> o.status == fetched.status
    ensures o == NoData <==> fetched.Ok() && (fetched.body.solKeys.None? || fetched.body.solKeys.value == [])
    ensures o.Saved? <==> fetched.Ok() && fetched.body.solKeys.Some? && fetched.body.solKeys.value != []
    ensures o.Saved? ==> (o.data == fetched.body
      && o.table == MakeTable(fetched.body.solKeys.value, fetched.body.sols, fmt, iso))
  {
    match fetched
    case Rejected => Crashed
    case Answered(status, data) =>
      if !fetched.Ok() then ApiError(status)
      else if data.solKeys.None? || data.solKeys.value == [] then NoData
      else Saved(data, MakeTable(data.solKeys.value, data.sols, fmt, iso))
  }
}
