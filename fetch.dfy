/**
 * One day's fetch (`fetch_data` in get_weather_data_from_JMA.py): the
 * request URL for a date, the server's answer, and the loop that turns the
 * rows of the observation table into 12-field records.
 *
 * The network and the HTML parser are abstracted: a `Server` maps a URL to
 * a `Response` whose `table` holds the rows of the `data2_s` table already
 * reduced to their cell texts, or None when that table is missing.
 */
module Fetch {
  import opened Wrappers
  import opened Text

  /** The cell texts of one table row (`<td>` and `<th>` alike). */
  type Row = seq<string>

  /** One observation record: date, then the first eleven cells of a row. */
  type Record = seq<string>

  datatype Response = Response(status: int, table: Option<seq<Row>>)

  type Server = string -> Response

  const HttpOk := 200
  const BaseUrl := "https://www.data.jma.go.jp/stats/etrn/view/10min_s1.php"
  /** Station codes of Tokyo: prefecture 44, block 47662. */
  const PrecNo := "44"
  const BlockNo := "47662"

  /** The header rows of the table carry "時分" (hour and minute) in their first cell. */
  const HeaderMarker := "時分"
  /** Rows with fewer cells than this are not observations. */
  const MinCells := 11
  /** Fields per record: the date followed by eleven cells. */
  const RecordWidth := 12

  /** The column names of every record, in field order. */
  const Header: seq<string> := [
    "日付", "時間", "気圧(現地)", "気圧(海面)", "降水量(mm)",
    "気温", "相対湿度", "風向・風速(平均)", "風向・風速(風向-平均)",
    "風向・風速(最大瞬間)", "風向・風速(風向-最大瞬間)", "日照時間"
  ]

  /** The request URL for one day; month and day are zero-padded to two digits. */
  function Url(year: nat, month: nat, day: nat): (u: string)
    ensures BaseUrl + "?" <= u
  {
    BaseUrl + "?" + "prec_no=" + PrecNo + "&" + "block_no=" + BlockNo + DateQuery(year, month, day)
  }

  /** The date parameters of the request URL. */
  function DateQuery(year: nat, month: nat, day: nat): string {
    "&year=" + Decimal(year) + "&month=" + Pad2(month) + "&day=" + Pad2(day)
  }

  /** The date field of every record of a day: `f"{year}{month:02d}{day:02d}"`. */
  function DateString(year: nat, month: nat, day: nat): (s: string)
    ensures AllDigits(s)
    ensures month < 100 && day < 100 ==> |s| == |Decimal(year)| + 4
  {
    Decimal(year) + Pad2(month) + Pad2(day)
  }

  /** The request names the station: prefecture 44 and block 47662. */
  lemma UrlNamesStation(year: nat, month: nat, day: nat)
    ensures Contains(Url(year, month, day), "prec_no=" + PrecNo)
    ensures Contains(Url(year, month, day), "block_no=" + BlockNo)
  {
    var base := BaseUrl + "?";
    var query := DateQuery(year, month, day);
    ContainsTail(base, "prec_no=", PrecNo);
    ContainsExtend(base + "prec_no=" + PrecNo, "prec_no=" + PrecNo, "&");
    ContainsExtend(base + "prec_no=" + PrecNo + "&", "prec_no=" + PrecNo, "block_no=");
    ContainsExtend(base + "prec_no=" + PrecNo + "&" + "block_no=", "prec_no=" + PrecNo, BlockNo);
    ContainsExtend(base + "prec_no=" + PrecNo + "&" + "block_no=" + BlockNo, "prec_no=" + PrecNo, query);
    ContainsTail(base + "prec_no=" + PrecNo + "&", "block_no=", BlockNo);
    ContainsExtend(base + "prec_no=" + PrecNo + "&" + "block_no=" + BlockNo, "block_no=" + BlockNo, query);
  }

  /**
   * Different days of four-digit years are requested under different URLs:
   * year, padded month and padded day each have a fixed width and read back
   * unchanged.
   */
  lemma UrlInjective(y1: nat, m1: nat, d1: nat, y2: nat, m2: nat, d2: nat)
    requires 1000 <= y1 <= 9999 && m1 < 100 && d1 < 100
    requires 1000 <= y2 <= 9999 && m2 < 100 && d2 < 100
    requires Url(y1, m1, d1) == Url(y2, m2, d2)
    ensures y1 == y2 && m1 == m2 && d1 == d2
  {
    FourDigitYear(y1);
    FourDigitYear(y2);
    Pad2RoundTrip(m1);
    Pad2RoundTrip(m2);
    Pad2RoundTrip(d1);
    Pad2RoundTrip(d2);
    var station := BaseUrl + "?" + "prec_no=" + PrecNo + "&" + "block_no=" + BlockNo;
    var q1, q2 := DateQuery(y1, m1, d1), DateQuery(y2, m2, d2);
    SplitTail(station, q1, station, q2);
    var a1 := "&year=" + Decimal(y1) + "&month=" + Pad2(m1) + "&day=";
    var a2 := "&year=" + Decimal(y2) + "&month=" + Pad2(m2) + "&day=";
    SplitTail(a1, Pad2(d1), a2, Pad2(d2));
    var b1 := "&year=" + Decimal(y1) + "&month=" + Pad2(m1);
    var b2 := "&year=" + Decimal(y2) + "&month=" + Pad2(m2);
    SplitTail(b1, "&day=", b2, "&day=");
    var c1 := "&year=" + Decimal(y1) + "&month=";
    var c2 := "&year=" + Decimal(y2) + "&month=";
    SplitTail(c1, Pad2(m1), c2, Pad2(m2));
    SplitTail("&year=" + Decimal(y1), "&month=", "&year=" + Decimal(y2), "&month=");
    SplitTail("&year=", Decimal(y1), "&year=", Decimal(y2));
  }

  /** The date field is eight digits that read back as year, month and day. */
  lemma DateStringRoundTrip(year: nat, month: nat, day: nat)
    requires 1000 <= year <= 9999 && month < 100 && day < 100
    ensures AllDigits(DateString(year, month, day)) && |DateString(year, month, day)| == 8
    ensures ParseDigits(DateString(year, month, day)[..4]) == year
    ensures ParseDigits(DateString(year, month, day)[4..6]) == month
    ensures ParseDigits(DateString(year, month, day)[6..]) == day
  {
    FourDigitYear(year);
    Pad2RoundTrip(month);
    Pad2RoundTrip(day);
    var s := DateString(year, month, day);
    assert s[..4] == Decimal(year) && s[4..6] == Pad2(month) && s[6..] == Pad2(day);
  }

  /** The tenth of May 2023 is written "20230510". */
  lemma DateStringExample()
    ensures DateString(2023, 5, 10) == "20230510"
  {
    assert Decimal(2) == "2";
    assert Decimal(20) == "20";
    assert Decimal(202) == "202";
    assert Decimal(2023) == "2023";
    assert Pad2(5) == "05";
    assert Pad2(10) == "10";
  }

  /** Rows that are skipped outright: empty rows and header rows. */
  predicate IsSkipped(cells: Row) {
    cells == [] || Contains(cells[0], HeaderMarker)
  }

  /** The rows that become records. */
  predicate Keeps(cells: Row) {
    !IsSkipped(cells) && |cells| >= MinCells
  }

  /** The record for a kept row: the date inserted in front, cut to the first twelve fields. */
  function Normalise(date: string, cells: Row): (r: Record)
    requires |cells| >= MinCells
    ensures |r| == RecordWidth && r[0] == date && r[1..] == cells[..MinCells]
  {
    ([date] + cells)[..RecordWidth]
  }

  /** The records a table yields for a date, one per kept row, in row order. */
  function Filtered(date: string, rows: seq<Row>): (out: seq<Record>)
    ensures |out| <= |rows|
  {
    if rows == [] then []
    else
      var init := Filtered(date, rows[..|rows| - 1]);
      var last := rows[|rows| - 1];
      if Keeps(last) then init + [Normalise(date, last)] else init
  }

  /** The positions of the kept rows, in increasing order. */
  function KeptIndices(rows: seq<Row>): seq<nat> {
    if rows == [] then []
    else
      var init := KeptIndices(rows[..|rows| - 1]);
      if Keeps(rows[|rows| - 1]) then init + [|rows| - 1] else init
  }

  /**
   * Filtered is exactly a selection: the k-th record is the normalised form
   * of the k-th kept row, kept rows appear in their original order, and
   * every kept row is selected.
   */
  lemma {:induction false} FilteredIsSelection(date: string, rows: seq<Row>)
    ensures |KeptIndices(rows)| == |Filtered(date, rows)|
    ensures forall k :: 0 <= k < |KeptIndices(rows)| ==>
      KeptIndices(rows)[k] < |rows|
      && Keeps(rows[KeptIndices(rows)[k]])
      && Filtered(date, rows)[k] == Normalise(date, rows[KeptIndices(rows)[k]])
    ensures forall k, l :: 0 <= k < l < |KeptIndices(rows)| ==> KeptIndices(rows)[k] < KeptIndices(rows)[l]
    ensures forall i :: 0 <= i < |rows| && Keeps(rows[i]) ==> i in KeptIndices(rows)
  {
    if rows != [] {
      var init := rows[..|rows| - 1];
      FilteredIsSelection(date, init);
      assert forall i :: 0 <= i < |init| ==> init[i] == rows[i];
    }
  }

  /** Every record has twelve fields, the date first, and comes from a kept row. */
  lemma RecordShape(date: string, rows: seq<Row>)
    ensures forall r :: r in Filtered(date, rows) ==> |r| == RecordWidth && r[0] == date
    ensures forall r :: r in Filtered(date, rows) ==>
      exists i :: 0 <= i < |rows| && Keeps(rows[i]) && r[1..] == rows[i][..MinCells]
  {
    FilteredIsSelection(date, rows);
    var out, idx := Filtered(date, rows), KeptIndices(rows);
    forall r | r in out
      ensures |r| == RecordWidth && r[0] == date
      ensures exists i :: 0 <= i < |rows| && Keeps(rows[i]) && r[1..] == rows[i][..MinCells]
    {
      var k :| 0 <= k < |out| && out[k] == r;
      assert Keeps(rows[idx[k]]) && r[1..] == rows[idx[k]][..MinCells];
    }
  }

  /**
   * A table made of one header row followed by rows of at least eleven
   * cells that are not headers yields one record per data row.
   */
  lemma {:induction false} HeaderThenDataRows(date: string, header: Row, data: seq<Row>)
    requires header != [] && Contains(header[0], HeaderMarker)
    requires forall i :: 0 <= i < |data| ==> |data[i]| >= MinCells && !Contains(data[i][0], HeaderMarker)
    ensures |Filtered(date, [header] + data)| == |data|
    ensures forall k :: 0 <= k < |data| ==> Filtered(date, [header] + data)[k] == Normalise(date, data[k])
  {
    var rows := [header] + data;
    if data == [] {
      assert rows[..0] == [];
    } else {
      var init := data[..|data| - 1];
      assert rows[..|rows| - 1] == [header] + init;
      HeaderThenDataRows(date, header, init);
    }
  }

  /**
   * One more row adds its record when it is kept, and nothing when it is
   * empty, a header row (whatever its width) or shorter than eleven cells.
   */
  lemma RowSelection(date: string, rows: seq<Row>, row: Row)
    ensures IsSkipped(row) ==> Filtered(date, rows + [row]) == Filtered(date, rows)
    ensures !IsSkipped(row) && |row| < MinCells ==> Filtered(date, rows + [row]) == Filtered(date, rows)
    ensures Keeps(row) ==> Filtered(date, rows + [row]) == Filtered(date, rows) + [Normalise(date, row)]
  {
    assert (rows + [row])[..|rows|] == rows;
  }

  /**
   * For the tenth of May 2023, a header row followed by N data rows gives N
   * records of twelve fields, each beginning with "20230510".
   */
  lemma ExampleDay(header: Row, data: seq<Row>)
    requires header != [] && Contains(header[0], HeaderMarker)
    requires forall i :: 0 <= i < |data| ==> |data[i]| >= MinCells && !Contains(data[i][0], HeaderMarker)
    ensures |Filtered(DateString(2023, 5, 10), [header] + data)| == |data|
    ensures forall r :: r in Filtered(DateString(2023, 5, 10), [header] + data) ==>
      |r| == RecordWidth && r[0] == "20230510"
  {
    DateStringExample();
    HeaderThenDataRows(DateString(2023, 5, 10), header, data);
    RecordShape(DateString(2023, 5, 10), [header] + data);
  }

  /** What one day contributes: None when the request failed or the table is missing. */
  function DayResult(server: Server, year: nat, month: nat, day: nat): Option<seq<Record>> {
    var response := server(Url(year, month, day));
    if response.status != HttpOk || response.table.None? then None
    else Some(Filtered(DateString(year, month, day), response.table.value))
  }

  /**
   * A day yields nothing exactly when its request fails or its page has no
   * table; otherwise at most one record per table row, each of twelve
   * fields and dated that day.
   */
  lemma DayResultOutcome(server: Server, year: nat, month: nat, day: nat)
    ensures DayResult(server, year, month, day).None? <==>
      server(Url(year, month, day)).status != HttpOk || server(Url(year, month, day)).table.None?
    ensures DayResult(server, year, month, day).Some? ==>
      |DayResult(server, year, month, day).value| <= |server(Url(year, month, day)).table.value|
      && forall r :: r in DayResult(server, year, month, day).value ==>
        |r| == RecordWidth && r[0] == DateString(year, month, day)
  {
    var response := server(Url(year, month, day));
    if response.status == HttpOk && response.table.Some? {
      RecordShape(DateString(year, month, day), response.table.value);
    }
  }

  /**
   * `fetch_data(year, month, day)`: request the day's page and turn its
   * table into records. The randomised courtesy delay before the request
   * is not modelled.
   */
  method FetchData(server: Server, year: nat, month: nat, day: nat) returns (result: Option<seq<Record>>)
    ensures result == DayResult(server, year, month, day)
    ensures result.None? <==>
      server(Url(year, month, day)).status != HttpOk || server(Url(year, month, day)).table.None?
    ensures result.Some? ==> forall r :: r in result.value ==>
      |r| == RecordWidth && r[0] == DateString(year, month, day)
  {
    var url := Url(year, month, day);
    var response := server(url);
    if response.status != HttpOk {
      return None;
    }
    if response.table.None? {
      return None;
    }
    var rows := response.table.value;
    var date := DateString(year, month, day);
    var data: seq<Record> := [];
    for i := 0 to |rows|
      invariant data == Filtered(date, rows[..i])
    {
      assert rows[..i + 1][..i] == rows[..i];
      var cells := rows[i];
      if cells == [] || Contains(cells[0], HeaderMarker) {
        continue;
      }
      if |cells| >= MinCells {
        cells := [date] + cells;
        data := data + [cells[..RecordWidth]];
      }
    }
    assert rows[..|rows|] == rows;
    RecordShape(date, rows);
    return Some(data);
  }
}
