/** The text part of `exportToExcel` (App.tsx:120-134): a byte-order mark, a
    header line and one line per room, each line the comma-joined cells
    followed by "\n". Cells are not quoted or escaped. */
module Export {
  import opened Wrappers
  import opened Decimal
  import opened Ledger
  import opened Tariff
  import opened Sequences

  const Bom: char := '\U{FEFF}'

  const Headers: seq<string> := [
    "Phòng", "Chỉ số Điện Cũ", "Chỉ số Điện Mới", "Tiêu thụ Điện", "Chỉ số Nước Cũ",
    "Chỉ số Nước Mới", "Tiêu thụ Nước", "Tiền Phòng", "Tổng Tiền", "Trạng thái"]

  const PaidLabel: string := "Đã thanh toán"
  const UnpaidLabel: string := "Chưa thanh toán"

  /** `Array.prototype.join(sep)` on strings: "" for no cells, the cells
      with `sep` between them otherwise. */
  function Join(cells: seq<string>, sep: string): string {
    if cells == [] then ""
    else if |cells| == 1 then cells[0]
    else Join(cells[..|cells| - 1], sep) + sep + cells[|cells| - 1]
  }

  /** A cell of a row: the row array mixes strings and numbers, and
      `join` turns each number into its decimal text. */
  datatype Cell = Text(s: string) | Num(n: int)

  function CellText(c: Cell): string {
    match c
    case Text(s) => s
    case Num(n) => IntToString(n)
  }

  /** `row.join(",")`. */
  function RowText(row: seq<Cell>): string {
    Join(seq(|row|, j requires 0 <= j < |row| => CellText(row[j])), ",")
  }

  /** The row of one room (App.tsx:123-130): no cells when the month holds
      no record for it; otherwise ten cells, the usage cells being the plain
      differences `curr - prev`. */
  function ExportRow(room: Room, cur: seq<Reading>, rates: Rates): seq<Cell> {
    match FindByRoom(cur, room.id)
    case None => []
    case Some(r) =>
      [Text(room.name),
       Num(r.prevElectricity), Num(r.currElectricity), Num(r.currElectricity - r.prevElectricity),
       Num(r.prevWater), Num(r.currWater), Num(r.currWater - r.prevWater),
       Num(room.baseRent), Num(RoomTotal(room, Some(r), rates)),
       Text(if r.paid then PaidLabel else UnpaidLabel)]
  }

  /** `rooms.map(...)`, one row per room in room order. */
  function Rows(rooms: seq<Room>, cur: seq<Reading>, rates: Rates): (rows: seq<seq<Cell>>)
    ensures |rows| == |rooms|
  {
    if rooms == [] then []
    else Rows(rooms[..|rooms| - 1], cur, rates) + [ExportRow(rooms[|rooms| - 1], cur, rates)]
  }

  lemma {:induction false} RowsAt(rooms: seq<Room>, cur: seq<Reading>, rates: Rates, j: nat)
    requires j < |rooms|
    ensures Rows(rooms, cur, rates)[j] == ExportRow(rooms[j], cur, rates)
  {
    if j < |rooms| - 1 {
      RowsAt(rooms[..|rooms| - 1], cur, rates, j);
    }
  }

  /** One `row.join(",") + "\n"` per row. */
  function Lines(rows: seq<seq<Cell>>): string {
    if rows == [] then ""
    else Lines(rows[..|rows| - 1]) + (RowText(rows[|rows| - 1]) + "\n")
  }

  /** The whole file content. */
  function CsvText(readings: seq<Reading>, rooms: seq<Room>, month: string, rates: Rates): string {
    [Bom] + (Join(Headers, ",") + "\n") + Lines(Rows(rooms, CurrentReadings(readings, month), rates))
  }

  lemma LinesStep(rows: seq<seq<Cell>>, i: nat)
    requires i < |rows|
    ensures Lines(rows[..i + 1]) == Lines(rows[..i]) + (RowText(rows[i]) + "\n")
  {
    assert rows[..i + 1][..i] == rows[..i];
  }

  /** Building `csvContent` with `+=` (App.tsx:132-134). */
  method BuildCsv(readings: seq<Reading>, rooms: seq<Room>, selectedMonth: string, rates: Rates)
    returns (csvContent: string)
    ensures csvContent == CsvText(readings, rooms, selectedMonth, rates)
  {
    var currentMonthReadings := CurrentReadings(readings, selectedMonth);
    var rows := Rows(rooms, currentMonthReadings, rates);
    csvContent := [Bom];
    csvContent := csvContent + (Join(Headers, ",") + "\n");
    ghost var head := csvContent;
    var i := 0;
    while i < |rows|
      invariant 0 <= i <= |rows|
      invariant csvContent == head + Lines(rows[..i])
    {
      var line := RowText(rows[i]) + "\n";
      LinesStep(rows, i);
      AppendAssoc(head, Lines(rows[..i]), line);
      csvContent := csvContent + line;
      i := i + 1;
    }
    assert rows[..i] == rows;
  }

  /** A room's row, described against the whole ledger: empty exactly when
      the room has no record for the month; otherwise its ten cells carry
      the name, the four meter values, the unclamped usages, the rent, the
      tariff total and the payment label. */
  lemma RowContents(readings: seq<Reading>, room: Room, month: string, rates: Rates)
    ensures var row := ExportRow(room, CurrentReadings(readings, month), rates);
      var found := Find(readings, room.id, month);
      && (found.None? ==> row == [])
      && (found.Some? ==>
        var r := found.value;
        row == [Text(room.name),
          Num(r.prevElectricity), Num(r.currElectricity), Num(r.currElectricity - r.prevElectricity),
          Num(r.prevWater), Num(r.currWater), Num(r.currWater - r.prevWater),
          Num(room.baseRent), Num(RoomTotal(room, found, rates)),
          Text(if r.paid then PaidLabel else UnpaidLabel)])
  {
    FindInCurrent(readings, month, room.id);
    RowCells(CurrentReadings(readings, month), readings, room, month, rates);
  }

  /** The row of a room, read off any list of records in which looking the
      room up finds its record for the month. */
  lemma RowCells(cur: seq<Reading>, readings: seq<Reading>, room: Room, month: string, rates: Rates)
    requires FindByRoom(cur, room.id) == Find(readings, room.id, month)
    ensures var row := ExportRow(room, cur, rates);
      var found := Find(readings, room.id, month);
      && (found.None? ==> row == [])
      && (found.Some? ==>
        var r := found.value;
        row == [Text(room.name),
          Num(r.prevElectricity), Num(r.currElectricity), Num(r.currElectricity - r.prevElectricity),
          Num(r.prevWater), Num(r.currWater), Num(r.currWater - r.prevWater),
          Num(room.baseRent), Num(RoomTotal(room, found, rates)),
          Text(if r.paid then PaidLabel else UnpaidLabel)])
  {
  }

  lemma {:induction false} JoinLength(cells: seq<string>, sep: string)
    requires |cells| >= 2
    ensures |Join(cells, sep)| >= |sep|
  {
  }

  /** A room with no record for the month still gets a line, an empty one;
      a room with a record never gets an empty line. */
  lemma EmptyLineIffNoReading(readings: seq<Reading>, room: Room, month: string, rates: Rates)
    ensures RowText(ExportRow(room, CurrentReadings(readings, month), rates)) == ""
        <==> Find(readings, room.id, month).None?
  {
    RowContents(readings, room, month, rates);
    var row := ExportRow(room, CurrentReadings(readings, month), rates);
    if row != [] {
      JoinLength(seq(|row|, j requires 0 <= j < |row| => CellText(row[j])), ",");
    }
  }

  /** The exported usage is not clamped: a meter that went backwards shows a
      negative usage, printed with a minus sign, while the total bills none. */
  lemma ExportUsageNotClamped(cur: seq<Reading>, room: Room, r: Reading, rates: Rates)
    requires FindByRoom(cur, room.id) == Some(r)
    requires r.currElectricity < r.prevElectricity
    ensures var row := ExportRow(room, cur, rates);
      && |row| == 10 && row[3] == Num(r.currElectricity - r.prevElectricity)
      && CellText(row[3])[0] == '-'
    ensures Usage(r.prevElectricity, r.currElectricity) == 0
  {
  }

  lemma IntToStringHasNoNewline(i: int)
    ensures Count(IntToString(i), '\n') == 0
  {
    CountAbsent(IntToString(i), '\n');
  }

  lemma {:induction false} JoinCount(cells: seq<string>, sep: string, c: char)
    requires forall j | 0 <= j < |cells| :: Count(cells[j], c) == 0
    requires Count(sep, c) == 0
    ensures Count(Join(cells, sep), c) == 0
  {
    if |cells| >= 2 {
      JoinCount(cells[..|cells| - 1], sep, c);
      CountAppend(Join(cells[..|cells| - 1], sep), sep, c);
      CountAppend(Join(cells[..|cells| - 1], sep) + sep, cells[|cells| - 1], c);
    }
  }

  lemma CellHasNoNewline(c: Cell)
    requires c.Text? ==> Count(c.s, '\n') == 0
    ensures Count(CellText(c), '\n') == 0
  {
    if c.Num? {
      IntToStringHasNoNewline(c.n);
    }
  }

  lemma RowHasNoNewline(room: Room, cur: seq<Reading>, rates: Rates)
    requires Count(room.name, '\n') == 0
    ensures Count(RowText(ExportRow(room, cur, rates)), '\n') == 0
  {
    var row := ExportRow(room, cur, rates);
    var texts := seq(|row|, j requires 0 <= j < |row| => CellText(row[j]));
    CountAbsent(PaidLabel, '\n');
    CountAbsent(UnpaidLabel, '\n');
    forall j | 0 <= j < |texts| ensures Count(texts[j], '\n') == 0 {
      CellHasNoNewline(row[j]);
    }
    CountAbsent(",", '\n');
    JoinCount(texts, ",", '\n');
  }

  lemma {:induction false} LinesCount(rows: seq<seq<Cell>>)
    requires forall j | 0 <= j < |rows| :: Count(RowText(rows[j]), '\n') == 0
    ensures Count(Lines(rows), '\n') == |rows|
  {
    if rows != [] {
      var init := rows[..|rows| - 1];
      assert forall j | 0 <= j < |init| :: init[j] == rows[j];
      LinesCount(init);
      CountAppend(RowText(rows[|rows| - 1]), "\n", '\n');
      CountAppend(Lines(init), RowText(rows[|rows| - 1]) + "\n", '\n');
    }
  }

  lemma HeaderHasNoNewline()
    ensures Count(Join(Headers, ","), '\n') == 0
  {
    forall j | 0 <= j < |Headers| ensures Count(Headers[j], '\n') == 0 {
      CountAbsent(Headers[j], '\n');
    }
    CountAbsent(",", '\n');
    JoinCount(Headers, ",", '\n');
  }

  /** The file is the mark, the header line and exactly one "\n"-terminated
      line per room: when no room name holds a line break, it holds one line
      break per room plus the header's. */
  lemma CsvLayout(readings: seq<Reading>, rooms: seq<Room>, month: string, rates: Rates)
    requires forall j | 0 <= j < |rooms| :: Count(rooms[j].name, '\n') == 0
    ensures CsvText(readings, rooms, month, rates)[0] == Bom
    ensures Count(CsvText(readings, rooms, month, rates), '\n') == |rooms| + 1
  {
    var cur := CurrentReadings(readings, month);
    var rows := Rows(rooms, cur, rates);
    forall j | 0 <= j < |rows| ensures Count(RowText(rows[j]), '\n') == 0 {
      RowsAt(rooms, cur, rates, j);
      RowHasNoNewline(rooms[j], cur, rates);
    }
    LinesCount(rows);
    HeaderHasNoNewline();
    CountAbsent([Bom], '\n');
    var header := Join(Headers, ",") + "\n";
    CountAppend(Join(Headers, ","), "\n", '\n');
    CountAppend([Bom], header, '\n');
    CountAppend([Bom] + header, Lines(rows), '\n');
  }
}
