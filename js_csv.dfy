/** parseCSVRow (frontend.js): one line of an imported CSV file split into
    fields. A double quote only toggles whether commas separate fields; it
    is never kept. Each field is trimmed of surrounding whitespace. */
module JsCsv {
  import opened Text

  /** The variables of the scanning loop: the fields pushed so far, whether
      the scan is inside quotes, and the field being read. */
  datatype Scan = Scan(fields: seq<string>, inQuotes: bool, current: string)

  const Fresh := Scan([], false, "")

  /** One character of the loop body. */
  function Feed(s: Scan, c: char): Scan {
    if c == '"' then s.(inQuotes := !s.inQuotes)
    else if c == ',' && !s.inQuotes then Scan(s.fields + [Trim(s.current)], s.inQuotes, "")
    else s.(current := s.current + [c])
  }

  /** The loop over `chars`, entered in state `s`. */
  function ScanFrom(s: Scan, chars: string): Scan {
    if chars == [] then s else Feed(ScanFrom(s, chars[..|chars| - 1]), chars[|chars| - 1])
  }

  /** Specification of parseCSVRow: the fields pushed in the loop, then the
      last field. */
  function CsvFields(row: string): seq<string> {
    var s := ScanFrom(Fresh, row);
    s.fields + [Trim(s.current)]
  }

  /** parseCSVRow. */
  method ParseCsvRow(row: string) returns (fields: seq<string>)
    ensures fields == CsvFields(row)
  {
    fields := [];
    var inQuotes := false;
    var currentField := "";
    for i := 0 to |row|
      invariant Scan(fields, inQuotes, currentField) == ScanFrom(Fresh, row[..i])
    {
      assert row[..i + 1][..i] == row[..i];
      var c := row[i];
      if c == '"' {
        inQuotes := !inQuotes;
      } else if c == ',' && !inQuotes {
        fields := fields + [Trim(currentField)];
        currentField := "";
      } else {
        currentField := currentField + [c];
      }
    }
    assert row[..|row|] == row;
    fields := fields + [Trim(currentField)];
  }

  // ---------------------------------------------------------------------
  // The number of fields.

  /** `s` holds an odd number of double quotes. */
  predicate OddQuotes(s: string) {
    s != [] && (if s[|s| - 1] == '"' then !OddQuotes(s[..|s| - 1]) else OddQuotes(s[..|s| - 1]))
  }

  /** How many commas of `s` follow an even number of double quotes. */
  function CommasOutsideQuotes(s: string): nat {
    if s == [] then 0
    else
      var init := s[..|s| - 1];
      CommasOutsideQuotes(init) + (if s[|s| - 1] == ',' && !OddQuotes(init) then 1 else 0)
  }

  lemma {:induction false} ScanQuotes(row: string)
    ensures ScanFrom(Fresh, row).inQuotes == OddQuotes(row)
  {
    if row != [] {
      ScanQuotes(row[..|row| - 1]);
    }
  }

  lemma {:induction false} ScanCounts(row: string)
    ensures |ScanFrom(Fresh, row).fields| == CommasOutsideQuotes(row)
  {
    if row != [] {
      var init := row[..|row| - 1];
      ScanCounts(init);
      ScanQuotes(init);
    }
  }

  /** One field more than the commas outside quotes. */
  lemma FieldCount(row: string)
    ensures |CsvFields(row)| == 1 + CommasOutsideQuotes(row)
  {
    ScanCounts(row);
  }

  // ---------------------------------------------------------------------
  // What the fields hold.

  lemma TrimDrops(s: string, c: char)
    requires c !in s
    ensures c !in Trim(s) && IsTrimmed(Trim(s))
  {
    var r := Trim(s);
    var k := |s| - |TrimStart(s)|;
    TrimFacts(s);
    assert forall j :: 0 <= j < |r| ==> r[j] == s[k + j];
  }

  /** No field holds a double quote, and every field is trimmed. */
  predicate Clean(fields: seq<string>) {
    forall i :: 0 <= i < |fields| ==> '"' !in fields[i] && IsTrimmed(fields[i])
  }

  lemma {:induction false} ScanClean(row: string)
    ensures Clean(ScanFrom(Fresh, row).fields)
    ensures '"' !in ScanFrom(Fresh, row).current
  {
    if row != [] {
      var init, c := row[..|row| - 1], row[|row| - 1];
      var s := ScanFrom(Fresh, init);
      ScanClean(init);
      assert ScanFrom(Fresh, row) == Feed(s, c);
      if c == ',' && !s.inQuotes {
        TrimDrops(s.current, '"');
        var t := Trim(s.current);
        assert IsTrimmed(t) && '"' !in t;
        assert Clean(s.fields + [t]);
      } else if c != '"' {
        assert s.current + [c] == s.current + [c];
      }
    }
  }

  /** parseCSVRow never yields a double quote and never a field with
      whitespace at either end. */
  lemma FieldsClean(row: string)
    ensures Clean(CsvFields(row))
  {
    var s := ScanFrom(Fresh, row);
    ScanClean(row);
    TrimDrops(s.current, '"');
  }

  // ---------------------------------------------------------------------
  // Reading back a joined row.

  /** A field as a CSV writer puts it on a line: bare, or wrapped in double
      quotes as exportData wraps the debt's name. */
  datatype Cell = Cell(text: string, quoted: bool)

  function Render(c: Cell): string {
    if c.quoted then "\"" + c.text + "\"" else c.text
  }

  /** What a cell may hold for the line to read back: no double quote, no
      whitespace at either end, and a comma only when quoted. */
  predicate Readable(c: Cell) {
    '"' !in c.text && IsTrimmed(c.text) && (!c.quoted ==> ',' !in c.text)
  }

  /** The cells rendered and separated by commas. */
  function JoinRow(cells: seq<Cell>): string
    requires cells != []
  {
    if |cells| == 1 then Render(cells[0])
    else JoinRow(cells[..|cells| - 1]) + "," + Render(cells[|cells| - 1])
  }

  function Texts(cells: seq<Cell>): (r: seq<string>)
    ensures |r| == |cells|
    ensures forall i :: 0 <= i < |cells| ==> r[i] == cells[i].text
  {
    if cells == [] then [] else Texts(cells[..|cells| - 1]) + [cells[|cells| - 1].text]
  }

  lemma {:induction false} ScanFromConcat(s: Scan, a: string, b: string)
    ensures ScanFrom(s, a + b) == ScanFrom(ScanFrom(s, a), b)
    decreases |b|
  {
    if b == [] {
      assert a + b == a;
    } else {
      ScanFromConcat(s, a, b[..|b| - 1]);
      assert (a + b)[..|a + b| - 1] == a + b[..|b| - 1];
    }
  }

  /** Characters that neither toggle quotes nor end a field are collected. */
  lemma {:induction false} ScanCollects(s: Scan, t: string)
    requires '"' !in t
    requires !s.inQuotes ==> ',' !in t
    ensures ScanFrom(s, t) == s.(current := s.current + t)
  {
    if t != [] {
      var init := t[..|t| - 1];
      ScanCollects(s, init);
      assert s.current + init + [t[|t| - 1]] == s.current + t;
    }
  }

  /** A rendered cell, read from the start of a field, leaves the scan
      outside quotes with the cell's text as the current field. */
  lemma ScanCell(fields: seq<string>, c: Cell)
    requires Readable(c)
    ensures ScanFrom(Scan(fields, false, ""), Render(c)) == Scan(fields, false, c.text)
  {
    var s := Scan(fields, false, "");
    if c.quoted {
      ScanFromConcat(s, "\"" + c.text, "\"");
      ScanFromConcat(s, "\"", c.text);
      assert ScanFrom(s, "\"") == s.(inQuotes := true);
      ScanCollects(s.(inQuotes := true), c.text);
    } else {
      ScanCollects(s, c.text);
    }
  }

  lemma {:induction false} ScanJoined(cells: seq<Cell>)
    requires cells != []
    requires forall i :: 0 <= i < |cells| ==> Readable(cells[i])
    ensures ScanFrom(Fresh, JoinRow(cells))
         == Scan(Texts(cells[..|cells| - 1]), false, cells[|cells| - 1].text)
  {
    var last := cells[|cells| - 1];
    if |cells| == 1 {
      assert cells[..0] == [];
      ScanCell([], last);
    } else {
      var init := cells[..|cells| - 1];
      var prev := init[|init| - 1];
      assert forall i :: 0 <= i < |init| ==> init[i] == cells[i];
      assert Readable(prev) && Readable(last);
      var row := JoinRow(init);
      ScanJoined(init);
      var s0 := ScanFrom(Fresh, row);
      assert s0 == Scan(Texts(init[..|init| - 1]), false, prev.text);
      ScanFromConcat(Fresh, row, ",");
      assert ","[..0] == [];
      assert ScanFrom(s0, ",") == Feed(s0, ',');
      TrimOfTrimmed(prev.text);
      assert Texts(init) == Texts(init[..|init| - 1]) + [prev.text];
      var s1 := Scan(Texts(init), false, "");
      assert ScanFrom(Fresh, row + ",") == s1;
      ScanFromConcat(Fresh, row + ",", Render(last));
      ScanCell(Texts(init), last);
      assert JoinRow(cells) == row + "," + Render(last);
    }
  }

  /** parseCSVRow reads back a line of readable cells joined with commas,
      bare or quoted: the fields are exactly the cells' texts. */
  lemma JoinRoundTrip(cells: seq<Cell>)
    requires cells != []
    requires forall i :: 0 <= i < |cells| ==> Readable(cells[i])
    ensures CsvFields(JoinRow(cells)) == Texts(cells)
  {
    var init, last := cells[..|cells| - 1], cells[|cells| - 1];
    var row := JoinRow(cells);
    ScanJoined(cells);
    var s := ScanFrom(Fresh, row);
    assert s == Scan(Texts(init), false, last.text);
    assert CsvFields(row) == s.fields + [Trim(s.current)];
    assert Readable(last);
    TrimOfTrimmed(last.text);
    assert Texts(cells) == Texts(init) + [last.text];
  }
}
