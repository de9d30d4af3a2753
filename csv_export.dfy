/** The CSV text of the route export (downloadCsv): a header line, then one
    line per reading, every cell quoted with its quotes doubled. The Blob
    and the download link are not modelled. */
module CsvExport {
  import opened Text
  import opened Js
  import opened Wrappers

  const BaseColumns: seq<string> := ["Latitud", "Longitud", "Fecha", "Hora", "Velocidad (km/h)", "Evento", "Señal 4G"]
  const AddressColumns: seq<string> := BaseColumns + ["Dirección"]
  /** The header line: the column names joined by commas. */
  const BaseHeader: string := Join(BaseColumns, ',')
  const AddressHeader: string := Join(AddressColumns, ',')

  /** `rows.some(r => 'address' in r)` */
  predicate HasAddress(rows: seq<map<string, Json>>)
  {
    exists k :: 0 <= k < |rows| && "address" in rows[k]
  }

  /** The header line: cut at its commas it gives the seven column names,
      and `Dirección` as an eighth exactly when some row has an address; it
      holds no line break. */
  function Header(rows: seq<map<string, Json>>): (h: string)
    ensures Split(h, ',') == if HasAddress(rows) then AddressColumns else BaseColumns
    ensures '\n' !in h
  {
    NoCommaInColumns();
    SplitJoin(BaseColumns, ',');
    SplitJoin(AddressColumns, ',');
    NoBreakInColumns();
    JoinAvoids(BaseColumns, ',', '\n');
    JoinAvoids(AddressColumns, ',', '\n');
    if HasAddress(rows) then AddressHeader else BaseHeader
  }

  /** `r.k` on a row object. */
  function Field(r: map<string, Json>, k: string): Json
  {
    if k in r then r[k] else Undefined
  }

  /** The values of one row: position, date and time as they are, speed,
      event and signal with `?? ''`, and the address when the export has one. */
  function RowValues(r: map<string, Json>, withAddress: bool): (vs: seq<Json>)
    ensures |vs| == if withAddress then 8 else 7
  {
    var base := [Field(r, "lat"), Field(r, "lon"), Field(r, "date"), Field(r, "time"),
                 Coalesce(Field(r, "v"), Str("")), Coalesce(Field(r, "event"), Str("")),
                 Coalesce(Field(r, "sg"), Str(""))];
    if withAddress then base + [Coalesce(Field(r, "address"), Str(""))] else base
  }

  /** `s.replaceAll('"', '""')` */
  function Escape(s: string): (e: string)
    ensures |e| >= |s|
  {
    if s == [] then []
    else (if s[0] == '"' then "\"\"" else [s[0]]) + Escape(s[1..])
  }

  /** A quoted cell. */
  function Cell(s: string): (c: string)
    ensures |c| >= 2 && c[0] == '"' && c[|c| - 1] == '"'
  {
    "\"" + Escape(s) + "\""
  }

  function Cells(vs: seq<Json>): (cs: seq<string>)
    ensures |cs| == |vs|
    ensures forall k :: 0 <= k < |vs| ==> cs[k] == Cell(JsString(vs[k]))
  {
    if vs == [] then [] else [Cell(JsString(vs[0]))] + Cells(vs[1..])
  }

  function RowText(r: map<string, Json>, withAddress: bool): string
  {
    Join(Cells(RowValues(r, withAddress)), ',')
  }

  function RowTexts(rows: seq<map<string, Json>>, withAddress: bool): (ts: seq<string>)
    ensures |ts| == |rows|
    ensures forall k :: 0 <= k < |rows| ==> ts[k] == RowText(rows[k], withAddress)
  {
    if rows == [] then [] else [RowText(rows[0], withAddress)] + RowTexts(rows[1..], withAddress)
  }

  /** No value of any row shows a line break. */
  predicate SingleLineValues(rows: seq<map<string, Json>>)
  {
    forall k, i :: 0 <= k < |rows| && 0 <= i < |RowValues(rows[k], HasAddress(rows))| ==>
      '\n' !in JsString(RowValues(rows[k], HasAddress(rows))[i])
  }

  /** The exported text: the header, then the rows, joined by new lines.
      When no value holds a line break, its lines are exactly the header and
      one line per row, in order. */
  function Csv(rows: seq<map<string, Json>>): (csv: string)
    ensures SingleLineValues(rows) ==> Split(csv, '\n') == [Header(rows)] + RowTexts(rows, HasAddress(rows))
    ensures SingleLineValues(rows) ==> |Split(csv, '\n')| == |rows| + 1
  {
    CsvLines(rows);
    Join([Header(rows)] + RowTexts(rows, HasAddress(rows)), '\n')
  }

  // ------------------------------------------------------------ reading back

  /** Reads the inside of a quoted cell, just after its opening quote: a
      doubled quote is one quote, a single quote closes the cell. Gives the
      content and what follows the closing quote. */
  function ReadQuoted(s: string): Option<(string, string)>
    decreases |s|
  {
    if s == [] then None
    else if s[0] == '"' then
      if |s| >= 2 && s[1] == '"' then
        match ReadQuoted(s[2..])
        case None => None
        case Some((c, rest)) => Some(("\"" + c, rest))
      else Some(("", s[1..]))
    else
      match ReadQuoted(s[1..])
      case None => None
      case Some((c, rest)) => Some(([s[0]] + c, rest))
  }

  /** Reads a line of quoted cells separated by commas. */
  function ReadRow(s: string): Option<seq<string>>
    decreases |s|
  {
    if s == [] || s[0] != '"' then None
    else
      match ReadQuoted(s[1..])
      case None => None
      case Some((c, rest)) =>
        if rest == [] then Some([c])
        else if rest[0] == ',' && |rest| < |s| then
          match ReadRow(rest[1..])
          case None => None
          case Some(cs) => Some([c] + cs)
        else None
  }

  lemma ReadQuotedShorter(s: string)
    ensures ReadQuoted(s).Some? ==> |ReadQuoted(s).value.1| < |s|
    decreases |s|
  {
    if s != [] {
      if s[0] == '"' && |s| >= 2 && s[1] == '"' {
        ReadQuotedShorter(s[2..]);
      } else if s[0] != '"' {
        ReadQuotedShorter(s[1..]);
      }
    }
  }

  /** A quoted, escaped text reads back as itself, up to its closing quote. */
  lemma {:induction false} ReadEscaped(x: string, rest: string)
    requires rest == [] || rest[0] != '"'
    ensures ReadQuoted(Escape(x) + "\"" + rest) == Some((x, rest))
  {
    if x == [] {
      assert Escape(x) + "\"" + rest == "\"" + rest;
    } else {
      ReadEscaped(x[1..], rest);
      EscapeStep(x, rest);
      if x[0] == '"' {
        ReadDoubledQuote(x, Escape(x[1..]) + "\"" + rest, rest);
      } else {
        ReadPlainChar(x, Escape(x[1..]) + "\"" + rest, rest);
      }
    }
  }

  lemma EscapeStep(x: string, rest: string)
    requires x != []
    ensures Escape(x) + "\"" + rest
         == (if x[0] == '"' then "\"\"" else [x[0]]) + (Escape(x[1..]) + "\"" + rest)
  {
  }

  /** A doubled quote inside a quoted cell reads as one quote. */
  lemma ReadDoubledQuote(x: string, tail: string, rest: string)
    requires x != [] && x[0] == '"'
    requires ReadQuoted(tail) == Some((x[1..], rest))
    ensures ReadQuoted("\"\"" + tail) == Some((x, rest))
  {
    assert ("\"\"" + tail)[2..] == tail;
    assert [x[0]] + x[1..] == x;
  }

  /** Any other character inside a quoted cell reads as itself. */
  lemma ReadPlainChar(x: string, tail: string, rest: string)
    requires x != [] && x[0] != '"'
    requires ReadQuoted(tail) == Some((x[1..], rest))
    ensures ReadQuoted([x[0]] + tail) == Some((x, rest))
  {
    assert ([x[0]] + tail)[1..] == tail;
    assert [x[0]] + x[1..] == x;
  }

  function Quoted(xs: seq<string>): (cs: seq<string>)
    ensures |cs| == |xs|
    ensures forall k :: 0 <= k < |xs| ==> cs[k] == Cell(xs[k])
  {
    if xs == [] then [] else [Cell(xs[0])] + Quoted(xs[1..])
  }

  /** Every exported line reads back as the texts of its cells, whatever
      commas, quotes or line breaks they hold. */
  lemma {:induction false} RowRoundTrip(xs: seq<string>)
    requires xs != []
    ensures ReadRow(Join(Quoted(xs), ',')) == Some(xs)
  {
    QuotedStep(xs);
    if |xs| == 1 {
      assert Quoted(xs[1..]) == [];
      assert Join(Quoted(xs), ',') == Cell(xs[0]);
      ReadLastCell(xs[0]);
      assert xs == [xs[0]];
    } else {
      JoinStep(Quoted(xs), ',');
      assert Join(Quoted(xs), ',') == Cell(xs[0]) + [','] + Join(Quoted(xs[1..]), ',');
      RowRoundTrip(xs[1..]);
      ReadCellThenRow(xs[0], Join(Quoted(xs[1..]), ','), xs[1..]);
      assert ReadRow(Join(Quoted(xs), ',')) == Some([xs[0]] + xs[1..]);
      HeadTail(xs);
    }
  }

  lemma QuotedStep(xs: seq<string>)
    requires xs != []
    ensures Quoted(xs)[0] == Cell(xs[0]) && Quoted(xs)[1..] == Quoted(xs[1..])
  {
    ConsParts(Cell(xs[0]), Quoted(xs[1..]));
  }

  lemma JoinStep(cs: seq<string>, c: char)
    requires |cs| >= 2
    ensures Join(cs, c) == cs[0] + [c] + Join(cs[1..], c)
  {
  }

  lemma ConsParts<T>(a: T, s: seq<T>)
    ensures ([a] + s)[0] == a && ([a] + s)[1..] == s
  {
  }

  lemma HeadTail<T>(s: seq<T>)
    requires s != []
    ensures [s[0]] + s[1..] == s
  {
  }

  /** A row of one cell reads back as its text. */
  lemma ReadLastCell(x: string)
    ensures ReadRow(Cell(x)) == Some([x])
  {
    ReadEscaped(x, []);
    assert Cell(x)[1..] == Escape(x) + "\"" + [];
  }

  /** A cell followed by a comma and a readable row reads as one more text. */
  lemma ReadCellThenRow(x: string, rest: string, cs: seq<string>)
    requires ReadRow(rest) == Some(cs)
    ensures ReadRow(Cell(x) + [','] + rest) == Some([x] + cs)
  {
    var line := Cell(x) + [','] + rest;
    var after := [','] + rest;
    ReadEscaped(x, after);
    assert line[1..] == Escape(x) + "\"" + after;
    assert after[1..] == rest;
  }

  /** The cells of a row are the quoted texts of its values. */
  lemma CellsAreQuoted(vs: seq<Json>)
    ensures Cells(vs) == Quoted(seq(|vs|, k requires 0 <= k < |vs| => JsString(vs[k])))
  {
  }

  /** Each exported row reads back as the texts of its 7 values, or 8 when
      some row has an address. */
  lemma ExportedRowReadsBack(rows: seq<map<string, Json>>, k: nat)
    requires k < |rows|
    ensures var vs := RowValues(rows[k], HasAddress(rows));
            && ReadRow(RowTexts(rows, HasAddress(rows))[k])
               == Some(seq(|vs|, i requires 0 <= i < |vs| => JsString(vs[i])))
            && |vs| == |Split(Header(rows), ',')|
  {
    var vs := RowValues(rows[k], HasAddress(rows));
    CellsAreQuoted(vs);
    RowRoundTrip(seq(|vs|, i requires 0 <= i < |vs| => JsString(vs[i])));
    HeaderColumns(rows);
  }

  /** The header has 8 columns when some row has an address, else 7. */
  lemma HeaderColumns(rows: seq<map<string, Json>>)
    ensures |Split(Header(rows), ',')| == if HasAddress(rows) then 8 else 7
  {
  }

  lemma NoCommaInColumns()
    ensures forall k :: 0 <= k < |AddressColumns| ==> ',' !in AddressColumns[k]
  {
    forall k | 0 <= k < |AddressColumns| ensures ',' !in AddressColumns[k] {
      if k < 7 {
        assert AddressColumns[k] == BaseColumns[k];
      }
    }
  }

  lemma NoBreakInColumns()
    ensures forall k :: 0 <= k < |AddressColumns| ==> '\n' !in AddressColumns[k]
    ensures forall k :: 0 <= k < |BaseColumns| ==> '\n' !in BaseColumns[k]
  {
    forall k | 0 <= k < |AddressColumns| ensures '\n' !in AddressColumns[k] {
      if k < 7 {
        assert AddressColumns[k] == BaseColumns[k];
      }
    }
  }

  /** Joining texts without `d` by another character gives a text without `d`. */
  lemma {:induction false} JoinAvoids(xs: seq<string>, c: char, d: char)
    requires c != d
    requires forall k :: 0 <= k < |xs| ==> d !in xs[k]
    ensures d !in Join(xs, c)
  {
    if |xs| >= 2 {
      JoinAvoids(xs[1..], c, d);
    }
  }

  /** Escaping adds only quotes. */
  lemma {:induction false} EscapeAvoids(s: string, d: char)
    requires d != '"' && d !in s
    ensures d !in Escape(s)
  {
    if s != [] {
      EscapeAvoids(s[1..], d);
    }
  }

  lemma CsvLines(rows: seq<map<string, Json>>)
    ensures var lines := [Header(rows)] + RowTexts(rows, HasAddress(rows));
            SingleLineValues(rows) ==> Split(Join(lines, '\n'), '\n') == lines
  {
    var lines := [Header(rows)] + RowTexts(rows, HasAddress(rows));
    if SingleLineValues(rows) {
      LinesAvoidBreaks(rows, lines);
      SplitJoin(lines, '\n');
    }
  }

  /** Without line breaks in the values, no line of the export holds one. */
  lemma LinesAvoidBreaks(rows: seq<map<string, Json>>, lines: seq<string>)
    requires SingleLineValues(rows)
    requires lines == [Header(rows)] + RowTexts(rows, HasAddress(rows))
    ensures forall k :: 0 <= k < |lines| ==> '\n' !in lines[k]
  {
    var texts := RowTexts(rows, HasAddress(rows));
    forall k | 0 <= k < |texts| ensures '\n' !in texts[k] {
      RowAvoidsBreaks(rows, k);
    }
    ConsAvoids(Header(rows), texts, lines, '\n');
  }

  lemma ConsAvoids(h: string, ts: seq<string>, lines: seq<string>, d: char)
    requires d !in h && forall k :: 0 <= k < |ts| ==> d !in ts[k]
    requires lines == [h] + ts
    ensures forall k :: 0 <= k < |lines| ==> d !in lines[k]
  {
    forall k | 0 <= k < |lines| ensures d !in lines[k] {
      if k > 0 {
        assert lines[k] == ts[k - 1];
      }
    }
  }

  lemma RowAvoidsBreaks(rows: seq<map<string, Json>>, k: nat)
    requires SingleLineValues(rows) && k < |rows|
    ensures '\n' !in RowText(rows[k], HasAddress(rows))
  {
    var vs := RowValues(rows[k], HasAddress(rows));
    var cs := Cells(vs);
    forall i | 0 <= i < |cs| ensures '\n' !in cs[i] {
      EscapeAvoids(JsString(vs[i]), '\n');
    }
    JoinAvoids(cs, ',', '\n');
  }
}
