/** The route list read from a CSV file (parseCSVData): one route per line
    with at least two comma-separated values, the first line skipped when it
    is a header naming "ruta". Reading the file is not modelled. */
module LoadCsv {
  import opened Text
  import opened Wrappers

  datatype Route = Route(id: string, ruta: string)

  /** The route a line describes, if any: blank lines and lines with a
      single value give none. */
  function RouteOf(line: string): (r: Option<Route>)
    ensures r.Some? ==> Trimmed(r.value.id) && Trimmed(r.value.ruta)
    ensures r.Some? ==> ',' !in r.value.id && ',' !in r.value.ruta
  {
    var t := Trim(line);
    if t == "" then None
    else
      var values := Split(t, ',');
      if |values| >= 2 then
        TrimIsTrimmed(values[0]);
        TrimIsTrimmed(values[1]);
        TrimInside(values[0], ',');
        TrimInside(values[1], ',');
        Some(Route(Trim(values[0]), Trim(values[1])))
      else None
  }

  /** The routes `read` finds in `lines`, in order. */
  function Collect(lines: seq<string>, read: string -> Option<Route>): (routes: seq<Route>)
    ensures |routes| <= |lines|
  {
    if lines == [] then []
    else Collect(lines[..|lines| - 1], read) + OptionSeq(read(lines[|lines| - 1]))
  }

  function OptionSeq(r: Option<Route>): seq<Route>
  {
    if r.Some? then [r.value] else []
  }

  /** The routes of `lines`, in order. */
  function RoutesOf(lines: seq<string>): (routes: seq<Route>)
    ensures |routes| <= |lines|
  {
    Collect(lines, RouteOf)
  }

  /** The first line that holds data: 1 when the first line mentions "ruta". */
  function StartLine(lines: seq<string>): (start: nat)
    requires lines != []
    ensures start <= |lines|
  {
    if Contains(lines[0], "ruta") then 1 else 0
  }

  function ParseCsv(csv: string): seq<Route>
  {
    var lines := Split(csv, '\n');
    RoutesOf(lines[StartLine(lines)..])
  }

  /** parseCSVData(csvData) */
  method ParseCsvData(csvData: string) returns (routes: seq<Route>)
    ensures routes == ParseCsv(csvData)
  {
    var lines := Split(csvData, '\n');
    var startLine := StartLine(lines);
    routes := [];
    var i := startLine;
    ghost var done: seq<string> := [];
    while i < |lines|
      invariant startLine <= i <= |lines|
      invariant done == lines[startLine..i]
      invariant routes == Collect(done, RouteOf)
    {
      var line := Trim(lines[i]);
      if line != "" {
        var values := Split(line, ',');
        if |values| >= 2 {
          KeptLine(done, lines[i]);
          routes := routes + [Route(Trim(values[0]), Trim(values[1]))];
        } else {
          SkippedLine(done, lines[i]);
        }
      } else {
        SkippedLine(done, lines[i]);
      }
      SliceExtend(lines, startLine, i);
      done := done + [lines[i]];
      i := i + 1;
    }
    assert done == lines[startLine..];
  }

  lemma SliceExtend<T>(s: seq<T>, from: nat, i: nat)
    requires from <= i < |s|
    ensures s[from..i + 1] == s[from..i] + [s[i]]
  {
  }

  /** A line with two or more values adds its route. */
  lemma KeptLine(done: seq<string>, line: string)
    requires Trim(line) != "" && |Split(Trim(line), ',')| >= 2
    ensures Collect(done + [line], RouteOf)
         == Collect(done, RouteOf) + [Route(Trim(Split(Trim(line), ',')[0]), Trim(Split(Trim(line), ',')[1]))]
  {
    CollectLast(done, line, RouteOf);
  }

  /** A blank line, or one with a single value, adds nothing. */
  lemma SkippedLine(done: seq<string>, line: string)
    requires Trim(line) == "" || |Split(Trim(line), ',')| < 2
    ensures Collect(done + [line], RouteOf) == Collect(done, RouteOf)
  {
    CollectLast(done, line, RouteOf);
    assert RouteOf(line) == None;
  }

  lemma CollectLast(done: seq<string>, line: string, read: string -> Option<Route>)
    ensures Collect(done + [line], read) == Collect(done, read) + OptionSeq(read(line))
  {
    assert (done + [line])[..|done|] == done;
  }

  lemma CollectOne(line: string, read: string -> Option<Route>)
    ensures Collect([line], read) == OptionSeq(read(line))
  {
    assert [line][..0] == [];
  }

  // ------------------------------------------------------------ properties

  /** Lines are read independently: the routes of two blocks of lines are
      the routes of each block, one after the other. */
  lemma {:induction false} RoutesConcat(a: seq<string>, b: seq<string>)
    ensures RoutesOf(a + b) == RoutesOf(a) + RoutesOf(b)
  {
    CollectConcat(a, b, RouteOf);
  }

  lemma {:induction false} CollectConcat(a: seq<string>, b: seq<string>, read: string -> Option<Route>)
    ensures Collect(a + b, read) == Collect(a, read) + Collect(b, read)
    decreases |b|
  {
    if b == [] {
      assert a + b == a;
    } else {
      CollectConcat(a, b[..|b| - 1], read);
      InitOfConcat(a, b);
    }
  }

  lemma InitOfConcat<T>(a: seq<T>, b: seq<T>)
    requires b != []
    ensures (a + b)[..|a + b| - 1] == a + b[..|b| - 1]
    ensures (a + b)[|a + b| - 1] == b[|b| - 1]
  {
  }

  /** A blank line adds no route and changes nothing around it. */
  lemma BlankLineIgnored(a: seq<string>, blank: string, b: seq<string>)
    requires Trim(blank) == ""
    ensures RoutesOf(a + [blank] + b) == RoutesOf(a) + RoutesOf(b)
  {
    assert RoutesOf([blank]) == [] by {
      CollectOne(blank, RouteOf);
      assert RouteOf(blank) == None;
    }
    RoutesConcat(a + [blank], b);
    RoutesConcat(a, [blank]);
  }

  /** The line of a route: its id and its name separated by a comma. */
  function LineOf(r: Route): string
  {
    r.id + "," + r.ruta
  }

  function LinesOf(rs: seq<Route>): (lines: seq<string>)
    ensures |lines| == |rs|
    ensures forall k :: 0 <= k < |rs| ==> lines[k] == LineOf(rs[k])
  {
    if rs == [] then [] else LinesOf(rs[..|rs| - 1]) + [LineOf(rs[|rs| - 1])]
  }

  /** A route whose values are trimmed and free of commas and line breaks. */
  predicate Plain(r: Route)
  {
    Trimmed(r.id) && Trimmed(r.ruta) && ',' !in r.id && ',' !in r.ruta
    && '\n' !in r.id && '\n' !in r.ruta
  }

  lemma LineTrimmed(r: Route)
    requires Plain(r)
    ensures Trimmed(LineOf(r)) && LineOf(r) != ""
  {
    var line := LineOf(r);
    assert line[0] == (if r.id == "" then ',' else r.id[0]);
    assert line[|line| - 1] == (if r.ruta == "" then ',' else r.ruta[|r.ruta| - 1]);
  }

  lemma LineSplits(r: Route)
    requires Plain(r)
    ensures Split(LineOf(r), ',') == [r.id, r.ruta]
  {
    assert Join([r.id, r.ruta], ',') == LineOf(r) by {
      assert [r.id, r.ruta][1..] == [r.ruta];
    }
    SplitJoin([r.id, r.ruta], ',');
  }

  /** A plain route's line reads back as that route. */
  lemma LineReadsBack(r: Route)
    requires Plain(r)
    ensures RouteOf(LineOf(r)) == Some(r)
  {
    LineTrimmed(r);
    TrimOfTrimmed(LineOf(r));
    LineSplits(r);
    TrimOfTrimmed(r.id);
    TrimOfTrimmed(r.ruta);
  }

  lemma {:induction false} LinesReadBack(rs: seq<Route>)
    requires forall k :: 0 <= k < |rs| ==> Plain(rs[k])
    ensures RoutesOf(LinesOf(rs)) == rs
  {
    if rs != [] {
      var init := rs[..|rs| - 1];
      var last := rs[|rs| - 1];
      LinesReadBack(init);
      assert LinesOf(rs) == LinesOf(init) + [LineOf(last)];
      CollectConcat(LinesOf(init), [LineOf(last)], RouteOf);
      CollectOne(LineOf(last), RouteOf);
      LineReadsBack(last);
      assert rs == init + [last];
    }
  }

  const HeaderLine: string := "id,ruta"

  /** The file of a list of routes, with its header line. */
  function CsvOf(rs: seq<Route>): string
  {
    Join([HeaderLine] + LinesOf(rs), '\n')
  }

  /** Plain routes written as a CSV file with its header read back as the
      same routes, in the same order. */
  lemma CsvRoundTrip(rs: seq<Route>)
    requires forall k :: 0 <= k < |rs| ==> Plain(rs[k])
    ensures ParseCsv(CsvOf(rs)) == rs
  {
    var lines := [HeaderLine] + LinesOf(rs);
    NoBreaks(rs);
    SplitJoin(lines, '\n');
    HeaderNamesRuta();
    assert StartLine(lines) == 1;
    assert lines[1..] == LinesOf(rs);
    LinesReadBack(rs);
  }

  /** No line of the file, the header included, holds a line break. */
  lemma NoBreaks(rs: seq<Route>)
    requires forall k :: 0 <= k < |rs| ==> Plain(rs[k])
    ensures var lines := [HeaderLine] + LinesOf(rs); forall k :: 0 <= k < |lines| ==> '\n' !in lines[k]
  {
    var lines := [HeaderLine] + LinesOf(rs);
    forall k | 0 <= k < |lines| ensures '\n' !in lines[k] {
      if k == 0 {
        assert forall c :: c in HeaderLine ==> c != '\n';
      } else {
        assert lines[k] == LineOf(rs[k - 1]);
        NoBreakInLine(rs[k - 1]);
      }
    }
  }

  lemma NoBreakInLine(r: Route)
    requires Plain(r)
    ensures '\n' !in LineOf(r)
  {
    assert LineOf(r) == r.id + "," + r.ruta;
  }

  lemma HeaderNamesRuta()
    ensures Contains(HeaderLine, "ruta")
  {
    assert HeaderLine[3..7] == "ruta";
    assert OccursAt(HeaderLine, "ruta", 3);
  }

  /** Without a header every line counts, the first one included. */
  lemma NoHeaderReadsAll(csv: string)
    requires !Contains(Split(csv, '\n')[0], "ruta")
    ensures ParseCsv(csv) == RoutesOf(Split(csv, '\n'))
  {
    assert Split(csv, '\n')[0..] == Split(csv, '\n');
  }
}
