/**
 * Reading a two-column measurement file into parallel lists of voltages
 * and currents.
 *
 * The file is given as its sequence of lines. The first line is a header
 * and is dropped. Every further line is split into columns on runs of
 * whitespace (empty columns never occur); a line with fewer than two
 * columns is skipped; otherwise the first two columns, with every decimal
 * comma turned into a point, are converted to numbers and appended, the
 * voltage to one list and the current to the other. Columns after the
 * second are ignored. Text-to-number conversion is a parameter `parse`,
 * None meaning that the text is not a number.
 */
module MeasurementFile {
  import opened Wrappers

  // ---------------------------------------------------------------------
  // Splitting a line into columns

  /**
   * A whitespace character in the sense of Python's str.isspace(), which is
   * what str.split() without a separator splits on.
   */
  predicate IsSpace(c: char)
    ensures c == ' ' || c == '\t' || c == '\n' || c == '\r' ==> IsSpace(c)
    ensures '0' <= c <= '9' || c == ',' || c == '.' || c == '-' || c == '+' || c == 'e' || c == 'E' ==> !IsSpace(c)
  {
    var n := c as int;
    || 0x09 <= n <= 0x0D || 0x1C <= n <= 0x20 || n == 0x85 || n == 0xA0
    || n == 0x1680 || 0x2000 <= n <= 0x200A || n == 0x2028 || n == 0x2029
    || n == 0x202F || n == 0x205F || n == 0x3000
  }

  predicate NoSpace(s: string) {
    forall i | 0 <= i < |s| :: !IsSpace(s[i])
  }

  predicate AllSpace(s: string) {
    forall i | 0 <= i < |s| :: IsSpace(s[i])
  }

  /** The column being read, if any has been started. */
  function Flush(cur: string): seq<string> {
    if cur == [] then [] else [cur]
  }

  /**
   * The columns of `cur + s`, where `cur` is the (whitespace-free) part of
   * a column already read: characters are added to the current column
   * until a whitespace character ends it.
   */
  function Columns(s: string, cur: string): (r: seq<string>)
    requires NoSpace(cur)
    ensures forall t | t in r :: t != [] && NoSpace(t)
    decreases |s|
  {
    if s == [] then Flush(cur)
    else if IsSpace(s[0]) then Flush(cur) + Columns(s[1..], [])
    else Columns(s[1..], cur + [s[0]])
  }

  /** Python's `line.split()`: the maximal whitespace-free runs, in order. */
  function Split(line: string): (r: seq<string>)
    ensures forall t | t in r :: t != [] && NoSpace(t)
  {
    Columns(line, [])
  }

  lemma {:induction false} ColumnsAtSpace(a: string, c: char, b: string, cur: string)
    requires IsSpace(c) && NoSpace(cur)
    ensures Columns(a + [c] + b, cur) == Columns(a, cur) + Columns(b, [])
    decreases |a|
  {
    var s := a + [c] + b;
    if a == [] {
      assert s[0] == c && s[1..] == b;
    } else {
      assert s[0] == a[0] && s[1..] == a[1..] + [c] + b;
      if IsSpace(a[0]) {
        ColumnsAtSpace(a[1..], c, b, []);
      } else {
        ColumnsAtSpace(a[1..], c, b, cur + [a[0]]);
      }
    }
  }

  /** A whitespace character separates: what lies on either side is split independently. */
  lemma SplitAtSpace(a: string, c: char, b: string)
    requires IsSpace(c)
    ensures Split(a + [c] + b) == Split(a) + Split(b)
  {
    ColumnsAtSpace(a, c, b, []);
  }

  lemma {:induction false} ColumnsOfWord(w: string, cur: string)
    requires NoSpace(w) && NoSpace(cur)
    ensures Columns(w, cur) == Flush(cur + w)
    decreases |w|
  {
    if w == [] {
      assert cur + w == cur;
    } else {
      assert cur + w == (cur + [w[0]]) + w[1..];
      ColumnsOfWord(w[1..], cur + [w[0]]);
    }
  }

  /** A non-empty text without whitespace is one column. */
  lemma SplitWord(w: string)
    requires w != [] && NoSpace(w)
    ensures Split(w) == [w]
  {
    ColumnsOfWord(w, []);
    assert [] + w == w;
  }

  lemma {:induction false} ColumnsOfBlank(s: string)
    requires AllSpace(s)
    ensures Columns(s, []) == []
    decreases |s|
  {
    if s != [] {
      ColumnsOfBlank(s[1..]);
    }
  }

  /** A text made only of whitespace (an empty or blank line) has no columns. */
  lemma SplitBlank(s: string)
    requires AllSpace(s)
    ensures Split(s) == []
  {
    ColumnsOfBlank(s);
  }

  // ---------------------------------------------------------------------
  // Decimal commas

  /** Python's `s.replace(',', '.')`. */
  function ReplaceComma(s: string): (r: string)
    ensures |r| == |s|
    ensures forall i | 0 <= i < |s| :: r[i] == (if s[i] == ',' then '.' else s[i])
    ensures ',' !in r
  {
    if s == [] then []
    else [if s[0] == ',' then '.' else s[0]] + ReplaceComma(s[1..])
  }

  lemma DecimalComma()
    ensures ReplaceComma("0,5") == "0.5"
    ensures ReplaceComma("0,002") == "0.002"
  {
  }

  // ---------------------------------------------------------------------
  // Data lines

  /** The normalised voltage and current columns of one data line. */
  datatype Fields = Fields(voltage: string, current: string)

  predicate IsDataLine(line: string) {
    |Split(line)| >= 2
  }

  /** The fields a line contributes: none for a line with fewer than two columns. */
  function LineFields(line: string): (f: Option<Fields>)
    ensures f.Some? <==> IsDataLine(line)
    ensures f.Some? ==> ',' !in f.value.voltage && ',' !in f.value.current
  {
    var columns := Split(line);
    if |columns| >= 2 then Some(Fields(ReplaceComma(columns[0]), ReplaceComma(columns[1])))
    else None
  }

  /** Columns after the second never change what a data line contributes. */
  lemma ExtraColumnsIgnored(line: string, c: char, more: string)
    requires IsDataLine(line) && IsSpace(c)
    ensures LineFields(line + [c] + more) == LineFields(line)
  {
    SplitAtSpace(line, c, more);
  }

  /** A line of two columns and its line terminator yields exactly those two columns, normalised. */
  lemma TwoColumnLine(v: string, sep: char, c: string, end: char)
    requires v != [] && NoSpace(v) && c != [] && NoSpace(c) && IsSpace(sep) && IsSpace(end)
    ensures LineFields(v + [sep] + c + [end]) == Some(Fields(ReplaceComma(v), ReplaceComma(c)))
  {
    assert v + [sep] + c + [end] == v + [sep] + (c + [end] + []);
    SplitWord(v);
    SplitWord(c);
    SplitBlank([]);
    SplitAtSpace(c, end, []);
    SplitAtSpace(v, sep, c + [end] + []);
  }

  /** A line "0,5 0,002" yields the voltage "0.5" and the current "0.002". */
  lemma DecimalCommaLine()
    ensures LineFields("0,5 0,002\n") == Some(Fields("0.5", "0.002"))
  {
    assert "0,5 0,002\n" == "0,5" + [' '] + "0,002" + ['\n'];
    TwoColumnLine("0,5", ' ', "0,002", '\n');
    DecimalComma();
  }

  /** The fields of the data lines among `body`, in order. */
  function DataRows(body: seq<string>): (rows: seq<Fields>)
    ensures |rows| <= |body|
    ensures forall f | f in rows :: ',' !in f.voltage && ',' !in f.current
  {
    if body == [] then []
    else
      var last := body[|body| - 1];
      DataRows(body[..|body| - 1]) + (if IsDataLine(last) then [LineFields(last).value] else [])
  }

  /** The positions of the data lines among `body`. */
  function DataLineIndices(body: seq<string>): seq<nat>
  {
    if body == [] then []
    else
      var n := |body| - 1;
      DataLineIndices(body[..n]) + (if IsDataLine(body[n]) then [n] else [])
  }

  /**
   * DataRows holds exactly one entry per data line, in file order: the
   * indices of the data lines are strictly increasing, every data line is
   * among them, and each row is that line's fields.
   */
  lemma {:induction false} DataRowsSelectDataLines(body: seq<string>)
    ensures |DataLineIndices(body)| == |DataRows(body)|
    ensures forall k | 0 <= k < |DataLineIndices(body)| ::
              && DataLineIndices(body)[k] < |body|
              && LineFields(body[DataLineIndices(body)[k]]) == Some(DataRows(body)[k])
    ensures forall k, l | 0 <= k < l < |DataLineIndices(body)| ::
              DataLineIndices(body)[k] < DataLineIndices(body)[l]
    ensures forall j | 0 <= j < |body| && IsDataLine(body[j]) :: j in DataLineIndices(body)
  {
    if body != [] {
      var n := |body| - 1;
      var init := body[..n];
      DataRowsSelectDataLines(init);
      forall j | 0 <= j < n
        ensures init[j] == body[j]
      {
      }
    }
  }

  /** Lines are handled independently: the rows of two chunks of lines concatenate. */
  lemma {:induction false} DataRowsAppend(a: seq<string>, b: seq<string>)
    ensures DataRows(a + b) == DataRows(a) + DataRows(b)
    decreases |b|
  {
    if b == [] {
      assert a + b == a;
    } else {
      var n := |b| - 1;
      assert (a + b)[..|a + b| - 1] == a + b[..n];
      DataRowsAppend(a, b[..n]);
    }
  }

  /** The rows a whole file contributes: the data lines after the header. */
  function Rows(file: seq<string>): (rows: seq<Fields>)
    ensures file == [] ==> rows == []
    ensures file != [] ==> |rows| < |file|
  {
    if file == [] then [] else DataRows(file[1..])
  }

  // ---------------------------------------------------------------------
  // Reading the file

  datatype ReadError =
    | MissingHeader              // the file has no first line
    | InvalidNumber(text: string) // a column that is not a number

  datatype Samples = Samples(voltages: seq<real>, currents: seq<real>)

  predicate Converts(f: Fields, parse: string -> Option<real>) {
    parse(f.voltage).Some? && parse(f.current).Some?
  }

  /** The column that fails to convert; the voltage is converted first. */
  function BadColumn(f: Fields, parse: string -> Option<real>): string
    requires !Converts(f, parse)
  {
    if parse(f.voltage).None? then f.voltage else f.current
  }

  /** Row k is the first row of `rows` that does not convert. */
  predicate FirstBadRow(rows: seq<Fields>, parse: string -> Option<real>, k: nat) {
    && k < |rows|
    && !Converts(rows[k], parse)
    && forall j | 0 <= j < k :: Converts(rows[j], parse)
  }

  /**
   * What reading a measurement file yields. An empty file has no header and
   * is an error; a column that does not convert aborts the whole read with
   * that column; otherwise the k-th voltage and current come from the k-th
   * data line after the header.
   */
  ghost predicate IsReadingOf(file: seq<string>, parse: string -> Option<real>, r: Result<Samples, ReadError>) {
    && (r == Failure(MissingHeader) <==> file == [])
    && (r.Success? <==> file != [] && forall k | 0 <= k < |Rows(file)| :: Converts(Rows(file)[k], parse))
    && (r.Success? ==>
          |r.value.voltages| == |Rows(file)| && |r.value.currents| == |Rows(file)|)
    && (r.Success? ==>
          forall k | 0 <= k < |Rows(file)| ::
            && parse(Rows(file)[k].voltage) == Some(r.value.voltages[k])
            && parse(Rows(file)[k].current) == Some(r.value.currents[k]))
    && (r.Failure? && file != [] ==>
          exists k: nat | FirstBadRow(Rows(file), parse, k) ::
            r.error == InvalidNumber(BadColumn(Rows(file)[k], parse)))
  }

  /**
   * The header never matters: two files that differ only in their first
   * line read the same, whatever the header holds.
   */
  lemma HeaderIgnored(header1: string, header2: string, body: seq<string>, parse: string -> Option<real>,
                      r1: Result<Samples, ReadError>, r2: Result<Samples, ReadError>)
    requires IsReadingOf([header1] + body, parse, r1)
    requires IsReadingOf([header2] + body, parse, r2)
    ensures r1 == r2
  {
    assert ([header1] + body)[1..] == body && ([header2] + body)[1..] == body;
    var rows := DataRows(body);
    if r1.Success? {
      var v1, v2 := r1.value.voltages, r2.value.voltages;
      var c1, c2 := r1.value.currents, r2.value.currents;
      assert forall k | 0 <= k < |rows| :: Some(v1[k]) == parse(rows[k].voltage) == Some(v2[k]);
      assert forall k | 0 <= k < |rows| :: Some(c1[k]) == parse(rows[k].current) == Some(c2[k]);
      assert v1 == v2 && c1 == c2;
    } else {
      var k1: nat :| FirstBadRow(rows, parse, k1) && r1.error == InvalidNumber(BadColumn(rows[k1], parse));
      var k2: nat :| FirstBadRow(rows, parse, k2) && r2.error == InvalidNumber(BadColumn(rows[k2], parse));
      assert !(k1 < k2) && !(k2 < k1);
    }
  }

  /** Reads the lines of a measurement file, with `parse` standing for the number conversion. */
  method ReadMeasurements(file: seq<string>, parse: string -> Option<real>)
    returns (r: Result<Samples, ReadError>)
    ensures IsReadingOf(file, parse, r)
  {
    if file == [] {
      return Failure(MissingHeader);
    }
    var body := file[1..];
    var voltages: seq<real> := [];
    var currents: seq<real> := [];
    for i := 0 to |body|
      invariant |voltages| == |DataRows(body[..i])| && |currents| == |voltages|
      invariant forall k | 0 <= k < |voltages| ::
                  && parse(DataRows(body[..i])[k].voltage) == Some(voltages[k])
                  && parse(DataRows(body[..i])[k].current) == Some(currents[k])
    {
      assert body[..i + 1][..i] == body[..i];
      var columns := Split(body[i]);
      if |columns| >= 2 {
        var voltage := parse(ReplaceComma(columns[0]));
        if voltage.None? {
          BadRowFound(body, i, voltages, parse);
          assert !Converts(Rows(file)[|voltages|], parse);
          return Failure(InvalidNumber(ReplaceComma(columns[0])));
        }
        var current := parse(ReplaceComma(columns[1]));
        if current.None? {
          BadRowFound(body, i, voltages, parse);
          assert !Converts(Rows(file)[|voltages|], parse);
          return Failure(InvalidNumber(ReplaceComma(columns[1])));
        }
        voltages := voltages + [voltage.value];
        currents := currents + [current.value];
      }
    }
    assert body[..|body|] == body;
    return Success(Samples(voltages, currents));
  }

  /**
   * The step of ReadMeasurements that fails: when every row before line i
   * converts and line i is a data line that does not, line i holds the first
   * bad row of the whole file.
   */
  lemma BadRowFound(body: seq<string>, i: nat, converted: seq<real>, parse: string -> Option<real>)
    requires i < |body| && IsDataLine(body[i])
    requires |converted| == |DataRows(body[..i])|
    requires forall k | 0 <= k < |converted| :: Converts(DataRows(body[..i])[k], parse)
    requires !Converts(LineFields(body[i]).value, parse)
    ensures FirstBadRow(DataRows(body), parse, |converted|)
    ensures DataRows(body)[|converted|] == LineFields(body[i]).value
  {
    assert body[..i + 1][..i] == body[..i];
    DataRowsAppend(body[..i + 1], body[i + 1..]);
    assert body[..i + 1] + body[i + 1..] == body;
  }
}
