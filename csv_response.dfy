/** The read side: how the client takes a value out of the CSV body that InfluxDB returns
    for `Accept: application/csv` (a header row, a newline, one data row).

    The functions here state, without loops, what the two scans of the client do; the
    client's methods are proved equal to them. `Columns` and `Join` are the ordinary
    comma split that the lemmas compare the scans against. */
module CsvResponse {
  import opened Strings

  /* ---------- Cutting off the header row ---------- */

  /** Index of the newline that starts the data row: the first `\n` at index 1 or later
      (the scan starts at 1, so a newline at index 0 is never found). */
  function DataStart(response: string): (p: Option<nat>)
    ensures p.None? <==> forall q :: 1 <= q < |response| ==> response[q] != '\n'
    ensures p.Some? ==> 1 <= p.value < |response| && response[p.value] == '\n'
    ensures p.Some? ==> forall q :: 1 <= q < p.value ==> response[q] != '\n'
  {
    if |response| <= 1 then None
    else
      var tail := response[1..];
      match IndexOf(tail, '\n')
      case None =>
        assert forall q :: 1 <= q < |response| ==> response[q] == tail[q - 1];
        None
      case Some(i) =>
        assert forall q :: 1 <= q < i + 1 ==> response[q] == tail[..i][q - 1];
        Some(i + 1)
  }

  /** The data section: from that newline (kept) to the end; the client's error string
      when there is none. */
  function ValuesLine(response: string, errString: string): string
  {
    match DataStart(response)
    case None => errString
    case Some(p) => response[p..]
  }

  /** A header row followed by a newline and data yields the data with its newline in front. */
  lemma ValuesLineOfTable(header: string, data: string, errString: string)
    requires |header| >= 1 && '\n' !in header[1..]
    ensures ValuesLine(header + "\n" + data, errString) == "\n" + data
  {
    var response := header + "\n" + data;
    forall q | 1 <= q < |header| ensures response[q] != '\n' {
      assert response[q] == header[1..][q - 1];
    }
    assert response[|header|] == '\n';
    assert response[|header|..] == "\n" + data;
  }

  /** A newline in the first position does not count: without another one the body
      holds no data row and the error string is returned. */
  lemma LeadingNewlineIgnored(body: string, errString: string)
    requires '\n' !in body
    ensures ValuesLine("\n" + body, errString) == errString
  {
    var response := "\n" + body;
    forall q | 1 <= q < |response| ensures response[q] != '\n' {
      assert response[q] == body[q - 1];
    }
  }

  /* ---------- The two scans of one field ---------- */

  /** Moves a found offset right by `offset`. */
  function Shift(o: Option<nat>, offset: nat): Option<nat>
  {
    match o
    case None => None
    case Some(p) => Some(p + offset)
  }

  /** The first scan: walking `s`, each comma lowers `remaining` by one, and the scan
      stops at the first character after which `remaining` is zero. The result is the
      offset just past that character; None when the scan runs off the end. */
  function StopAfter(s: string, remaining: int): (r: Option<nat>)
    ensures r.Some? ==> 1 <= r.value <= |s|
  {
    if s == [] then None
    else
      var left := remaining - (if s[0] == ',' then 1 else 0);
      if left == 0 then Some(1) else Shift(StopAfter(s[1..], left), 1)
  }

  /** One step of the first scan, at position i of a line, that does not stop there:
      `before` and `after` are the comma counts before and after position i. */
  lemma StopAfterContinue(line: string, limit: nat, i: nat, before: int, after: int)
    requires i < |line|
    requires StopAfter(line, limit) == Shift(StopAfter(line[i..], limit - before), i)
    requires after == before + (if line[i] == ',' then 1 else 0) && after != limit
    ensures StopAfter(line, limit) == Shift(StopAfter(line[i + 1..], limit - after), i + 1)
  {
    assert line[i..][1..] == line[i + 1..];
  }

  /** The step of the first scan that stops at position i. */
  lemma StopAfterHit(line: string, limit: nat, i: nat, before: int, after: int)
    requires i < |line|
    requires StopAfter(line, limit) == Shift(StopAfter(line[i..], limit - before), i)
    requires after == before + (if line[i] == ',' then 1 else 0) && after == limit
    ensures FieldStart(line, limit) == i + 1
  {
  }

  /** The first scan ran off the end of the line. */
  lemma StopAfterEnd(line: string, limit: nat, count: int)
    requires StopAfter(line, limit) == Shift(StopAfter(line[|line|..], limit - count), |line|)
    ensures FieldStart(line, limit) == 0
  {
    assert line[|line|..] == [];
  }

  /** Where the requested field starts; 0 when the scan did not stop. */
  function FieldStart(line: string, sepLimit: nat): (start: nat)
    ensures start <= |line|
  {
    match StopAfter(line, sepLimit)
    case None => 0
    case Some(p) => p
  }

  /** The second scan and cut: up to the first comma, except that a comma at index 0
      is mistaken for "no comma" and the whole text is kept. */
  function FirstToken(s: string): (r: string)
    ensures |r| <= |s| && r == s[..|r|]
    ensures ',' in r ==> r == s && s[0] == ','
  {
    match IndexOf(s, ',')
    case None => s
    case Some(e) => if e == 0 then s else s[..e]
  }

  /** Field `fieldNumber` of a data line as the client cuts it out. The result is a
      piece of the line, and it holds a comma only when it is a rest of the line that
      begins with one. */
  function Field(fieldNumber: nat, line: string): (r: string)
    ensures FieldStart(line, fieldNumber) + |r| <= |line|
    ensures r == line[FieldStart(line, fieldNumber)..FieldStart(line, fieldNumber) + |r|]
    ensures ',' in r ==> r[0] == ',' && r == line[FieldStart(line, fieldNumber)..]
  {
    FirstToken(line[FieldStart(line, fieldNumber)..])
  }

  /** The whole read of one field from a response body. */
  function FieldFromPayload(fieldNumber: nat, payload: string, errString: string): string
  {
    Field(fieldNumber, ValuesLine(payload, errString))
  }

  /* ---------- The reference split into columns ---------- */

  /** The comma-separated columns of a line: n commas give n + 1 columns. */
  function Columns(s: string): (cols: seq<string>)
    ensures |cols| >= 1
  {
    if s == [] then [""]
    else
      var rest := Columns(s[1..]);
      if s[0] == ',' then [""] + rest else [[s[0]] + rest[0]] + rest[1..]
  }

  /** Columns put back together with commas. */
  function Join(cols: seq<string>): string
    requires |cols| >= 1
  {
    if |cols| == 1 then cols[0] else cols[0] + "," + Join(cols[1..])
  }

  lemma {:induction false} JoinColumns(s: string)
    ensures Join(Columns(s)) == s
  {
    if s != [] {
      JoinColumns(s[1..]);
      var rest := Columns(s[1..]);
      if s[0] == ',' {
        assert ([""] + rest)[1..] == rest;
      } else if |rest| > 1 {
        assert ([[s[0]] + rest[0]] + rest[1..])[1..] == rest[1..];
        assert s == [s[0]] + s[1..];
      } else {
        assert s == [s[0]] + s[1..];
      }
    }
  }

  /** Text without a comma in front of anything extends the first column. */
  lemma {:induction false} ColumnsPrefix(a: string, t: string)
    requires ',' !in a
    ensures Columns(a + t) == [a + Columns(t)[0]] + Columns(t)[1..]
  {
    if a != [] {
      var s := a + t;
      assert s[0] == a[0] && s[0] != ',';
      assert s[1..] == a[1..] + t;
      ColumnsPrefix(a[1..], t);
      var rest := Columns(s[1..]);
      assert rest[0] == a[1..] + Columns(t)[0] && rest[1..] == Columns(t)[1..];
      assert Columns(s) == [[s[0]] + rest[0]] + rest[1..];
      assert [a[0]] + (a[1..] + Columns(t)[0]) == a + Columns(t)[0];
    } else {
      assert a + t == t;
      assert a + Columns(t)[0] == Columns(t)[0];
      assert Columns(t) == [Columns(t)[0]] + Columns(t)[1..];
    }
  }

  /** Comma-free columns come back out of their join unchanged. */
  lemma {:induction false} ColumnsJoin(cols: seq<string>)
    requires |cols| >= 1
    requires forall i :: 0 <= i < |cols| ==> ',' !in cols[i]
    ensures Columns(Join(cols)) == cols
  {
    if |cols| == 1 {
      ColumnsPrefix(cols[0], "");
      assert cols[0] + "" == cols[0];
    } else {
      ColumnsJoin(cols[1..]);
      var j := Join(cols[1..]);
      assert cols[0] + "," + j == cols[0] + ("," + j);
      ColumnsPrefix(cols[0], "," + j);
      assert ("," + j)[0] == ',' && ("," + j)[1..] == j;
      assert Columns("," + j) == [""] + Columns(j);
      assert cols[0] + "" == cols[0];
      assert [cols[0]] + cols[1..] == cols;
    }
  }

  /** What follows the k-th comma of `s`, if `s` has k commas. */
  function AfterCommas(s: string, k: nat): (r: Option<string>)
    ensures r.Some? ==> |r.value| <= |s|
    ensures r.Some? ==> r.value == s[|s| - |r.value|..]
    ensures r.Some? && k >= 1 ==> |r.value| < |s| && s[|s| - |r.value| - 1] == ','
  {
    if k == 0 then Some(s)
    else if s == [] then None
    else if s[0] == ',' then AfterCommas(s[1..], k - 1)
    else AfterCommas(s[1..], k)
  }

  /** The k-th comma exists exactly when there are more than k columns. */
  lemma {:induction false} AfterCommasExists(s: string, k: nat)
    ensures AfterCommas(s, k).Some? <==> k < |Columns(s)|
  {
    if k > 0 && s != [] {
      if s[0] == ',' {
        AfterCommasExists(s[1..], k - 1);
      } else {
        AfterCommasExists(s[1..], k);
      }
    }
  }

  /** Dropping the first character drops the first column when it is a comma and
      otherwise keeps every column after the first. */
  lemma ColumnsTail(s: string)
    requires s != []
    ensures s[0] == ',' ==> Columns(s)[1..] == Columns(s[1..])
    ensures s[0] != ',' ==> |Columns(s)| == |Columns(s[1..])| && Columns(s)[1..] == Columns(s[1..])[1..]
  {
  }

  /** The columns after the k-th comma are the columns of what follows it. */
  lemma {:induction false} ColumnsAfterCommas(s: string, k: nat, rest: string)
    requires AfterCommas(s, k) == Some(rest)
    ensures k < |Columns(s)| && Columns(s)[k..] == Columns(rest)
  {
    if k == 0 {
      assert Columns(s)[0..] == Columns(s);
    } else {
      ColumnsTail(s);
      var cols := Columns(s);
      if s[0] == ',' {
        ColumnsAfterCommas(s[1..], k - 1, rest);
        assert cols[k..] == cols[1..][k - 1..];
      } else {
        ColumnsAfterCommas(s[1..], k, rest);
        assert cols[k..] == cols[1..][k - 1..];
        assert Columns(s[1..])[k..] == Columns(s[1..])[1..][k - 1..];
      }
    }
  }

  /** Both scans step past a first character that does not end the count. */
  lemma StopAfterCommasStep(s: string, k: nat, left: nat)
    requires s != [] && k >= 1 && !(s[0] == ',' && k == 1)
    requires left == if s[0] == ',' then k - 1 else k
    ensures StopAfter(s, k) == Shift(StopAfter(s[1..], left), 1)
    ensures AfterCommas(s, k) == AfterCommas(s[1..], left)
  {
  }

  /** For k >= 1 the first scan stops exactly after the k-th comma. */
  lemma {:induction false} StopAfterCommas(s: string, k: nat)
    requires k >= 1
    ensures StopAfter(s, k) == match AfterCommas(s, k)
                               case None => None
                               case Some(rest) => Some(|s| - |rest|)
  {
    if s != [] {
      if s[0] == ',' && k == 1 {
        assert StopAfter(s, k) == Some(1);
        assert AfterCommas(s, k) == Some(s[1..]);
      } else {
        var left := if s[0] == ',' then k - 1 else k;
        StopAfterCommasStep(s, k, left);
        StopAfterCommas(s[1..], left);
        match AfterCommas(s[1..], left)
        case None =>
        case Some(rest) =>
          assert StopAfter(s, k) == Some(|s[1..]| - |rest| + 1);
      }
    }
  }

  /** Once the running count has passed the limit, the first scan never stops. */
  lemma {:induction false} StopAfterPassed(s: string, remaining: int)
    requires remaining < 0
    ensures StopAfter(s, remaining) == None
  {
    if s != [] {
      StopAfterPassed(s[1..], remaining - (if s[0] == ',' then 1 else 0));
    }
  }

  /** A first character other than a comma starts the first column. */
  lemma ColumnsHead(s: string)
    requires s != [] && s[0] != ','
    ensures Columns(s)[0] == [s[0]] + Columns(s[1..])[0]
  {
  }

  /** Without a comma the whole text is the first column. */
  lemma {:induction false} FirstColumnWhole(s: string)
    requires ',' !in s
    ensures Columns(s)[0] == s
  {
    if s != [] {
      ColumnsHead(s);
      assert ',' !in s[1..];
      FirstColumnWhole(s[1..]);
      assert s == [s[0]] + s[1..];
    }
  }

  /** The first column ends at a comma with no comma before it. */
  lemma {:induction false} FirstColumnUpTo(s: string, e: nat)
    requires e < |s| && s[e] == ',' && ',' !in s[..e]
    ensures Columns(s)[0] == s[..e]
  {
    if e > 0 {
      assert s[0] == s[..e][0];
      ColumnsHead(s);
      var t := s[1..];
      assert t[..e - 1] == s[..e][1..];
      FirstColumnUpTo(t, e - 1);
      assert s[..e] == [s[0]] + t[..e - 1];
    }
  }

  /** The first column, read off directly. */
  lemma FirstColumn(s: string)
    ensures Columns(s)[0] == match IndexOf(s, ',')
                             case None => s
                             case Some(e) => s[..e]
  {
    match IndexOf(s, ',')
    case None => FirstColumnWhole(s);
    case Some(e) => FirstColumnUpTo(s, e);
  }

  /** A column as the client reads it: the column itself, unless it is empty and not the
      last one, in which case the rest of the line from the comma that ends it. */
  function ColumnAsRead(cols: seq<string>, k: nat): string
    requires k < |cols|
  {
    if cols[k] != "" || k == |cols| - 1 then cols[k] else Join(cols[k..])
  }

  lemma FirstTokenIsColumn(s: string)
    ensures FirstToken(s) == ColumnAsRead(Columns(s), 0)
  {
    FirstColumn(s);
    JoinColumns(s);
    assert Columns(s)[0..] == Columns(s);
    if s != [] && s[0] == ',' {
      assert |Columns(s)| == 1 + |Columns(s[1..])|;
    }
  }

  /** Field k >= 1 of a line with at least k commas is column k (0-based) of the line,
      read as `ColumnAsRead` says. */
  lemma FieldSelectsColumn(k: nat, line: string)
    requires 1 <= k < |Columns(line)|
    ensures Field(k, line) == ColumnAsRead(Columns(line), k)
  {
    AfterCommasExists(line, k);
    var rest := AfterCommas(line, k).value;
    FieldAfterCommas(k, line, rest);
    FirstTokenIsColumn(rest);
    ColumnsAfterCommas(line, k, rest);
    ColumnAsReadSuffix(Columns(line), k);
  }

  /** Field k >= 1 is cut from what follows the k-th comma. */
  lemma FieldAfterCommas(k: nat, line: string, rest: string)
    requires k >= 1 && AfterCommas(line, k) == Some(rest)
    ensures Field(k, line) == FirstToken(rest)
  {
    FieldStartAfterCommas(k, line, rest);
    var start := |line| - |rest|;
    assert line[start..] == rest;
  }

  /** For k >= 1 the field starts right after the k-th comma. */
  lemma FieldStartAfterCommas(k: nat, line: string, rest: string)
    requires k >= 1 && AfterCommas(line, k) == Some(rest)
    ensures FieldStart(line, k) == |line| - |rest|
  {
    StopAfterCommas(line, k);
  }

  /** Reading column k is reading the first column of the columns from k on. */
  lemma ColumnAsReadSuffix(cols: seq<string>, k: nat)
    requires k < |cols|
    ensures ColumnAsRead(cols, k) == ColumnAsRead(cols[k..], 0)
  {
    assert cols[k..][0..] == cols[k..];
  }

  /** With fewer than k commas the scan never stops, and the result is the line's first
      column (read as `ColumnAsRead` says), whatever k was asked for. */
  lemma FieldTooFewCommas(k: nat, line: string)
    requires 1 <= k && |Columns(line)| <= k
    ensures Field(k, line) == ColumnAsRead(Columns(line), 0)
  {
    AfterCommasExists(line, k);
    StopAfterCommas(line, k);
    assert line[0..] == line;
    FirstTokenIsColumn(line);
  }

  /** Field 0: the scan stops after the first character unless that character is a
      comma (or the line is empty), so the result is the first column of the line
      without its first character, or else the whole line. */
  lemma FieldZero(line: string)
    ensures Field(0, line) == if line != [] && line[0] != ',' then ColumnAsRead(Columns(line[1..]), 0)
                              else line
  {
    if line != [] && line[0] != ',' {
      FirstTokenIsColumn(line[1..]);
    } else if line != [] {
      StopAfterPassed(line[1..], -1);
      assert line[0..] == line;
      IndexOfUnique(line, ',', 0);
    }
  }

  lemma JoinCons(col: string, cols: seq<string>)
    requires |cols| >= 1
    ensures Join([col] + cols) == col + "," + Join(cols)
  {
    assert ([col] + cols)[1..] == cols;
  }

  /** Putting text in front of a joined row puts it in front of the first column. */
  lemma JoinPrepend(prefix: string, row: seq<string>)
    requires |row| >= 1
    ensures Join([prefix + row[0]] + row[1..]) == prefix + Join(row)
  {
    if |row| > 1 {
      var rest := Join(row[1..]);
      JoinCons(prefix + row[0], row[1..]);
      JoinCons(row[0], row[1..]);
      assert row == [row[0]] + row[1..];
      AppendAssoc(prefix, row[0], ",");
      AppendAssoc(prefix, row[0] + ",", rest);
    }
  }

  /** The data row of a response, newline in front, splits back into its comma-free
      columns, the newline riding on the first. */
  lemma RowColumns(row: seq<string>)
    requires |row| >= 1 && forall i :: 0 <= i < |row| ==> ',' !in row[i]
    ensures Columns("\n" + Join(row)) == ["\n" + row[0]] + row[1..]
  {
    var cols := ["\n" + row[0]] + row[1..];
    JoinPrepend("\n", row);
    assert ',' !in "\n" + row[0];
    forall i | 1 <= i < |cols| ensures ',' !in cols[i] {
      assert cols[i] == row[i];
    }
    ColumnsJoin(cols);
  }

  /** Column k as the client reads it, for a comma-free row. */
  lemma RowColumnAsRead(row: seq<string>, k: nat)
    requires 1 <= k < |row|
    ensures ColumnAsRead(["\n" + row[0]] + row[1..], k)
         == if row[k] != "" || k == |row| - 1 then row[k] else "," + Join(row[k + 1..])
  {
    var cols := ["\n" + row[0]] + row[1..];
    assert |cols| == |row| && cols[k] == row[k];
    if row[k] == "" && k < |row| - 1 {
      assert cols[k..] == [""] + row[k + 1..];
      JoinCons("", row[k + 1..]);
      assert "" + "," + Join(row[k + 1..]) == "," + Join(row[k + 1..]);
    }
  }

  /** Field k of a response whose data row is the comma-free `row`: column k, read as
      `ColumnAsRead` says. */
  lemma ResponseField(header: string, row: seq<string>, k: nat, errString: string)
    requires |header| >= 1 && '\n' !in header[1..]
    requires |row| >= 1 && forall i :: 0 <= i < |row| ==> ',' !in row[i]
    requires 1 <= k < |row|
    ensures FieldFromPayload(k, header + "\n" + Join(row), errString)
         == if row[k] != "" || k == |row| - 1 then row[k] else "," + Join(row[k + 1..])
  {
    ValuesLineOfTable(header, Join(row), errString);
    RowColumns(row);
    FieldSelectsColumn(k, "\n" + Join(row));
    RowColumnAsRead(row, k);
  }

  /** Asking a response whose data row is the comma-free `row` for a field beyond its
      last comma gives the row's first column with the newline in front. */
  lemma ResponseFieldMissing(header: string, row: seq<string>, k: nat, errString: string)
    requires |header| >= 1 && '\n' !in header[1..]
    requires |row| >= 1 && forall i :: 0 <= i < |row| ==> ',' !in row[i]
    requires k >= |row| && k >= 1
    ensures FieldFromPayload(k, header + "\n" + Join(row), errString) == "\n" + row[0]
  {
    ValuesLineOfTable(header, Join(row), errString);
    RowColumns(row);
    FieldTooFewCommas(k, "\n" + Join(row));
  }

  /** The response the mean and last queries get back (`name,tags,time,<aggregate>` over
      `<measurement>,<tags>,<time>,<value>`): field 2 is the time and field 3 the value. */
  lemma ResponseTimeAndValue(header: string, measurement: string, tags: string, time: string, value: string,
                             errString: string)
    requires |header| >= 1 && '\n' !in header[1..]
    requires ',' !in measurement && ',' !in tags && ',' !in time && ',' !in value
    requires time != ""
    ensures FieldFromPayload(2, header + "\n" + Join([measurement, tags, time, value]), errString) == time
    ensures FieldFromPayload(3, header + "\n" + Join([measurement, tags, time, value]), errString) == value
  {
    ResponseField(header, [measurement, tags, time, value], 2, errString);
    ResponseField(header, [measurement, tags, time, value], 3, errString);
  }

  /** The example response in the client's own comments. */
  const DocumentedPayload: string :=
    "name,tags,time,raum,value" + "\n" + Join(["temperature", "", "1588053087", "keller", "15.5"])

  /** On that example field 2 is the timestamp, the empty tags column makes field 1 the
      rest of the line, and asking for more fields than there are commas silently gives
      the first column, newline included. */
  lemma DocumentedResponse(errString: string)
    ensures FieldFromPayload(2, DocumentedPayload, errString) == "1588053087"
    ensures FieldFromPayload(3, DocumentedPayload, errString) == "keller"
    ensures FieldFromPayload(4, DocumentedPayload, errString) == "15.5"
    ensures FieldFromPayload(1, DocumentedPayload, errString) == "," + Join(["1588053087", "keller", "15.5"])
    ensures FieldFromPayload(5, DocumentedPayload, errString) == "\n" + "temperature"
  {
    var header := "name,tags,time,raum,value";
    var row := ["temperature", "", "1588053087", "keller", "15.5"];
    assert '\n' !in header[1..];
    assert ',' !in row[0] && ',' !in row[1] && ',' !in row[2] && ',' !in row[3] && ',' !in row[4];
    ResponseField(header, row, 1, errString);
    assert row[2..] == ["1588053087", "keller", "15.5"];
    ResponseField(header, row, 2, errString);
    ResponseField(header, row, 3, errString);
    ResponseField(header, row, 4, errString);
    ResponseFieldMissing(header, row, 5, errString);
  }
}
