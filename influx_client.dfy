/** The `Influx` client object: its endpoints and tag pair, the requests it sends, and
    what it makes of the answers.

    HTTP is not modelled. Each operation returns the POST it would make (URL, headers
    and body) and takes the transport's answer (the response code, and for reads the
    response body) as inputs. The Arduino `String` conversions between floats, integers
    and text are passed in as a `Conversions` value and never interpreted. */
module InfluxClient {
  import opened Strings
  import opened Decimal
  import opened LineProtocol
  import InfluxQL
  import CsvResponse

  /** One HTTP POST: target URL, headers in the order they are added, body. */
  datatype Post = Post(url: string, headers: seq<(string, string)>, body: string)

  /** `String(float)`, `String::toInt()` and `String::toFloat()` of the Arduino core. */
  datatype Conversions = Conversions(floatToString: real -> string, toInt: string -> int, toFloat: string -> real)

  const FormContentType: (string, string) := ("Content-Type", "application/x-www-form-urlencoded")
  const AcceptCsv: (string, string) := ("Accept", "application/csv")

  function QueryURL(serverURL: string, database: string): string {
    serverURL + "/query?db=" + database + "&epoch=s"
  }

  function WriteURL(serverURL: string, database: string): string {
    serverURL + "/write?db=" + database + "&precision=s"
  }

  /** Reads the database name back out of an endpoint: what follows `prefix`, up to
      the first `&`. */
  function DatabaseOf(prefix: string, url: string): Option<string>
  {
    match StripPrefix(prefix, url)
    case None => None
    case Some(rest) =>
      match SplitAt(rest, '&')
      case None => None
      case Some((database, _)) => Some(database)
  }

  /** The query endpoint names the database it was built from, when the name holds no `&`. */
  lemma QueryURLNamesDatabase(serverURL: string, database: string)
    requires '&' !in database
    ensures DatabaseOf(serverURL + "/query?db=", QueryURL(serverURL, database)) == Some(database)
  {
    assert QueryURL(serverURL, database) == (serverURL + "/query?db=") + (database + "&epoch=s");
    StripPrefixJoin(serverURL + "/query?db=", database + "&epoch=s");
    assert database + "&epoch=s" == database + ['&'] + "epoch=s";
    SplitAtJoin(database, '&', "epoch=s");
  }

  /** The write endpoint names the database it was built from, likewise. */
  lemma WriteURLNamesDatabase(serverURL: string, database: string)
    requires '&' !in database
    ensures DatabaseOf(serverURL + "/write?db=", WriteURL(serverURL, database)) == Some(database)
  {
    assert WriteURL(serverURL, database) == (serverURL + "/write?db=") + (database + "&precision=s");
    StripPrefixJoin(serverURL + "/write?db=", database + "&precision=s");
    assert database + "&precision=s" == database + ['&'] + "precision=s";
    SplitAtJoin(database, '&', "precision=s");
  }

  /** Reads and writes never go to the same endpoint. */
  lemma EndpointsDiffer(serverURL: string, database: string)
    ensures QueryURL(serverURL, database) != WriteURL(serverURL, database)
  {
    assert QueryURL(serverURL, database)[|serverURL| + 1] == 'q';
    assert WriteURL(serverURL, database)[|serverURL| + 1] == 'w';
  }

  class Influx {
    var database: string
    var serverURL: string
    var baseQueryURL: string
    var baseWriteURL: string
    var tag: string
    var tagValue: string
    /** Public, and never assigned by the client itself: it stays empty unless the
        caller sets it. */
    var errString: string

    /** The endpoints always match the server and database they were derived from. */
    ghost predicate Valid()
      reads this
    {
      baseQueryURL == QueryURL(serverURL, database) && baseWriteURL == WriteURL(serverURL, database)
    }

    constructor (serverURL: string, database: string)
      ensures Valid()
      ensures this.serverURL == serverURL && this.database == database
      ensures baseQueryURL == serverURL + "/query?db=" + database + "&epoch=s"
      ensures baseWriteURL == serverURL + "/write?db=" + database + "&precision=s"
      ensures tag == "tag" && tagValue == "somevalue"
      ensures errString == ""
    {
      this.database := database;
      this.serverURL := serverURL;
      baseQueryURL := serverURL + "/query?db=" + database + "&epoch=s";
      baseWriteURL := serverURL + "/write?db=" + database + "&precision=s";
      tag := "tag";
      tagValue := "somevalue";
      errString := "";
    }

    /** Replaces the tag pair used by every later write and query; nothing else changes. */
    method SetTag(tag: string, tagValue: string)
      requires Valid()
      modifies this
      ensures Valid()
      ensures this.tag == tag && this.tagValue == tagValue
      ensures database == old(database) && serverURL == old(serverURL)
      ensures baseQueryURL == old(baseQueryURL) && baseWriteURL == old(baseWriteURL)
      ensures errString == old(errString)
    {
      this.tag := tag;
      this.tagValue := tagValue;
    }

    /** One line of line protocol for a measurement and value under the current tag. */
    function DataPointString(measurement: string, value: real, conv: Conversions): (line: string)
      reads this
      ensures Unambiguous(measurement, tag, tagValue) ==>
        ParseLine(line) == Some(LineParts(measurement, tag, tagValue, conv.floatToString(value)))
    {
      var line := PointLine(measurement, tag, tagValue, conv.floatToString(value));
      if Unambiguous(measurement, tag, tagValue) then
        PointLineRoundTrip(measurement, tag, tagValue, conv.floatToString(value));
        line
      else
        line
    }

    /** Posts `httpData` to the write endpoint; only 204 counts as success. Nothing in
        the client changes, whatever the answer. */
    method WriteData(httpData: string, responseCode: int) returns (request: Post, ok: bool)
      requires Valid()
      ensures request == Post(WriteURL(serverURL, database), [FormContentType], httpData)
      ensures ok <==> responseCode == 204
    {
      request := Post(baseWriteURL, [FormContentType], httpData);
      ok := responseCode == 204;
    }

    /** Sends the first `len` points in one request, one newline-terminated line each
        (none when `len` is not positive). */
    method SendDataPoints(points: seq<DataPoint>, len: int, conv: Conversions, responseCode: int)
      returns (request: Post, ok: bool)
      requires Valid()
      requires len <= |points|
      ensures request.url == WriteURL(serverURL, database) && request.headers == [FormContentType]
      ensures request.body == Batch(points[..if len < 0 then 0 else len], tag, tagValue, conv.floatToString)
      ensures ok <==> responseCode == 204
    {
      var httpData := "";
      var i := 0;
      while i < len
        invariant 0 <= i <= |points|
        invariant i <= len || (len < 0 && i == 0)
        invariant httpData == Batch(points[..i], tag, tagValue, conv.floatToString)
      {
        var line := DataPointString(points[i].measurement, points[i].value, conv);
        BatchSnoc(points, i, tag, tagValue, conv.floatToString);
        httpData := httpData + line;
        httpData := httpData + "\n";
        i := i + 1;
      }
      request, ok := WriteData(httpData, responseCode);
    }

    /** Sends one point: exactly its line, with no newline after it, which is the
        one-point batch without its final newline. */
    method SendMeasurement(measurement: string, value: real, conv: Conversions, responseCode: int)
      returns (request: Post, ok: bool)
      requires Valid()
      ensures request.url == WriteURL(serverURL, database) && request.headers == [FormContentType]
      ensures request.body == PointLine(measurement, tag, tagValue, conv.floatToString(value))
      ensures request.body + "\n" == Batch([DataPoint(measurement, value, 0)], tag, tagValue, conv.floatToString)
      ensures ok <==> responseCode == 204
    {
      var httpData := DataPointString(measurement, value, conv);
      SingleLineIsBatchOfOne(DataPoint(measurement, value, 0), tag, tagValue, conv.floatToString);
      request, ok := WriteData(httpData, responseCode);
    }

    /** The mean of the measurement over the last `minutes` minutes for the current tag,
        read from field 3 of the answer; nothing when the answer is not 200. */
    method GetMeanValue(measurement: string, minutes: uint32, conv: Conversions, responseCode: int,
                        responseBody: string)
      returns (request: Post, value: Option<real>)
      requires Valid()
      ensures request == Post(QueryURL(serverURL, database), [FormContentType, AcceptCsv],
                              InfluxQL.MeanRequest(measurement, minutes, tag, tagValue))
      ensures value.Some? <==> responseCode == 200
      ensures value.Some? ==> value.value == conv.toFloat(CsvResponse.FieldFromPayload(3, responseBody, errString))
    {
      var requestData := "q=SELECT mean(value) FROM " + measurement
        + " WHERE time > now() - " + ToDecimal(minutes) + "m AND " + tag + "='" + tagValue + "'";
      InfluxQL.MeanRequestText(measurement, minutes, tag, tagValue);
      var point;
      request, point := ReadData(requestData, conv, responseCode, responseBody);
      value := if point.Some? then Some(point.value.value) else None;
    }

    /** The youngest value of the measurement for the current tag, with its time (field 2)
        and value (field 3), named after the measurement; nothing when the answer is not 200. */
    method GetLastValue(measurement: string, conv: Conversions, responseCode: int, responseBody: string)
      returns (request: Post, point: Option<DataPoint>)
      requires Valid()
      ensures request == Post(QueryURL(serverURL, database), [FormContentType, AcceptCsv],
                              InfluxQL.LastRequest(measurement, tag, tagValue))
      ensures point.Some? <==> responseCode == 200
      ensures point.Some? ==> point.value == DataPoint(measurement,
        conv.toFloat(CsvResponse.FieldFromPayload(3, responseBody, errString)),
        conv.toInt(CsvResponse.FieldFromPayload(2, responseBody, errString)))
    {
      var requestData := "q=SELECT last(value) FROM " + measurement
        + " WHERE " + tag + "='" + tagValue + "'";
      InfluxQL.LastRequestText(measurement, tag, tagValue);
      request, point := ReadData(requestData, conv, responseCode, responseBody);
      if point.Some? {
        point := Some(point.value.(measurement := measurement));
      }
    }

    /** Posts a query; on 200 the time is field 2 and the value field 3 of the answer,
        the measurement name is left empty. Any other code gives no point. */
    method ReadData(requestData: string, conv: Conversions, responseCode: int, responseBody: string)
      returns (request: Post, point: Option<DataPoint>)
      requires Valid()
      ensures request == Post(QueryURL(serverURL, database), [FormContentType, AcceptCsv], requestData)
      ensures point.Some? <==> responseCode == 200
      ensures point.Some? ==> point.value == DataPoint("",
        conv.toFloat(CsvResponse.FieldFromPayload(3, responseBody, errString)),
        conv.toInt(CsvResponse.FieldFromPayload(2, responseBody, errString)))
    {
      request := Post(baseQueryURL, [FormContentType, AcceptCsv], requestData);
      if responseCode == 200 {
        var time := GetFieldFromPayload(2, responseBody);
        var value := GetFieldFromPayload(3, responseBody);
        point := Some(DataPoint("", conv.toFloat(value), conv.toInt(time)));
      } else {
        point := None;
      }
    }

    /** Field `fieldNumber` of the data row, cut out by the two scans of the client. */
    method GetFieldFromPayload(fieldNumber: uint32, payload: string) returns (field: string)
      ensures field == CsvResponse.FieldFromPayload(fieldNumber, payload, errString)
    {
      // `sepLimit = fieldNumber--` keeps the number as it was given.
      var sepLimit: nat := fieldNumber;
      var line := GetValuesFromResponse(payload);
      var startPos := FindFieldStart(line, sepLimit);
      line := line[startPos..];
      var endPos := FindFieldEnd(line);
      // A comma at index 0 leaves endPos at 0, as if there were none.
      if endPos == 0 {
        field := line;
      } else {
        field := line[..endPos];
      }
    }

    /** The data section of a response: from the first newline at index 1 or later,
        newline included; `errString` when there is none. */
    method GetValuesFromResponse(response: string) returns (line: string)
      ensures line == CsvResponse.ValuesLine(response, errString)
    {
      var pos := 0;
      var i := 1;
      while i < |response|
        invariant 1 <= i && (i <= |response| || |response| == 0) && pos == 0
        invariant forall q :: 1 <= q < i && q < |response| ==> response[q] != '\n'
      {
        if response[i] == '\n' {
          pos := i;
          break;
        }
        i := i + 1;
      }
      if pos == 0 {
        line := errString;
      } else {
        line := response[pos..];
      }
    }
  }

  /** The first scan of `getFieldFromPayload`: count commas until `sepLimit` of them
      have been seen and return the index just past that point, or 0 when the line
      ends first. With a limit of 0 the scan stops after the first character unless
      that character is a comma. */
  method FindFieldStart(line: string, sepLimit: nat) returns (startPos: nat)
    ensures startPos == CsvResponse.FieldStart(line, sepLimit)
  {
    startPos := 0;
    var sepCount: int := 0;
    var i := 0;
    while i < |line|
      invariant 0 <= i <= |line| && startPos == 0
      invariant CsvResponse.StopAfter(line, sepLimit)
             == CsvResponse.Shift(CsvResponse.StopAfter(line[i..], sepLimit - sepCount), i)
    {
      ghost var before := sepCount;
      if line[i] == ',' {
        sepCount := sepCount + 1;
      }
      if sepCount == sepLimit {
        CsvResponse.StopAfterHit(line, sepLimit, i, before, sepCount);
        startPos := i + 1;
        return;
      }
      CsvResponse.StopAfterContinue(line, sepLimit, i, before, sepCount);
      i := i + 1;
    }
    CsvResponse.StopAfterEnd(line, sepLimit, sepCount);
  }

  /** The second scan: the index of the first comma, 0 when there is none (which
      cannot be told apart from a comma at index 0). */
  method FindFieldEnd(line: string) returns (endPos: nat)
    ensures endPos == match IndexOf(line, ',')
                      case None => 0
                      case Some(e) => e
  {
    endPos := 0;
    var i := 0;
    while i < |line|
      invariant 0 <= i <= |line|
      invariant forall k :: 0 <= k < i ==> line[k] != ','
    {
      if line[i] == ',' {
        IndexOfUnique(line, ',', i);
        endPos := i;
        return;
      }
      i := i + 1;
    }
  }
}
