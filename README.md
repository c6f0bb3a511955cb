# InfluxClient model

A Dafny model of `Influx`, the Arduino (ESP32) client for InfluxDB 1.x. It writes
measurements as line protocol and reads single values back through InfluxQL queries
answered in CSV. The model covers:

- the client object: its endpoints, its tag pair, and the requests it builds;
- the line-protocol payloads of single-point and multi-point writes;
- the request bodies of the mean query and the last-value query;
- the two text scans that cut one field out of a CSV response.

Modules, one file each:

- `Strings` (`strings.dfy`): `Option`, first occurrence, split at a character, strip a prefix.
- `Decimal` (`decimal.dfy`): the decimal rendering of an `unsigned int`, and reading it back.
- `LineProtocol` (`line_protocol.dfy`): the write payloads. A reader, `ParseLine`, serves
  as the reference the payloads are proved against. It splits a line at the first `,`,
  then the first `=`, then the first space, then expects `value=`. It is more lenient
  than line protocol, which also ends a measurement at an unescaped space and a tag key
  or tag value at an unescaped comma.
- `InfluxQL` (`influx_ql.dfy`): the query bodies and a parser they are proved against.
- `CsvResponse` (`csv_response.dfy`): the read path as loop-free functions. An ordinary
  comma split (`Columns`, `Join`) serves as the reference the scans are proved against.
- `InfluxClient` (`influx_client.dfy`): the class `Influx`, with its fields and
  methods. Every loop of the client stays a `while` loop. Each method is proved equal to
  the functions above.

HTTP is a parameter. Each operation returns the `Post` it would make (URL, headers, body)
and takes the transport's answer as input: the status code, plus the response body for
reads.

The function's own comment says fields are numbered from 1. In the code,
`sepLimit = fieldNumber--` copies the number before decrementing it, so the field
number is a 0-based column index: 2 is the timestamp and 3 the value of a
`name,tags,time,<aggregate>` answer. `readData` asks for exactly those two numbers. The model
follows the code. `CsvResponse.DocumentedResponse` shows
what the code gives on the example in the source's own comment. Column k comes out
exactly only when it is non-empty or the last column. An empty column, such as the
empty `tags` column, yields the rest of the line instead, comma included. A number
beyond the last comma yields the first column, newline included.

## Model

| member | source | states |
|---|---|---|
| `InfluxClient.Influx.constructor` | src/InfluxClient.cpp:14-21 | The query endpoint is `<server>/query?db=<db>&epoch=s` and the write endpoint `<server>/write?db=<db>&precision=s`. The tag pair defaults to `tag=somevalue` and the error string to empty. `Valid()` ties both endpoints to server and database. |
| `InfluxClient.QueryURLNamesDatabase` | src/InfluxClient.cpp:17 | Reading the query endpoint after `<server>/query?db=` up to the first `&` gives back the database, when its name holds no `&`. |
| `InfluxClient.WriteURLNamesDatabase` | src/InfluxClient.cpp:18 | Reading the write endpoint after `<server>/write?db=` up to the first `&` gives back the database, when its name holds no `&`. |
| `InfluxClient.EndpointsDiffer` | src/InfluxClient.cpp:17-18 | The query and write endpoints differ for every server and database. |
| `InfluxClient.Influx.SetTag` | src/InfluxClient.cpp:27-30 | The new tag pair is stored and the endpoints, database, server and error string are unchanged (`Valid()` is kept). |
| `LineProtocol.PointLineRoundTrip` | src/InfluxClient.cpp:52-63 | For a measurement with no `,`, a tag key with no `=` and a tag value with no space, `ParseLine` (split at the first `,`, then `=`, then space) gets back exactly the measurement, tag pair and value text that `getDataPointString` wrote. |
| `LineProtocol.CommaInMeasurementIsNotEscaped` | src/InfluxClient.cpp:52-63 | Nothing is escaped. A comma in the measurement name cuts the name short, and `ParseLine` reads the rest of the name as part of the tag key. This holds when the part after the first comma holds no `=`, the tag key no `=` and the tag value no space. |
| `InfluxClient.Influx.DataPointString` | src/InfluxClient.cpp:52-63 | The line for a measurement and value under the object's current tag pair reads back through `ParseLine` (split at the first `,`, then `=`, then space) as that measurement, tag pair and rendered value, when the measurement holds no `,`, the tag key no `=` and the tag value no space. |
| `LineProtocol.Terminated` | src/InfluxClient.cpp:42-46 | The newline-terminated concatenation is empty exactly when there are no lines, and otherwise ends in a newline. |
| `LineProtocol.TerminatedSnoc` | src/InfluxClient.cpp:43-45 | Appending a line and a newline to the payload is the payload of one more line, which is the loop's step. |
| `LineProtocol.TerminatedRoundTrip` | src/InfluxClient.cpp:42-46 | Splitting the payload at newlines gives back exactly the lines, when no line contains a newline. |
| `LineProtocol.Batch` | src/InfluxClient.cpp:38-49 | For any names, a batch payload is empty exactly for no points and otherwise ends in a newline. |
| `LineProtocol.BatchLines` | src/InfluxClient.cpp:38-49 | When the tag, the tag value, every measurement and every rendered value hold no newline, a batch payload splits back into the points' lines in order. |
| `LineProtocol.BatchReadsBack` | src/InfluxClient.cpp:38-49 | When the tag, the tag value, every measurement and every rendered value hold no newline, and every measurement holds no `,`, the tag key no `=` and the tag value no space, the batch splits into one line per point, and `ParseLine` reads line i back as point i's measurement, the tag pair and point i's rendered value. |
| `LineProtocol.SingleLineIsBatchOfOne` | src/InfluxClient.cpp:93-101 | A single-point write sends the one-point batch without its final newline. |
| `InfluxClient.Influx.WriteData` | src/InfluxClient.cpp:68-88 | The body goes unchanged to the write endpoint with the form content type. Success is reported exactly for status 204. |
| `InfluxClient.Influx.SendDataPoints` | src/InfluxClient.cpp:38-49 | The loop builds exactly the batch of the first `len` points, or the empty batch when `len <= 0`, and posts it to the write endpoint. |
| `InfluxClient.Influx.SendMeasurement` | src/InfluxClient.cpp:93-101 | Posts exactly one point line with no trailing newline, which is the one-point batch minus its newline. Success is reported exactly for status 204. |
| `Decimal.ToDecimal` | src/InfluxClient.cpp:127 | The rendering of `minutes` is non-empty and all digits, with a leading `0` only for zero. |
| `Decimal.DecimalRoundTrip` | src/InfluxClient.cpp:127 | Reading the rendered minutes back gives the number. |
| `InfluxQL.TagFilterRoundTrip` | src/InfluxClient.cpp:127 | The `tag='value'` filter reads back to the tag pair when the tag key holds no `=`. |
| `InfluxQL.WindowRoundTrip` | src/InfluxClient.cpp:127 | The `<minutes>m AND <filter>` part of the mean query reads back to the minutes and the tag pair, when the tag key holds no `=`. |
| `InfluxQL.MeanSelectionRoundTrip` | src/InfluxClient.cpp:126-127 | The part after `FROM` of the mean query reads back to the measurement, the window and the tag pair, when the measurement holds no space and the tag key no `=`. |
| `InfluxQL.MeanRequestRoundTrip` | src/InfluxClient.cpp:126-127 | The mean request states the measurement, the window in minutes and the tag pair it was built from. This holds for a measurement without a space and a tag key without `=`. |
| `InfluxQL.LastSelectionRoundTrip` | src/InfluxClient.cpp:140-141 | The part after `FROM` of the last-value query reads back to the measurement and the tag pair, when the measurement holds no space and the tag key no `=`. |
| `InfluxQL.LastRequestRoundTrip` | src/InfluxClient.cpp:140-141 | The last-value request states the measurement and tag pair it was built from, and never reads as a mean request. This holds for a measurement without a space and a tag key without `=`. |
| `InfluxClient.Influx.GetMeanValue` | src/InfluxClient.cpp:124-131 | Posts `q=SELECT mean(value) FROM <m> WHERE time > now() - <minutes>m AND <tag>='<value>'` to the query endpoint. A value comes back exactly on status 200, and it is the float of field 3 of the answer. |
| `InfluxClient.Influx.GetLastValue` | src/InfluxClient.cpp:138-147 | Posts `q=SELECT last(value) FROM <m> WHERE <tag>='<value>'`. A point comes back exactly on status 200: named after the measurement, its value the float of field 3, its time the integer of field 2. |
| `InfluxClient.Influx.ReadData` | src/InfluxClient.cpp:149-175 | The query goes to the query endpoint with the form and `Accept: application/csv` headers. On 200 the result is a point whose time is field 2, whose value is field 3 and whose name is empty. Any other status gives no point. |
| `InfluxClient.Influx.GetValuesFromResponse` | src/InfluxClient.cpp:224-244 | The loop returns exactly `ValuesLine`: everything from the first newline at index 1 or later, or the error string when there is none. |
| `CsvResponse.DataStart` | src/InfluxClient.cpp:228-234 | The result is the least index of at least 1 that holds a newline, or none when no such index exists. The characterization holds both ways. |
| `CsvResponse.ValuesLineOfTable` | src/InfluxClient.cpp:224-244 | For a header row (newline-free after its first character), a newline and data, the data section is the data with its newline in front. |
| `CsvResponse.LeadingNewlineIgnored` | src/InfluxClient.cpp:228 | A newline at index 0 is never found, so such a body without another newline yields the error string. |
| `InfluxClient.FindFieldStart` | src/InfluxClient.cpp:189-200 | The first scan's loop returns exactly `FieldStart`: just past the point where the comma count reaches the limit, or 0 when the line ends first. |
| `CsvResponse.StopAfter` | src/InfluxClient.cpp:192-200 | The first scan as a recursion over the line: when it stops, it stops at an offset between 1 and the line's length. |
| `CsvResponse.StopAfterContinue` | src/InfluxClient.cpp:192-200 | A step of the first scan that does not stop leaves the result to the rest of the line, with the updated count. |
| `CsvResponse.StopAfterEnd` | src/InfluxClient.cpp:189-200 | When the first scan runs off the end of the line, the start stays 0. |
| `CsvResponse.StopAfterCommas` | src/InfluxClient.cpp:192-200 | For a limit k of at least 1, the first scan stops exactly after the k-th comma, and never stops when there are fewer than k commas. |
| `CsvResponse.StopAfterPassed` | src/InfluxClient.cpp:194-196 | Once the count has passed the limit it never equals it again, so the scan does not stop. |
| `InfluxClient.FindFieldEnd` | src/InfluxClient.cpp:206-214 | The second scan's loop returns the index of the first comma, or 0 when there is none. |
| `CsvResponse.FirstToken` | src/InfluxClient.cpp:216-220 | The cut is a prefix of its input. It holds a comma only when a comma at index 0 was taken for "no comma", in which case the whole input is kept. |
| `CsvResponse.FirstTokenIsColumn` | src/InfluxClient.cpp:206-220 | The cut is the first comma-separated column, read as `ColumnAsRead` says. |
| `CsvResponse.FirstColumn` | src/InfluxClient.cpp:206-214 | The first column of the reference split ends at the first comma. |
| `CsvResponse.Field` | src/InfluxClient.cpp:181-221 | The field is a substring of the data line at `FieldStart`. A comma can be in it only when it is the whole rest of the line from a leading comma. |
| `InfluxClient.Influx.GetFieldFromPayload` | src/InfluxClient.cpp:181-221 | Returns exactly `FieldFromPayload`, the two scans applied to the data section, with `sepLimit` equal to the number given. |
| `CsvResponse.FieldSelectsColumn` | src/InfluxClient.cpp:181-221 | For 1 <= k < number of columns, field k is column k (0-based). An empty column that is not the last yields the rest of the line instead, comma included. |
| `CsvResponse.FieldTooFewCommas` | src/InfluxClient.cpp:189-203 | When there are fewer than k commas, the start stays 0 and field k is the first column as read. |
| `CsvResponse.FieldZero` | src/InfluxClient.cpp:183-200 | For field 0, the scan stops after the first character unless it is a comma. The result is then the first column of the rest of the line as `ColumnAsRead` reads it; otherwise (an empty line, or one starting with a comma) it is the whole line. |
| `CsvResponse.ResponseField` | src/InfluxClient.cpp:181-244 | On a header row, a newline and a comma-free data row, field k (1 <= k < row length) is column k of the row, or the rest of the row for an empty inner column. |
| `CsvResponse.ResponseFieldMissing` | src/InfluxClient.cpp:189-203 | On such a response, asking beyond the last comma gives the first column of the row with the newline in front. |
| `CsvResponse.ResponseTimeAndValue` | src/InfluxClient.cpp:165-166 | On a `name,tags,time,<aggregate>` answer with a non-empty time, field 2 is the time and field 3 the value, as `readData` takes them. |
| `CsvResponse.DocumentedResponse` | src/InfluxClient.cpp:112-113 | On the example response in the comment: field 2 is `1588053087`, 3 is `keller` and 4 is `15.5`. Field 1 is the rest of the line after the empty tags column, and field 5 is `\ntemperature`. |

## Left out

- HTTP and the serial console: `HTTPClient` and `Serial` become parameters. The status
  code and response body come in, and the `Post` (URL, headers, body) goes out. The
  printed messages are not modelled.
- InfluxClient.Influx.WriteData: the source returns nothing and only prints which status it got. The
  `ok` result stands for which of the two messages is printed.
- Floats: `float` is modelled as `real`. `String(float)`, `String::toInt()` and
  `String::toFloat()` are the uninterpreted fields of a `Conversions` value passed in,
  so rounding, formatting and parse failures are not modelled.
- InfluxClient.Influx.ReadData: for a status other than 200 the source falls off the end of a
  non-void function, which is undefined. The model returns no point, and
  `GetMeanValue` and `GetLastValue` return nothing in that case.
- InfluxClient.Influx.SendDataPoints: requires `len <= |points|`, because for a larger `len` the
  source reads past the end of the array.
- `src/InfluxClient.h` declares a different interface from the one `src/InfluxClient.cpp`
  defines:
  - a three-argument constructor;
  - `sendMeasurement(DataPoint[], uint8_t)` and `setMeasurement`;
  - a `_measurement` field;
  - a `DataPoint` with `field` and `value` only.

  Those declarations have no definitions and are not part of this model. The model
  follows the definitions, with `DataPoint` holding measurement, value and time as the
  `.cpp` uses it.
- Integer widths: `fieldNumber` and `minutes` are 32-bit unsigned (`uint32`). The model
  does not capture `int` overflow of the scan counters on strings longer than 2^31
  characters, or the wrap-around of `fieldNumber--` at 0, whose result is never used.
- Arduino `String` allocation failures, under which `concat` silently drops text, are
  not modelled.
- Escaping is not modelled because the client does none. The model writes names
  exactly as given, and `CommaInMeasurementIsNotEscaped` states the consequence.
- Bytes and characters: an Arduino `String` is a sequence of bytes, while the model's
  `string` is a sequence of Unicode characters. Every delimiter the client looks for is
  ASCII, so the scans cut at the same places. The one difference is field 0
  (`FieldZero`): the source skips one byte, the model one character.
- Concurrency: the client is single-threaded, and the model has none.
