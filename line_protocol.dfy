/** The write side: InfluxDB line protocol as the client produces it, one tag pair and
    one field named `value` per line, with no escaping of reserved characters. */
module LineProtocol {
  import opened Strings

  /** One sample; `currTime` is only filled in by a read. */
  datatype DataPoint = DataPoint(measurement: string, value: real, currTime: int)

  /** `measurement,tag=tagValue value=<valueText>`, where `valueText` is the
      platform's rendering of the float. */
  function PointLine(measurement: string, tag: string, tagValue: string, valueText: string): string
  {
    measurement + "," + tag + "=" + tagValue + " value=" + valueText
  }

  /** The lines of a batch, in order, each tagged with the same pair. */
  function PointLines(points: seq<DataPoint>, tag: string, tagValue: string, show: real -> string): seq<string>
  {
    seq(|points|, i requires 0 <= i < |points| =>
      PointLine(points[i].measurement, tag, tagValue, show(points[i].value)))
  }

  /** One more point gives one more line at the end. */
  lemma PointLinesSnoc(points: seq<DataPoint>, p: DataPoint, tag: string, tagValue: string, show: real -> string)
    ensures PointLines(points + [p], tag, tagValue, show)
         == PointLines(points, tag, tagValue, show) + [PointLine(p.measurement, tag, tagValue, show(p.value))]
  {
  }

  /** Every line followed by a newline, concatenated. */
  function Terminated(lines: seq<string>): (s: string)
    ensures s == "" <==> lines == []
    ensures s != "" ==> s[|s| - 1] == '\n'
  {
    if lines == [] then "" else lines[0] + "\n" + Terminated(lines[1..])
  }

  /** The payload of a multi-point write: empty exactly for no points, and
      newline-terminated otherwise, whatever the names hold. */
  function Batch(points: seq<DataPoint>, tag: string, tagValue: string, show: real -> string): (r: string)
    ensures r == "" <==> points == []
    ensures points != [] ==> r[|r| - 1] == '\n'
  {
    Terminated(PointLines(points, tag, tagValue, show))
  }

  /** Appending one more line to a terminated text. */
  lemma {:induction false} TerminatedSnoc(lines: seq<string>, line: string)
    ensures Terminated(lines + [line]) == Terminated(lines) + line + "\n"
  {
    if lines != [] {
      assert (lines + [line])[1..] == lines[1..] + [line];
      TerminatedSnoc(lines[1..], line);
    } else {
      assert [line][1..] == [];
    }
  }

  /** The reverse of `Terminated`: cut a text into newline-terminated lines;
      None when text is left over after the last newline. */
  function SplitTerminated(s: string): Option<seq<string>>
    decreases |s|
  {
    if s == "" then Some([])
    else
      match SplitAt(s, '\n')
      case None => None
      case Some((line, rest)) =>
        match SplitTerminated(rest)
        case None => None
        case Some(lines) => Some([line] + lines)
  }

  /** Reading one line off the front of a text. */
  lemma SplitTerminatedCons(line: string, rest: string)
    requires '\n' !in line
    ensures SplitTerminated(line + ['\n'] + rest)
         == match SplitTerminated(rest)
            case None => None
            case Some(lines) => Some([line] + lines)
  {
    SplitAtJoin(line, '\n', rest);
  }

  /** Lines without a newline in them come back out of the payload unchanged. */
  lemma {:induction false} TerminatedRoundTrip(lines: seq<string>)
    requires forall i :: 0 <= i < |lines| ==> '\n' !in lines[i]
    ensures SplitTerminated(Terminated(lines)) == Some(lines)
  {
    if lines != [] {
      var tail := lines[1..];
      assert forall i :: 0 <= i < |tail| ==> '\n' !in tail[i] by {
        forall i | 0 <= i < |tail| ensures '\n' !in tail[i] {
          assert tail[i] == lines[i + 1];
        }
      }
      TerminatedRoundTrip(tail);
      TerminatedCons(lines);
    }
  }

  /** One step of the round trip: the first line, then whatever the rest splits into. */
  lemma TerminatedCons(lines: seq<string>)
    requires lines != [] && '\n' !in lines[0]
    requires SplitTerminated(Terminated(lines[1..])) == Some(lines[1..])
    ensures SplitTerminated(Terminated(lines)) == Some(lines)
  {
    var rest := Terminated(lines[1..]);
    assert Terminated(lines) == lines[0] + ['\n'] + rest;
    SplitTerminatedCons(lines[0], rest);
    assert [lines[0]] + lines[1..] == lines;
  }

  /** The fields of one line, as `ParseLine` takes them. */
  datatype LineParts = LineParts(measurement: string, tag: string, tagValue: string, valueText: string)

  /** Reads a line back: the measurement ends at the first comma, the tag key at the
      first `=`, the tag value at the first space, which must be followed by `value=`.
      This is more lenient than line protocol, which also ends a measurement at an
      unescaped space and a tag key or tag value at an unescaped comma. */
  function ParseLine(line: string): Option<LineParts>
  {
    match SplitAt(line, ',')
    case None => None
    case Some((measurement, afterMeasurement)) =>
      match SplitAt(afterMeasurement, '=')
      case None => None
      case Some((tag, afterTag)) =>
        match SplitAt(afterTag, ' ')
        case None => None
        case Some((tagValue, afterTagValue)) =>
          match StripPrefix("value=", afterTagValue)
          case None => None
          case Some(valueText) => Some(LineParts(measurement, tag, tagValue, valueText))
  }

  /** Names free of the separators at which `ParseLine` ends them are read back exactly. */
  predicate Unambiguous(measurement: string, tag: string, tagValue: string) {
    ',' !in measurement && '=' !in tag && ' ' !in tagValue
  }

  lemma PointLineRoundTrip(measurement: string, tag: string, tagValue: string, valueText: string)
    requires Unambiguous(measurement, tag, tagValue)
    ensures ParseLine(PointLine(measurement, tag, tagValue, valueText))
         == Some(LineParts(measurement, tag, tagValue, valueText))
  {
    var afterTagValue := "value=" + valueText;
    var afterTag := tagValue + [' '] + afterTagValue;
    var afterMeasurement := tag + ['='] + afterTag;
    assert PointLine(measurement, tag, tagValue, valueText) == measurement + [','] + afterMeasurement;
    SplitAtJoin(measurement, ',', afterMeasurement);
    SplitAtJoin(tag, '=', afterTag);
    SplitAtJoin(tagValue, ' ', afterTagValue);
    StripPrefixJoin("value=", valueText);
  }

  /** No escaping: a comma inside the measurement name ends the measurement early and
      the rest of the name is read as part of the tag key. */
  lemma CommaInMeasurementIsNotEscaped(head: string, tail: string, tag: string, tagValue: string, valueText: string)
    requires ',' !in head && '=' !in tail && '=' !in tag && ' ' !in tagValue
    ensures ParseLine(PointLine(head + "," + tail, tag, tagValue, valueText))
         == Some(LineParts(head, tail + "," + tag, tagValue, valueText))
  {
    var afterTagValue := "value=" + valueText;
    var afterTag := tagValue + [' '] + afterTagValue;
    var afterMeasurement := (tail + "," + tag) + ['='] + afterTag;
    assert PointLine(head + "," + tail, tag, tagValue, valueText) == head + [','] + afterMeasurement;
    SplitAtJoin(head, ',', afterMeasurement);
    SplitAtJoin(tail + "," + tag, '=', afterTag);
    SplitAtJoin(tagValue, ' ', afterTagValue);
    StripPrefixJoin("value=", valueText);
  }

  /** The batch of one more point is the batch so far, that point's line and a newline. */
  lemma BatchSnoc(points: seq<DataPoint>, i: nat, tag: string, tagValue: string, show: real -> string)
    requires i < |points|
    ensures Batch(points[..i + 1], tag, tagValue, show)
         == Batch(points[..i], tag, tagValue, show)
            + PointLine(points[i].measurement, tag, tagValue, show(points[i].value)) + "\n"
  {
    assert points[..i + 1] == points[..i] + [points[i]];
    PointLinesSnoc(points[..i], points[i], tag, tagValue, show);
    TerminatedSnoc(PointLines(points[..i], tag, tagValue, show),
                   PointLine(points[i].measurement, tag, tagValue, show(points[i].value)));
  }

  /** When no name or rendered value contains a newline, the payload of a batch splits
      back into one line per point, in order (each of which `PointLineRoundTrip` reads back). */
  lemma BatchLines(points: seq<DataPoint>, tag: string, tagValue: string, show: real -> string)
    requires '\n' !in tag && '\n' !in tagValue
    requires forall i :: 0 <= i < |points| ==>
      '\n' !in points[i].measurement && '\n' !in show(points[i].value)
    ensures SplitTerminated(Batch(points, tag, tagValue, show)) == Some(PointLines(points, tag, tagValue, show))
  {
    var lines := PointLines(points, tag, tagValue, show);
    forall i | 0 <= i < |lines| ensures '\n' !in lines[i] {
      var p := points[i];
      assert lines[i] == p.measurement + "," + tag + "=" + tagValue + " value=" + show(p.value);
    }
    TerminatedRoundTrip(lines);
  }

  /** When, besides, every point's names are unambiguous, each line split out of the
      batch reads back as its point's measurement, tag pair and rendered value. */
  lemma BatchReadsBack(points: seq<DataPoint>, tag: string, tagValue: string, show: real -> string)
    requires '\n' !in tag && '\n' !in tagValue
    requires forall i :: 0 <= i < |points| ==>
      '\n' !in points[i].measurement && '\n' !in show(points[i].value)
    requires forall i :: 0 <= i < |points| ==> Unambiguous(points[i].measurement, tag, tagValue)
    ensures SplitTerminated(Batch(points, tag, tagValue, show)).Some?
    ensures |SplitTerminated(Batch(points, tag, tagValue, show)).value| == |points|
    ensures forall i :: 0 <= i < |points| ==>
      ParseLine(SplitTerminated(Batch(points, tag, tagValue, show)).value[i])
        == Some(LineParts(points[i].measurement, tag, tagValue, show(points[i].value)))
  {
    BatchLines(points, tag, tagValue, show);
    var lines := PointLines(points, tag, tagValue, show);
    forall i | 0 <= i < |points|
      ensures ParseLine(lines[i]) == Some(LineParts(points[i].measurement, tag, tagValue, show(points[i].value)))
    {
      PointLineRoundTrip(points[i].measurement, tag, tagValue, show(points[i].value));
    }
  }

  /** A single-measurement write sends the one-point batch without its final newline. */
  lemma SingleLineIsBatchOfOne(p: DataPoint, tag: string, tagValue: string, show: real -> string)
    ensures Batch([p], tag, tagValue, show) == PointLine(p.measurement, tag, tagValue, show(p.value)) + "\n"
  {
    var lines := PointLines([p], tag, tagValue, show);
    assert lines == [PointLine(p.measurement, tag, tagValue, show(p.value))];
    assert lines[1..] == [];
  }
}
