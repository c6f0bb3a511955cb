/** The read side's request bodies: form-encoded `q=` InfluxQL statements for the mean
    over the last minutes and for the last value, both filtered by the client's tag pair.
    Names are interpolated as they are, with no quoting or escaping. */
module InfluxQL {
  import opened Strings
  import opened Decimal

  /** `tag='tagValue'`, the filter both queries end with. */
  function TagFilter(tag: string, tagValue: string): string
  {
    tag + "='" + tagValue + "'"
  }

  /** The part of a mean request after `now() - `. */
  function MeanWindow(minutes: nat, tag: string, tagValue: string): string
  {
    ToDecimal(minutes) + "m AND " + TagFilter(tag, tagValue)
  }

  /** The part of a mean request after `FROM `. */
  function MeanSelection(measurement: string, minutes: nat, tag: string, tagValue: string): string
  {
    measurement + " WHERE time > now() - " + MeanWindow(minutes, tag, tagValue)
  }

  function MeanRequest(measurement: string, minutes: nat, tag: string, tagValue: string): string
  {
    "q=SELECT mean(value) FROM " + MeanSelection(measurement, minutes, tag, tagValue)
  }

  /** The part of a last-value request after `FROM `. */
  function LastSelection(measurement: string, tag: string, tagValue: string): string
  {
    measurement + " WHERE " + TagFilter(tag, tagValue)
  }

  function LastRequest(measurement: string, tag: string, tagValue: string): string
  {
    "q=SELECT last(value) FROM " + LastSelection(measurement, tag, tagValue)
  }

  /** The mean request is the client's one-line concatenation of its pieces. */
  lemma MeanRequestText(measurement: string, minutes: nat, tag: string, tagValue: string)
    ensures "q=SELECT mean(value) FROM " + measurement + " WHERE time > now() - " + ToDecimal(minutes)
            + "m AND " + tag + "='" + tagValue + "'" == MeanRequest(measurement, minutes, tag, tagValue)
  {
    var head := "q=SELECT mean(value) FROM " + measurement + " WHERE time > now() - ";
    var window := MeanWindow(minutes, tag, tagValue);
    assert head + ToDecimal(minutes) + "m AND " + tag + "='" + tagValue + "'" == head + window;
    assert head + window == "q=SELECT mean(value) FROM " + (measurement + " WHERE time > now() - " + window);
  }

  /** The last-value request is the client's one-line concatenation of its pieces. */
  lemma LastRequestText(measurement: string, tag: string, tagValue: string)
    ensures "q=SELECT last(value) FROM " + measurement + " WHERE " + tag + "='" + tagValue + "'"
         == LastRequest(measurement, tag, tagValue)
  {
    var head := "q=SELECT last(value) FROM " + measurement + " WHERE ";
    var filter := TagFilter(tag, tagValue);
    assert head + tag + "='" + tagValue + "'" == head + filter;
    assert head + filter == "q=SELECT last(value) FROM " + (measurement + " WHERE " + filter);
  }

  /** What a request body asks for. */
  datatype Query =
    | Mean(measurement: string, minutes: nat, tag: string, tagValue: string)
    | Last(measurement: string, tag: string, tagValue: string)

  /** Reads `tag='tagValue'`: the key ends at the first `=`, the value is everything
      between the opening quote and the final quote. */
  function ParseTagFilter(s: string): Option<(string, string)>
  {
    match SplitAt(s, '=')
    case None => None
    case Some((tag, afterTag)) =>
      match StripPrefix("'", afterTag)
      case None => None
      case Some(quoted) =>
        if |quoted| >= 1 && quoted[|quoted| - 1] == '\'' then Some((tag, quoted[..|quoted| - 1]))
        else None
  }

  /** Reads `<minutes>m AND tag='tagValue'`, the part of a mean request after `now() - `. */
  function ParseWindow(afterNow: string): Option<(nat, string, string)>
  {
    match SplitAt(afterNow, 'm')
    case None => None
    case Some((digits, afterMinutes)) =>
      if !AllDigits(digits) then None
      else
        match StripPrefix(" AND ", afterMinutes)
        case None => None
        case Some(filter) =>
          match ParseTagFilter(filter)
          case None => None
          case Some((tag, tagValue)) => Some((DecimalValue(digits), tag, tagValue))
  }

  /** Reads the part of a mean request after `FROM `. */
  function ParseMeanSelection(afterFrom: string): Option<Query>
  {
    match SplitAt(afterFrom, ' ')
    case None => None
    case Some((measurement, afterMeasurement)) =>
      match StripPrefix("WHERE time > now() - ", afterMeasurement)
      case None => None
      case Some(afterNow) =>
        match ParseWindow(afterNow)
        case None => None
        case Some((minutes, tag, tagValue)) => Some(Mean(measurement, minutes, tag, tagValue))
  }

  /** Reads the part of a last-value request after `FROM `. */
  function ParseLastSelection(afterFrom: string): Option<Query>
  {
    match SplitAt(afterFrom, ' ')
    case None => None
    case Some((measurement, afterMeasurement)) =>
      match StripPrefix("WHERE ", afterMeasurement)
      case None => None
      case Some(filter) =>
        match ParseTagFilter(filter)
        case None => None
        case Some((tag, tagValue)) => Some(Last(measurement, tag, tagValue))
  }

  /** Reads a request body back into the query it states. */
  function ParseRequest(q: string): Option<Query>
  {
    match StripPrefix("q=SELECT mean(value) FROM ", q)
    case Some(afterFrom) => ParseMeanSelection(afterFrom)
    case None =>
      match StripPrefix("q=SELECT last(value) FROM ", q)
      case None => None
      case Some(afterFrom) => ParseLastSelection(afterFrom)
  }

  lemma TagFilterRoundTrip(tag: string, tagValue: string)
    requires '=' !in tag
    ensures ParseTagFilter(TagFilter(tag, tagValue)) == Some((tag, tagValue))
  {
    var quoted := tagValue + "'";
    assert TagFilter(tag, tagValue) == tag + ['='] + ("'" + quoted);
    SplitAtJoin(tag, '=', "'" + quoted);
    StripPrefixJoin("'", quoted);
    assert quoted[..|quoted| - 1] == tagValue;
  }

  /** The window and filter of a mean request read back. */
  lemma WindowRoundTrip(minutes: nat, tag: string, tagValue: string)
    requires '=' !in tag
    ensures ParseWindow(MeanWindow(minutes, tag, tagValue)) == Some((minutes, tag, tagValue))
  {
    var digits := ToDecimal(minutes);
    var filter := TagFilter(tag, tagValue);
    var afterMinutes := " AND " + filter;
    assert MeanWindow(minutes, tag, tagValue) == digits + ['m'] + afterMinutes;
    assert 'm' !in digits by {
      forall i | 0 <= i < |digits| ensures digits[i] != 'm' {
        assert IsDigit(digits[i]);
      }
    }
    SplitAtJoin(digits, 'm', afterMinutes);
    StripPrefixJoin(" AND ", filter);
    TagFilterRoundTrip(tag, tagValue);
    DecimalRoundTrip(minutes);
  }

  lemma MeanSelectionRoundTrip(measurement: string, minutes: nat, tag: string, tagValue: string)
    requires ' ' !in measurement && '=' !in tag
    ensures ParseMeanSelection(MeanSelection(measurement, minutes, tag, tagValue))
         == Some(Mean(measurement, minutes, tag, tagValue))
  {
    var afterNow := MeanWindow(minutes, tag, tagValue);
    var afterMeasurement := "WHERE time > now() - " + afterNow;
    assert MeanSelection(measurement, minutes, tag, tagValue) == measurement + [' '] + afterMeasurement;
    SplitAtJoin(measurement, ' ', afterMeasurement);
    StripPrefixJoin("WHERE time > now() - ", afterNow);
    WindowRoundTrip(minutes, tag, tagValue);
  }

  /** A body starting with the mean prefix is read by the mean reader. */
  lemma MeanPrefixParsed(afterFrom: string)
    ensures ParseRequest("q=SELECT mean(value) FROM " + afterFrom) == ParseMeanSelection(afterFrom)
  {
    StripPrefixJoin("q=SELECT mean(value) FROM ", afterFrom);
  }

  /** The mean request states the measurement, the window in minutes and the tag pair
      it was built from, provided the measurement has no space and the tag key no `=`. */
  lemma MeanRequestRoundTrip(measurement: string, minutes: nat, tag: string, tagValue: string)
    requires ' ' !in measurement && '=' !in tag
    ensures ParseRequest(MeanRequest(measurement, minutes, tag, tagValue))
         == Some(Mean(measurement, minutes, tag, tagValue))
  {
    MeanPrefixParsed(MeanSelection(measurement, minutes, tag, tagValue));
    MeanSelectionRoundTrip(measurement, minutes, tag, tagValue);
  }

  lemma LastSelectionRoundTrip(measurement: string, tag: string, tagValue: string)
    requires ' ' !in measurement && '=' !in tag
    ensures ParseLastSelection(LastSelection(measurement, tag, tagValue)) == Some(Last(measurement, tag, tagValue))
  {
    var filter := TagFilter(tag, tagValue);
    var afterMeasurement := "WHERE " + filter;
    assert LastSelection(measurement, tag, tagValue) == measurement + [' '] + afterMeasurement;
    SplitAtJoin(measurement, ' ', afterMeasurement);
    StripPrefixJoin("WHERE ", filter);
    TagFilterRoundTrip(tag, tagValue);
  }

  /** A body starting with the last-value prefix is read by the last-value reader. */
  lemma LastPrefixParsed(afterFrom: string)
    ensures ParseRequest("q=SELECT last(value) FROM " + afterFrom) == ParseLastSelection(afterFrom)
  {
    assert ("q=SELECT last(value) FROM " + afterFrom)[9] == 'l';
    StripPrefixJoin("q=SELECT last(value) FROM ", afterFrom);
  }

  /** The last-value request states the measurement and the tag pair it was built from,
      and is never read as a mean request. */
  lemma LastRequestRoundTrip(measurement: string, tag: string, tagValue: string)
    requires ' ' !in measurement && '=' !in tag
    ensures ParseRequest(LastRequest(measurement, tag, tagValue)) == Some(Last(measurement, tag, tagValue))
  {
    LastPrefixParsed(LastSelection(measurement, tag, tagValue));
    LastSelectionRoundTrip(measurement, tag, tagValue);
  }
}
