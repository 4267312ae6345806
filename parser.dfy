/** The flow-log parser (parser.py): classifies each log line by its
    (dstport, protocol) key, looks the key up in the lookup table and counts
    the lines per tag and per key.

    The log file is given as the lines it delivers, plus an optional read
    failure that ends the file after them. */
module Parser {
  import opened Outcomes
  import opened Text
  import opened Counting
  import opened Lookup

  /** Lines with fewer whitespace-separated fields are skipped. */
  const MinFields: nat := 14
  /** Index of the destination-port field. */
  const PortField: nat := 5
  /** Index of the protocol-number field. */
  const ProtocolField: nat := 7
  /** The tag of a key the lookup table does not have. */
  const Untagged: string := "Untagged"
  /** The protocol name of a number outside the protocol table. */
  const UnknownProtocol: string := "unknown"

  datatype LogFile =
    /** Opening fails with FileNotFoundError. */
    | Missing
    /** The lines read, and the failure that ends reading, if any (a
        failure while opening comes with no lines). */
    | Lines(lines: seq<string>, failure: Option<Failure>)

  /** The two dictionaries the parser returns: lines per tag and lines per
      (dstport, protocol) key. */
  datatype Counts = Counts(tags: map<string, nat>, ports: map<Key, nat>)

  /** The protocol table: 6 is tcp, 17 is udp, 1 is icmp, and every other
      number is unknown. */
  function ProtocolName(number: string): (name: string)
    ensures number == "6" ==> name == "tcp"
    ensures number == "17" ==> name == "udp"
    ensures number == "1" ==> name == "icmp"
    ensures number != "6" && number != "17" && number != "1" ==> name == UnknownProtocol
  {
    if number == "6" then "tcp"
    else if number == "17" then "udp"
    else if number == "1" then "icmp"
    else UnknownProtocol
  }

  /** Every protocol name is already in the form the lookup loader gives
      its protocol cells (trimmed and lower case), so a lookup row can
      match it. */
  lemma ProtocolNameNormal(number: string)
    ensures Trimmed(ProtocolName(number)) && NoUpper(ProtocolName(number))
    ensures Lower(Strip(ProtocolName(number))) == ProtocolName(number)
  {
  }

  /** The key of a log line: field 5 and the protocol name of field 7 of its
      whitespace split, or None when the line has fewer than 14 fields.  The
      fields hold no whitespace, so stripping them changes nothing. */
  function FlowKey(line: string): (r: Option<Key>)
    ensures r.None? <==> |Split(line)| < MinFields
    ensures r.Some? ==> r.value == (Split(line)[PortField], ProtocolName(Split(line)[ProtocolField]))
  {
    var columns := Split(line);
    if |columns| < MinFields then None
    else
      var dstport := Strip(columns[PortField]);
      var protocolNumber := Strip(columns[ProtocolField]);
      Some((dstport, ProtocolName(protocolNumber)))
  }

  /** lookup_dict.get(key, 'Untagged') */
  function TagFor(key: Key, lookup: Table): (tag: string)
    ensures key in lookup ==> tag == lookup[key]
    ensures key !in lookup ==> tag == Untagged
  {
    if key in lookup then lookup[key] else Untagged
  }

  /** The tag of a log line, or None when it is skipped. */
  function LineTag(line: string, lookup: Table): Option<string>
  {
    match FlowKey(line)
    case Some(key) => Some(TagFor(key, lookup))
    case None => None
  }

  /** LineTag with the lookup table fixed. */
  function LineTagger(lookup: Table): string -> Option<string>
  {
    line => LineTag(line, lookup)
  }

  /** The keys of the accepted lines, in order. */
  function KeySeq(lines: seq<string>): seq<Key>
  {
    FilterMap(lines, FlowKey)
  }

  /** The tags of the accepted lines, in order. */
  function TagSeq(lines: seq<string>, lookup: Table): seq<string>
  {
    FilterMap(lines, LineTagger(lookup))
  }

  /** What the two dictionaries hold after the given lines. */
  function Tallies(lines: seq<string>, lookup: Table): Counts
  {
    Counts(Tally(TagSeq(lines, lookup)), Tally(KeySeq(lines)))
  }

  /** What parsing the log file yields. */
  function Parse(log: LogFile, lookup: Table): Result<Counts>
  {
    match log
    case Missing => Err(NotFound)
    case Lines(lines, failure) =>
      if failure.Some? then Err(Unexpected(failure.value.message)) else Ok(Tallies(lines, lookup))
  }

  /** The loop of parse_flow_logs: one pass over the lines, skipping short
      ones and incrementing one tag entry and one key entry per accepted
      line. */
  method CountLines(lines: seq<string>, lookup: Table)
    returns (tagCounts: map<string, nat>, portProtocolCounts: map<Key, nat>)
    ensures Counts(tagCounts, portProtocolCounts) == Tallies(lines, lookup)
  {
    tagCounts, portProtocolCounts := map[], map[];
    for i := 0 to |lines|
      invariant tagCounts == Tally(TagSeq(lines[..i], lookup))
      invariant portProtocolCounts == Tally(KeySeq(lines[..i]))
    {
      var columns := Split(lines[i]);
      if |columns| < MinFields {
        SkipStep(lines, lookup, i);
        continue;
      }
      var dstport := Strip(columns[PortField]);
      var protocolNumber := Strip(columns[ProtocolField]);
      var protocol := ProtocolName(protocolNumber);
      var key := (dstport, protocol);
      var tag := if key in lookup then lookup[key] else Untagged;
      assert dstport == columns[PortField] && protocolNumber == columns[ProtocolField];
      AcceptStep(lines, lookup, i);
      TallyStep(TagSeq(lines[..i], lookup), tag);
      TallyStep(KeySeq(lines[..i]), key);
      tagCounts := Inc(tagCounts, tag);
      portProtocolCounts := Inc(portProtocolCounts, key);
    }
    assert lines[..|lines|] == lines;
  }

  /** parse_flow_logs: a missing file is reported as not found; any failure
      while reading discards the counts and is reported as unexpected. */
  method ParseFlowLogs(log: LogFile, lookup: Table) returns (r: Result<Counts>)
    ensures r == Parse(log, lookup)
  {
    match log {
      case Missing =>
        return Err(NotFound);
      case Lines(lines, failure) =>
        var tagCounts, portProtocolCounts := CountLines(lines, lookup);
        if failure.Some? {
          return Err(Unexpected(failure.value.message));
        }
        return Ok(Counts(tagCounts, portProtocolCounts));
    }
  }

  // ------------------------------------------------------------ lemmas

  /** A line with fewer than 14 fields adds nothing to either sequence. */
  lemma SkipStep(lines: seq<string>, lookup: Table, i: nat)
    requires i < |lines| && |Split(lines[i])| < MinFields
    ensures TagSeq(lines[..i + 1], lookup) == TagSeq(lines[..i], lookup)
    ensures KeySeq(lines[..i + 1]) == KeySeq(lines[..i])
  {
    FilterMapStep(lines, LineTagger(lookup), i);
    FilterMapStep(lines, FlowKey, i);
  }

  /** An accepted line adds its key and its tag. */
  lemma AcceptStep(lines: seq<string>, lookup: Table, i: nat)
    requires i < |lines| && |Split(lines[i])| >= MinFields
    ensures var columns := Split(lines[i]);
            var key := (columns[PortField], ProtocolName(columns[ProtocolField]));
            && TagSeq(lines[..i + 1], lookup) == TagSeq(lines[..i], lookup) + [TagFor(key, lookup)]
            && KeySeq(lines[..i + 1]) == KeySeq(lines[..i]) + [key]
  {
    FilterMapStep(lines, LineTagger(lookup), i);
    FilterMapStep(lines, FlowKey, i);
  }

  /** A line made of the given fields, separated by runs of whitespace
      (spaces or tabs, one or more) and surrounded by any whitespace (such
      as the line feed a line read from a file ends with), has the key made
      of field 5 and the protocol name of field 7 when there are at least
      14 fields, and is skipped otherwise. */
  lemma FlowKeyOfFields(pre: string, fields: seq<string>, seps: seq<string>, post: string)
    requires AllSpace(pre) && Words(fields) && Separators(fields, seps) && AllSpace(post)
    ensures |fields| >= MinFields ==>
              FlowKey(pre + JoinWith(fields, seps) + post) == Some((fields[PortField], ProtocolName(fields[ProtocolField])))
    ensures |fields| < MinFields ==> FlowKey(pre + JoinWith(fields, seps) + post).None?
  {
    SplitJoin(pre, fields, seps, post);
  }

  /** The skip law: inserting a line with fewer than 14 fields anywhere
      leaves both dictionaries as they were. */
  lemma ShortLineIgnored(before: seq<string>, line: string, after: seq<string>, lookup: Table)
    requires |Split(line)| < MinFields
    ensures Tallies(before + [line] + after, lookup) == Tallies(before + after, lookup)
  {
    var tagOf := LineTagger(lookup);
    FilterMapAppend(before, [line], tagOf);
    FilterMapAppend(before + [line], after, tagOf);
    FilterMapAppend(before, after, tagOf);
    FilterMapAppend(before, [line], FlowKey);
    FilterMapAppend(before + [line], after, FlowKey);
    FilterMapAppend(before, after, FlowKey);
    FilterMapSingle(line, tagOf);
    FilterMapSingle(line, FlowKey);
  }

  /** One increment per accepted line: a line with at least 14 fields
      raises the entry of its tag (the looked-up tag, or Untagged) by one
      and the entry of its key by one, whether or not the key was found,
      and leaves every other entry as it was. */
  lemma AcceptedLine(lines: seq<string>, line: string, lookup: Table)
    requires |Split(line)| >= MinFields
    ensures var key := (Split(line)[PortField], ProtocolName(Split(line)[ProtocolField]));
            var before, after := Tallies(lines, lookup), Tallies(lines + [line], lookup);
            && IncrementedAt(after.tags, before.tags, if key in lookup then lookup[key] else Untagged)
            && IncrementedAt(after.ports, before.ports, key)
  {
    var key := (Split(line)[PortField], ProtocolName(Split(line)[ProtocolField]));
    var tag := TagFor(key, lookup);
    assert LineTagger(lookup)(line) == Some(tag);
    FilterMapSnoc(lines, line, LineTagger(lookup));
    FilterMapSnoc(lines, line, FlowKey);
    TallyStep(TagSeq(lines, lookup), tag);
    TallyStep(KeySeq(lines), key);
  }

  /** The number of lines with at least 14 fields. */
  function AcceptedCount(lines: seq<string>): nat
  {
    if lines == [] then 0
    else AcceptedCount(lines[..|lines| - 1]) + (if |Split(lines[|lines| - 1])| >= MinFields then 1 else 0)
  }

  /** The lines that yield a tag, and the lines that yield a key, are
      exactly the lines with at least 14 fields, and so there are
      AcceptedCount of each. */
  lemma {:induction false} KeptAccepted(lines: seq<string>, lookup: Table)
    ensures forall i :: 0 <= i < |lines| ==>
              (LineTagger(lookup)(lines[i]).Some? <==> |Split(lines[i])| >= MinFields)
              && (FlowKey(lines[i]).Some? <==> |Split(lines[i])| >= MinFields)
    ensures Kept(lines, LineTagger(lookup)) == AcceptedCount(lines)
    ensures Kept(lines, FlowKey) == AcceptedCount(lines)
  {
    if lines != [] {
      KeptAccepted(lines[..|lines| - 1], lookup);
    }
  }

  /** Equal totals: the values of both dictionaries add up to the number of
      accepted lines. */
  lemma TalliesTotal(lines: seq<string>, lookup: Table)
    ensures SumValues(Tallies(lines, lookup).tags) == AcceptedCount(lines)
    ensures SumValues(Tallies(lines, lookup).ports) == AcceptedCount(lines)
  {
    SumValuesTally(TagSeq(lines, lookup));
    SumValuesTally(KeySeq(lines));
    FilterMapCounts(lines, LineTagger(lookup));
    FilterMapCounts(lines, FlowKey);
    KeptAccepted(lines, lookup);
  }

  /** Each entry counts exactly the accepted lines with that key or that
      tag, so an entry is present exactly when such a line exists. */
  lemma TalliesCount(lines: seq<string>, lookup: Table, k: Key, t: string)
    ensures Get(Tallies(lines, lookup).ports, k) == Occurrences(lines, FlowKey, k)
    ensures k in Tallies(lines, lookup).ports <==> Occurrences(lines, FlowKey, k) > 0
    ensures Get(Tallies(lines, lookup).tags, t) == Occurrences(lines, LineTagger(lookup), t)
    ensures t in Tallies(lines, lookup).tags <==> Occurrences(lines, LineTagger(lookup), t) > 0
  {
    TallyFilterMap(lines, LineTagger(lookup));
    TallyFilterMap(lines, FlowKey);
  }

  /** Every present entry of either dictionary is at least one. */
  lemma TalliesPositive(lines: seq<string>, lookup: Table)
    ensures forall t :: t in Tallies(lines, lookup).tags ==> Tallies(lines, lookup).tags[t] >= 1
    ensures forall k :: k in Tallies(lines, lookup).ports ==> Tallies(lines, lookup).ports[k] >= 1
  {
    TallyPositive(TagSeq(lines, lookup));
    TallyPositive(KeySeq(lines));
  }

  /** The dictionaries do not depend on the order of the lines. */
  lemma TalliesPermutation(lines: seq<string>, lines': seq<string>, lookup: Table)
    requires multiset(lines) == multiset(lines')
    ensures Tallies(lines, lookup) == Tallies(lines', lookup)
  {
    FilterMapPermutation(lines, lines', LineTagger(lookup));
    FilterMapPermutation(lines, lines', FlowKey);
    TallyPermutation(TagSeq(lines, lookup), TagSeq(lines', lookup));
    TallyPermutation(KeySeq(lines), KeySeq(lines'));
  }
}
