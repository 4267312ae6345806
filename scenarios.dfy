/** Worked cases of the loader and the parser.  Padding, filler fields and
    the surrounding lines are left as parameters, so each case holds for
    every choice of them. */
module Scenarios {
  import opened Outcomes
  import opened Text
  import opened Counting
  import opened Lookup
  import opened Parser

  /** The columns the loader needs, in the usual order. */
  const PlainHeader: seq<string> := ["dstport", "protocol", "tag"]

  /** Names padded with whitespace normalise back to the names. */
  lemma PaddedNames(pad: string, names: seq<string>, header: seq<string>)
    requires AllSpace(pad)
    requires forall i :: 0 <= i < |names| ==> names[i] != [] && Trimmed(names[i])
    requires |header| == |names| && forall i :: 0 <= i < |header| ==> header[i] == pad + names[i] + pad
    ensures NormalizeHeader(header) == names
  {
    forall i | 0 <= i < |header| ensures Strip(header[i]) == names[i] {
      StripPadded(pad, names[i], pad);
    }
    NormalizeHeaderOf(header, names);
  }

  /** Header names padded with whitespace still satisfy the required
      columns. */
  lemma PaddedHeaderAccepted(pad: string, header: seq<string>)
    requires AllSpace(pad)
    requires header == [pad + "dstport" + pad, pad + "protocol" + pad, pad + "tag" + pad]
    ensures MissingFrom(NormalizeHeader(header)) == {}
  {
    assert Trimmed("dstport") && Trimmed("protocol") && Trimmed("tag");
    PaddedNames(pad, PlainHeader, header);
  }

  /** A header without a tag column is rejected, naming exactly tag,
      whatever the rows. */
  lemma TagColumnMissing(rows: seq<Row>, failure: Option<Failure>)
    ensures Load(Csv(["dstport", "protocol"], rows, failure)) == Err(MissingColumns({"tag"}))
  {
    assert NormalizeHeader(["dstport", "protocol"]) == ["dstport", "protocol"];
    assert MissingFrom(["dstport", "protocol"]) == {"tag"};
  }

  /** A row that stops before its tag cell fails the whole load. */
  lemma ShortRowFails(rows: seq<Row>, failure: Option<Failure>)
    ensures Load(Csv(PlainHeader, [[Some("80"), Some("tcp")]] + rows, failure))
            == Err(Unexpected(NoneStripCause))
  {
    assert NormalizeHeader(PlainHeader) == PlainHeader;
    assert Cell(PlainHeader, [Some("80"), Some("tcp")], "tag").None?;
    MissingCellAborts(PlainHeader, [[Some("80"), Some("tcp")]] + rows, failure, 0);
  }

  const SampleLookup: Table := map[("80", "tcp") := "http", ("443", "tcp") := "https"]

  /** A row (p, q, g) of already normalised cells under the plain header
      yields the entry (p, q) -> g. */
  lemma PlainRowEntry(p: string, q: string, g: string)
    requires Trimmed(p) && Trimmed(q) && NoUpper(q) && Trimmed(g)
    ensures Entry(PlainHeader, [Some(p), Some(q), Some(g)]) == Some(Rule((p, q), g))
  {
    var row := [Some(p), Some(q), Some(g)];
    CellAtLast(PlainHeader, row, "dstport", 0);
    CellAtLast(PlainHeader, row, "protocol", 1);
    CellAtLast(PlainHeader, row, "tag", 2);
    EntryOfCells(PlainHeader, row, p, q, g);
  }

  const SampleRows: seq<Row> := [[Some("80"), Some("tcp"), Some("http")], [Some("443"), Some("tcp"), Some("https")]]

  /** Two rows that each yield an entry yield both, in order. */
  lemma TwoEntries(names: seq<string>, row0: Row, row1: Row, e0: Rule, e1: Rule)
    requires Entry(names, row0) == Some(e0) && Entry(names, row1) == Some(e1)
    ensures Entries(names, [row0, row1]) == Some([e0, e1])
  {
    MapAllTwo(row0, row1, row => Entry(names, row), e0, e1);
  }

  /** The two sample rows yield their entries in order. */
  lemma SampleEntries()
    ensures Entries(PlainHeader, SampleRows) == Some([Rule(("80", "tcp"), "http"), Rule(("443", "tcp"), "https")])
  {
    assert Trimmed("80") && Trimmed("tcp") && Trimmed("http") && NoUpper("tcp");
    assert Trimmed("443") && Trimmed("https");
    PlainRowEntry("80", "tcp", "http");
    PlainRowEntry("443", "tcp", "https");
    TwoEntries(PlainHeader, SampleRows[0], SampleRows[1], Rule(("80", "tcp"), "http"), Rule(("443", "tcp"), "https"));
  }

  /** Inserting the two sample entries gives SampleLookup. */
  lemma SampleTable()
    ensures TableOf([Rule(("80", "tcp"), "http"), Rule(("443", "tcp"), "https")]) == SampleLookup
  {
    var http, https := Rule(("80", "tcp"), "http"), Rule(("443", "tcp"), "https");
    TableOfStep([], http);
    TableOfStep([http], https);
    assert [http] + [https] == [http, https];
  }

  /** A lookup file with the rows (80, tcp, http) and (443, tcp, https)
      loads to SampleLookup. */
  lemma SampleLoaded()
    ensures Load(Csv(PlainHeader, SampleRows, None)) == Ok(SampleLookup)
  {
    assert NormalizeHeader(PlainHeader) == PlainHeader by {
      NormalizeHeaderOf(PlainHeader, PlainHeader);
    }
    assert MissingFrom(PlainHeader) == {};
    SampleEntries();
    SampleTable();
  }

  /** A record line with port 80 and protocol number 6, its fields
      separated by any runs of whitespace and ending as read from the file
      (a line feed, or nothing on a last line without one), is tagged
      http and counted under (80, tcp). */
  lemma HttpRecord(lines: seq<string>, fields: seq<string>, seps: seq<string>, eol: string)
    requires Words(fields) && |fields| == 14 && fields[5] == "80" && fields[7] == "6" && Separators(fields, seps) && AllSpace(eol)
    ensures var before, after := Tallies(lines, SampleLookup), Tallies(lines + [JoinWith(fields, seps) + eol], SampleLookup);
            && IncrementedAt(after.tags, before.tags, "http")
            && IncrementedAt(after.ports, before.ports, ("80", "tcp"))
  {
    var line := JoinWith(fields, seps) + eol;
    SplitJoinTrailing(fields, seps, eol);
    assert Split(line)[PortField] == "80" && ProtocolName(Split(line)[ProtocolField]) == "tcp";
    AcceptedLine(lines, line, SampleLookup);
  }

  /** A record line with port 53 and protocol number 17, with its line
      ending, is not in the table: it is counted as Untagged and under
      (53, udp). */
  lemma UntaggedRecord(lines: seq<string>, fields: seq<string>, seps: seq<string>, eol: string)
    requires Words(fields) && |fields| == 14 && fields[5] == "53" && fields[7] == "17" && Separators(fields, seps) && AllSpace(eol)
    ensures var before, after := Tallies(lines, SampleLookup), Tallies(lines + [JoinWith(fields, seps) + eol], SampleLookup);
            && IncrementedAt(after.tags, before.tags, Untagged)
            && IncrementedAt(after.ports, before.ports, ("53", "udp"))
  {
    var line := JoinWith(fields, seps) + eol;
    SplitJoinTrailing(fields, seps, eol);
    assert Split(line)[PortField] == "53" && ProtocolName(Split(line)[ProtocolField]) == "udp";
    AcceptedLine(lines, line, SampleLookup);
  }

  /** A line of ten fields, with its line ending, between other lines does
      not change the counts. */
  lemma TenFieldsSkipped(before: seq<string>, fields: seq<string>, seps: seq<string>, eol: string, after: seq<string>, lookup: Table)
    requires Words(fields) && |fields| == 10 && Separators(fields, seps) && AllSpace(eol)
    ensures Tallies(before + [JoinWith(fields, seps) + eol] + after, lookup) == Tallies(before + after, lookup)
  {
    SplitJoinTrailing(fields, seps, eol);
    ShortLineIgnored(before, JoinWith(fields, seps) + eol, after, lookup);
  }

  /** A missing log file is reported as not found. */
  lemma MissingLog(lookup: Table)
    ensures Parse(LogFile.Missing, lookup) == Err(NotFound)
  {
  }
}
