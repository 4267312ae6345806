/** The lookup-table loader (lookup.py): reads a CSV file with a header row
    into a dictionary from (dstport, protocol) to tag.

    The file is given as what the CSV reader delivers: the header cells and,
    for each data row, one optional cell per header column (None where the
    row has no value for that column), plus an optional read failure that
    ends the file after the delivered rows. */
module Lookup {
  import opened Outcomes
  import opened Text

  /** (dstport, protocol), both normalised. */
  type Key = (string, string)

  /** The lookup dictionary. */
  type Table = map<Key, string>

  /** The cells of one data row; cell i belongs to header column i. */
  type Row = seq<Option<string>>

  datatype LookupFile =
    /** Opening fails with FileNotFoundError. */
    | Missing
    /** Opening the file or reading its header raises this failure. */
    | Unreadable(cause: Failure)
    /** The file holds no line at all, so the reader has no header names and
        iterating over them fails. */
    | Empty
    /** The header, the rows read, and the failure that ends reading, if any. */
    | Csv(header: seq<string>, rows: seq<Row>, failure: Option<Failure>)

  /** One normalised row: the dictionary entry it produces. */
  datatype Rule = Rule(key: Key, tag: string)

  const Required: set<string> := {"dstport", "protocol", "tag"}

  /** The message Python gives when the absent header is iterated over. */
  const NoHeaderCause: string := "'NoneType' object is not iterable"

  /** The message Python gives when .strip() is applied to a missing cell. */
  const NoneStripCause: string := "'NoneType' object has no attribute 'strip'"

  /** How the handlers at the end of the loader classify a failure: a
      decoding failure is a ValueError and is reported like the missing
      columns; anything else is reported as unexpected. */
  function FailureError(f: Failure): (e: Error)
    ensures e.InvalidValue? <==> f.DecodeFailure?
    ensures e.Unexpected? <==> f.OtherFailure?
    ensures e == InvalidValue(f.message) || e == Unexpected(f.message)
  {
    match f
    case DecodeFailure(m) => InvalidValue(m)
    case OtherFailure(m) => Unexpected(m)
  }

  /** The header names with surrounding whitespace removed. */
  function NormalizeHeader(header: seq<string>): (names: seq<string>)
    ensures |names| == |header|
    ensures forall i :: 0 <= i < |names| ==> Trimmed(names[i])
    ensures forall i :: 0 <= i < |names| && Trimmed(header[i]) ==> names[i] == header[i]
  {
    seq(|header|, i requires 0 <= i < |header| => Strip(header[i]))
  }

  /** The normalised header is the header stripped name by name. */
  lemma NormalizeHeaderOf(header: seq<string>, names: seq<string>)
    requires |names| == |header| && forall i :: 0 <= i < |header| ==> Strip(header[i]) == names[i]
    ensures NormalizeHeader(header) == names
  {
  }

  /** The required names that are not among the header names. */
  function MissingFrom(names: seq<string>): (missing: set<string>)
    ensures forall n :: n in missing <==> n in Required && n !in names
  {
    set n | n in Required && n !in names
  }

  /** The position of the last header column called n, if any. */
  function LastIndex(names: seq<string>, n: string): (r: Option<nat>)
    ensures r.None? <==> n !in names
    ensures r.Some? ==> r.value < |names| && names[r.value] == n
    ensures r.Some? ==> forall j :: r.value < j < |names| ==> names[j] != n
  {
    if names == [] then None
    else if names[|names| - 1] == n then Some(|names| - 1)
    else LastIndex(names[..|names| - 1], n)
  }

  /** row[n] of the dictionary the CSV reader builds for a row: the cell
      under the last column called n (a later duplicate column overwrites an
      earlier one), and None when the header has no such column or the row
      has no cell there. */
  function Cell(names: seq<string>, row: Row, n: string): (c: Option<string>)
    ensures n !in names ==> c.None?
    ensures c.Some? ==> exists i :: 0 <= i < |names| && i < |row| && names[i] == n && row[i] == c &&
                                      forall j :: i < j < |names| ==> names[j] != n
  {
    match LastIndex(names, n)
    case None => None
    case Some(i) => if i < |row| then row[i] else None
  }

  /** The other direction of Cell's contract: the cell under the last
      column called n is what row[n] gives, or None when the row stops
      before that column. */
  lemma CellAtLast(names: seq<string>, row: Row, n: string, i: nat)
    requires i < |names| && names[i] == n
    requires forall j :: i < j < |names| ==> names[j] != n
    ensures Cell(names, row, n) == (if i < |row| then row[i] else None)
  {
    var r := LastIndex(names, n);
    assert names[i] == n;
    assert r == Some(i);
  }

  /** The normalised entry of one row: trimmed port, trimmed and
      lower-cased protocol, trimmed tag; None when one of the three cells is
      missing, since .strip() then fails. */
  function Entry(names: seq<string>, row: Row): (r: Option<Rule>)
    ensures r.Some? <==> (forall n :: n in Required ==> Cell(names, row, n).Some?)
    ensures r.Some? ==> Normalized(r.value)
  {
    match (Cell(names, row, "dstport"), Cell(names, row, "protocol"), Cell(names, row, "tag"))
    case (Some(port), Some(protocol), Some(tag)) =>
      Some(Rule((Strip(port), Lower(Strip(protocol))), Strip(tag)))
    case _ => None
  }

  /** A row whose three required cells are present yields the key made of
      its trimmed port and its trimmed, lower-cased protocol, and its
      trimmed tag: the port is trimmed but not lower-cased. */
  lemma EntryOfCells(names: seq<string>, row: Row, p: string, q: string, g: string)
    requires Cell(names, row, "dstport") == Some(p)
    requires Cell(names, row, "protocol") == Some(q)
    requires Cell(names, row, "tag") == Some(g)
    ensures Entry(names, row) == Some(Rule((Strip(p), Lower(Strip(q))), Strip(g)))
  {
  }

  /** The entries of all rows, or None if some row has a missing cell. */
  function Entries(names: seq<string>, rows: seq<Row>): Option<seq<Rule>>
  {
    MapAll(rows, row => Entry(names, row))
  }

  /** The dictionary obtained by inserting the rules in order, each one
      overwriting any earlier entry for its key. */
  function TableOf(rules: seq<Rule>): (t: Table)
    ensures forall k :: k in t ==> exists i :: 0 <= i < |rules| && rules[i] == Rule(k, t[k])
  {
    if rules == [] then map[]
    else
      var last := rules[|rules| - 1];
      TableOf(rules[..|rules| - 1])[last.key := last.tag]
  }

  /** What loading the lookup file yields. */
  function Load(file: LookupFile): Result<Table>
  {
    match file
    case Missing => Err(NotFound)
    case Unreadable(f) => Err(FailureError(f))
    case Empty => Err(Unexpected(NoHeaderCause))
    case Csv(header, rows, failure) =>
      var names := NormalizeHeader(header);
      var missing := MissingFrom(names);
      if missing != {} then Err(MissingColumns(missing))
      else
        match Entries(names, rows)
        case None => Err(Unexpected(NoneStripCause))
        case Some(rules) =>
          if failure.Some? then Err(FailureError(failure.value)) else Ok(TableOf(rules))
  }

  /** load_lookup_table: normalise the header, check the required columns,
      then insert the rows one at a time into the dictionary. */
  method LoadLookupTable(file: LookupFile) returns (r: Result<Table>)
    ensures r == Load(file)
  {
    match file {
      case Missing =>
        return Err(NotFound);
      case Unreadable(f) =>
        return Err(FailureError(f));
      case Empty =>
        return Err(Unexpected(NoHeaderCause));
      case Csv(header, rows, failure) =>
        var names := NormalizeHeader(header);
        var missing := MissingFrom(names);
        if missing != {} {
          return Err(MissingColumns(missing));
        }
        var table: Table := map[];
        var i := 0;
        while i < |rows|
          invariant 0 <= i <= |rows|
          invariant Entries(names, rows[..i]).Some?
          invariant table == TableOf(Entries(names, rows[..i]).value)
        {
          var entry := Entry(names, rows[i]);
          if entry.None? {
            EntriesAll(names, rows);
            return Err(Unexpected(NoneStripCause));
          }
          MapAllStep(rows, row => Entry(names, row), i);
          TableOfStep(Entries(names, rows[..i]).value, entry.value);
          table := table[entry.value.key := entry.value.tag];
          i := i + 1;
        }
        assert rows[..i] == rows;
        if failure.Some? {
          return Err(FailureError(failure.value));
        }
        return Ok(table);
    }
  }

  // ------------------------------------------------------------ lemmas

  /** The entries exist exactly when every row has its three cells, and then
      there is one per row, in row order. */
  lemma EntriesAll(names: seq<string>, rows: seq<Row>)
    ensures Entries(names, rows).Some? <==> forall i :: 0 <= i < |rows| ==> Entry(names, rows[i]).Some?
    ensures Entries(names, rows).Some? ==>
              |Entries(names, rows).value| == |rows|
              && forall i :: 0 <= i < |rows| ==> Entries(names, rows).value[i] == Entry(names, rows[i]).value
  {
    MapAllSpec(rows, row => Entry(names, row));
  }

  /** Inserting one more rule updates its key. */
  lemma TableOfStep(rules: seq<Rule>, rule: Rule)
    ensures TableOf(rules + [rule]) == TableOf(rules)[rule.key := rule.tag]
  {
    assert (rules + [rule])[..|rules|] == rules;
  }

  /** The keys of the table are exactly the keys of the rules. */
  lemma {:induction false} TableOfKeys(rules: seq<Rule>)
    ensures TableOf(rules).Keys == set i | 0 <= i < |rules| :: rules[i].key
  {
    if rules != [] {
      var init := rules[..|rules| - 1];
      TableOfKeys(init);
      var s := set i | 0 <= i < |rules| :: rules[i].key;
      var s' := set i | 0 <= i < |init| :: init[i].key;
      assert s == s' + {rules[|rules| - 1].key} by {
        forall k | k in s ensures k in s' + {rules[|rules| - 1].key} {
          var i :| 0 <= i < |rules| && rules[i].key == k;
          if i < |init| { assert init[i] == rules[i]; }
        }
        forall k | k in s' ensures k in s {
          var i :| 0 <= i < |init| && init[i].key == k;
          assert rules[i] == init[i];
        }
      }
    }
  }

  /** Insertion can only keep or grow the table by one key per rule. */
  lemma {:induction false} TableOfSize(rules: seq<Rule>)
    ensures |TableOf(rules)| <= |rules|
  {
    if rules != [] {
      var init := rules[..|rules| - 1];
      TableOfSize(init);
      var t := TableOf(init);
      var k := rules[|rules| - 1].key;
      assert TableOf(rules).Keys == t.Keys + {k};
      assert |t.Keys + {k}| <= |t.Keys| + 1;
    }
  }

  /** Last write wins: the value stored under a key is the tag of the last
      rule with that key. */
  lemma {:induction false} TableOfLast(rules: seq<Rule>, i: nat)
    requires i < |rules|
    requires forall j :: i < j < |rules| ==> rules[j].key != rules[i].key
    ensures rules[i].key in TableOf(rules) && TableOf(rules)[rules[i].key] == rules[i].tag
  {
    var init := rules[..|rules| - 1];
    if i < |rules| - 1 {
      assert init[i] == rules[i];
      TableOfLast(init, i);
    }
  }

  /** Every stored key and tag is normalised when every rule is. */
  lemma {:induction false} TableOfNormalized(rules: seq<Rule>)
    requires forall i :: 0 <= i < |rules| ==> Normalized(rules[i])
    ensures forall k :: k in TableOf(rules) ==> Normalized(Rule(k, TableOf(rules)[k]))
  {
    if rules != [] {
      TableOfNormalized(rules[..|rules| - 1]);
    }
  }

  /** Port and tag trimmed, protocol trimmed and free of upper case. */
  predicate Normalized(rule: Rule) {
    Trimmed(rule.key.0) && Trimmed(rule.key.1) && NoUpper(rule.key.1) && Trimmed(rule.tag)
  }

  /** The required names that no header cell equals once trimmed. */
  function AbsentColumns(header: seq<string>): set<string>
  {
    set n | n in Required && forall i :: 0 <= i < |header| ==> Strip(header[i]) != n
  }

  /** The required-column check compares trimmed header names. */
  lemma MissingFromHeader(header: seq<string>)
    ensures MissingFrom(NormalizeHeader(header)) == AbsentColumns(header)
  {
    var names := NormalizeHeader(header);
    forall n ensures n in MissingFrom(names) <==> n in AbsentColumns(header) {
      if n in Required && n !in names {
        forall i | 0 <= i < |header| ensures Strip(header[i]) != n {
          assert names[i] == Strip(header[i]);
        }
      }
      if n in AbsentColumns(header) {
        forall i | 0 <= i < |names| ensures names[i] != n {
          assert names[i] == Strip(header[i]);
        }
      }
    }
  }

  /** The load fails with exactly the required names that no trimmed header
      cell equals, and does not fail that way when there are none. */
  lemma MissingColumnsExact(header: seq<string>, rows: seq<Row>, failure: Option<Failure>)
    ensures AbsentColumns(header) != {} ==>
              Load(Csv(header, rows, failure)) == Err(MissingColumns(AbsentColumns(header)))
    ensures AbsentColumns(header) == {} ==>
              !(Load(Csv(header, rows, failure)).Err? && Load(Csv(header, rows, failure)).error.MissingColumns?)
  {
    MissingFromHeader(header);
  }

  /** What a successful load is made of. */
  lemma LoadOk(header: seq<string>, rows: seq<Row>, failure: Option<Failure>, t: Table)
    requires Load(Csv(header, rows, failure)) == Ok(t)
    ensures failure.None? && MissingFrom(NormalizeHeader(header)) == {}
    ensures Entries(NormalizeHeader(header), rows).Some?
    ensures t == TableOf(Entries(NormalizeHeader(header), rows).value)
  {
  }

  /** A successful load means that no read failed and every row had its
      three cells. */
  lemma LoadedRows(header: seq<string>, rows: seq<Row>, failure: Option<Failure>, t: Table)
    requires Load(Csv(header, rows, failure)) == Ok(t)
    ensures failure.None?
    ensures forall i :: 0 <= i < |rows| ==> Entry(NormalizeHeader(header), rows[i]).Some?
  {
    LoadOk(header, rows, failure, t);
    EntriesAll(NormalizeHeader(header), rows);
  }

  /** The keys of a loaded table are exactly the rows' normalised keys, so
      there are at most as many keys as rows. */
  lemma LoadedKeys(header: seq<string>, rows: seq<Row>, failure: Option<Failure>, t: Table)
    requires Load(Csv(header, rows, failure)) == Ok(t)
    ensures var names := NormalizeHeader(header);
            t.Keys == set i | 0 <= i < |rows| && Entry(names, rows[i]).Some? :: Entry(names, rows[i]).value.key
    ensures |t| <= |rows|
  {
    var names := NormalizeHeader(header);
    LoadOk(header, rows, failure, t);
    EntriesAll(names, rows);
    var rules := Entries(names, rows).value;
    TableOfKeys(rules);
    TableOfSize(rules);
    RuleKeys(rows, row => Entry(names, row), rules);
  }

  /** The keys of rules computed one per element are the keys of the
      elements' rules. */
  lemma RuleKeys<A>(xs: seq<A>, f: A -> Option<Rule>, rules: seq<Rule>)
    requires |rules| == |xs|
    requires forall i :: 0 <= i < |xs| ==> f(xs[i]) == Some(rules[i])
    ensures (set i | 0 <= i < |xs| && f(xs[i]).Some? :: f(xs[i]).value.key)
            == set i | 0 <= i < |rules| :: rules[i].key
  {
    var a := set i | 0 <= i < |xs| && f(xs[i]).Some? :: f(xs[i]).value.key;
    var b := set i | 0 <= i < |rules| :: rules[i].key;
    forall k | k in a ensures k in b {
      var i :| 0 <= i < |xs| && f(xs[i]).Some? && f(xs[i]).value.key == k;
      assert rules[i].key == k;
    }
    forall k | k in b ensures k in a {
      var i :| 0 <= i < |rules| && rules[i].key == k;
      assert f(xs[i]).value.key == k;
    }
  }

  /** In a loaded table each key holds the tag of the last row with that
      key. */
  lemma LoadedLastWins(header: seq<string>, rows: seq<Row>, failure: Option<Failure>, t: Table, i: nat)
    requires Load(Csv(header, rows, failure)) == Ok(t)
    requires i < |rows|
    requires Entry(NormalizeHeader(header), rows[i]).Some?
    requires forall j :: i < j < |rows| && Entry(NormalizeHeader(header), rows[j]).Some? ==>
               Entry(NormalizeHeader(header), rows[j]).value.key != Entry(NormalizeHeader(header), rows[i]).value.key
    ensures var rule := Entry(NormalizeHeader(header), rows[i]).value;
            rule.key in t && t[rule.key] == rule.tag
  {
    var names := NormalizeHeader(header);
    LoadOk(header, rows, failure, t);
    EntriesAll(names, rows);
    TableOfLast(Entries(names, rows).value, i);
  }

  /** Last write wins, stated on the cells of the rows: the last row whose
      normalised port and protocol give a key decides that key's tag, which
      is its own trimmed tag cell. */
  lemma LoadedCells(header: seq<string>, rows: seq<Row>, failure: Option<Failure>, t: Table,
                    i: nat, p: string, q: string, g: string)
    requires Load(Csv(header, rows, failure)) == Ok(t)
    requires i < |rows|
    requires Cell(NormalizeHeader(header), rows[i], "dstport") == Some(p)
    requires Cell(NormalizeHeader(header), rows[i], "protocol") == Some(q)
    requires Cell(NormalizeHeader(header), rows[i], "tag") == Some(g)
    requires forall j :: i < j < |rows| && Cell(NormalizeHeader(header), rows[j], "dstport").Some?
                                        && Cell(NormalizeHeader(header), rows[j], "protocol").Some? ==>
               (Strip(Cell(NormalizeHeader(header), rows[j], "dstport").value),
                Lower(Strip(Cell(NormalizeHeader(header), rows[j], "protocol").value))) != (Strip(p), Lower(Strip(q)))
    ensures (Strip(p), Lower(Strip(q))) in t && t[(Strip(p), Lower(Strip(q)))] == Strip(g)
  {
    var names := NormalizeHeader(header);
    EntryOfCells(names, rows[i], p, q, g);
    forall j | i < j < |rows| && Entry(names, rows[j]).Some?
      ensures Entry(names, rows[j]).value.key != (Strip(p), Lower(Strip(q)))
    {
      EntryOfCells(names, rows[j], Cell(names, rows[j], "dstport").value,
                   Cell(names, rows[j], "protocol").value, Cell(names, rows[j], "tag").value);
    }
    LoadedLastWins(header, rows, failure, t, i);
  }

  /** Every key and tag of a loaded table is normalised. */
  lemma LoadedNormalized(header: seq<string>, rows: seq<Row>, failure: Option<Failure>, t: Table)
    requires Load(Csv(header, rows, failure)) == Ok(t)
    ensures forall k :: k in t ==> Normalized(Rule(k, t[k]))
  {
    var names := NormalizeHeader(header);
    LoadOk(header, rows, failure, t);
    EntriesAll(names, rows);
    TableOfNormalized(Entries(names, rows).value);
  }

  /** No skip-and-continue: once the header is complete, a row missing one of
      its three cells fails the whole load as unexpected. */
  lemma MissingCellAborts(header: seq<string>, rows: seq<Row>, failure: Option<Failure>, i: nat)
    requires MissingFrom(NormalizeHeader(header)) == {}
    requires i < |rows|
    requires var names := NormalizeHeader(header);
             || Cell(names, rows[i], "dstport").None?
             || Cell(names, rows[i], "protocol").None?
             || Cell(names, rows[i], "tag").None?
    ensures Load(Csv(header, rows, failure)) == Err(Unexpected(NoneStripCause))
  {
    EntriesAll(NormalizeHeader(header), rows);
  }

  /** Two files agree on the load when their headers miss the same required
      names and their rows agree cell by cell on the required columns:
      every other column is ignored. */
  lemma {:induction false} EntriesAgree(names1: seq<string>, rows1: seq<Row>, names2: seq<string>, rows2: seq<Row>)
    requires |rows1| == |rows2|
    requires forall i, n :: 0 <= i < |rows1| && n in Required ==> Cell(names1, rows1[i], n) == Cell(names2, rows2[i], n)
    ensures Entries(names1, rows1) == Entries(names2, rows2)
  {
    if rows1 != [] {
      var k := |rows1| - 1;
      forall i, n | 0 <= i < k && n in Required
        ensures Cell(names1, rows1[..k][i], n) == Cell(names2, rows2[..k][i], n)
      {
        assert rows1[..k][i] == rows1[i] && rows2[..k][i] == rows2[i];
      }
      EntriesAgree(names1, rows1[..k], names2, rows2[..k]);
      assert forall n :: n in Required ==> Cell(names1, rows1[k], n) == Cell(names2, rows2[k], n);
      assert "dstport" in Required && "protocol" in Required && "tag" in Required;
      assert Entry(names1, rows1[k]) == Entry(names2, rows2[k]);
    }
  }

  lemma LoadDependsOnRequiredCells(header1: seq<string>, rows1: seq<Row>,
                                   header2: seq<string>, rows2: seq<Row>, failure: Option<Failure>)
    requires MissingFrom(NormalizeHeader(header1)) == MissingFrom(NormalizeHeader(header2))
    requires |rows1| == |rows2|
    requires MissingFrom(NormalizeHeader(header1)) == {} ==>
               forall i, n :: 0 <= i < |rows1| && n in Required
                 ==> Cell(NormalizeHeader(header1), rows1[i], n) == Cell(NormalizeHeader(header2), rows2[i], n)
    ensures Load(Csv(header1, rows1, failure)) == Load(Csv(header2, rows2, failure))
  {
    if MissingFrom(NormalizeHeader(header1)) == {} {
      EntriesAgree(NormalizeHeader(header1), rows1, NormalizeHeader(header2), rows2);
    }
  }

  /** Appending a header column whose trimmed name is not required, with any
      cells in that column, leaves the load unchanged. */
  lemma ExtraColumnIgnored(header: seq<string>, rows: seq<Row>, failure: Option<Failure>,
                           extra: string, rows': seq<Row>)
    requires Strip(extra) !in Required
    requires |rows'| == |rows|
    requires forall i, j :: 0 <= i < |rows| && 0 <= j < |header| ==>
               (j < |rows[i]| <==> j < |rows'[i]|) && (j < |rows[i]| ==> rows'[i][j] == rows[i][j])
    ensures Load(Csv(header + [extra], rows', failure)) == Load(Csv(header, rows, failure))
  {
    var names, names' := NormalizeHeader(header), NormalizeHeader(header + [extra]);
    assert names' == names + [Strip(extra)];
    assert forall n :: n in names' <==> n in names || n == Strip(extra);
    assert MissingFrom(names') == MissingFrom(names);
    if MissingFrom(names) == {} {
      forall i, n | 0 <= i < |rows| && n in Required
        ensures Cell(names', rows'[i], n) == Cell(names, rows[i], n)
      {
        assert names'[..|names'| - 1] == names;
        assert LastIndex(names', n) == LastIndex(names, n);
      }
    }
    LoadDependsOnRequiredCells(header + [extra], rows', header, rows, failure);
  }
}
