# Flow-log tagging: a Dafny model

This project models the core of a small flow-log tagger.

- `load_lookup_table` (lookup.py) reads a CSV lookup table with a header row. It builds a dictionary from `(dstport, protocol)` to a tag.
- `parse_flow_logs` (parser.py) reads a flow log line by line. It counts the lines per tag, using `"Untagged"` for keys the table lacks, and per `(dstport, protocol)` key.

Files and modules:

- `outcomes.dfy` (`Outcomes`): `Option`, the read failures, the error kinds (not found, missing columns, invalid value, unexpected) and `Result`. It also holds `MapAll`, which applies a partial function to every element.
- `text.dfy` (`Text`): Python's argument-less `str.split`, `str.strip` and `str.lower` on ASCII, with the lemmas the rest needs.
- `counting.dfy` (`Counting`): the count-dictionary increment `d[x] = d.get(x, 0) + 1`, the dictionary a run of increments builds (`Tally`), the sum of its values, and the filter-and-project step (`FilterMap`) that picks what to count out of the lines.
- `lookup.dfy` (`Lookup`): `LoadLookupTable`, a method whose loop inserts the rows one at a time into the dictionary. It is proved equal to the specification function `Load`. The file also holds the lemmas about what a load yields and when it fails.
- `parser.dfy` (`Parser`): `ParseFlowLogs` and its loop `CountLines`, which update the two dictionaries in place line by line. They are proved equal to the specification function `Parse`, which returns the `Tally` of the accepted lines' tags and keys. The file also holds the laws of the parser: the skip law, one increment per accepted line, equal totals, exact counts and order independence.
- `scenarios.dfy` (`Scenarios`): worked cases with the padding, the filler fields and the surrounding lines left as parameters.

Inputs:

- A file is given to the model as what the reader delivers. A file that does not exist is `Missing`. Otherwise the lookup file is its header cells plus its rows, and the log file is its lines. Either may carry an optional read failure, which stops reading after the delivered part.
- A lookup row is one optional cell per header position. The cell is `None` where the row is too short, because `csv.DictReader` fills missing cells with `None`. When a column name occurs twice, `row[name]` is the cell under the last occurrence, as `dict(zip(...))` gives.

Errors:

- A decoding failure is a `ValueError` in Python (`UnicodeDecodeError`), so lookup.py:34-35 catches it and reports it as "Error reading lookup file". The model therefore reports it as `InvalidValue`, not `Unexpected`.
- In parser.py every failure other than a missing file is reported as `Unexpected` (parser.py:44-45).

## Model

| member | source | states |
|---|---|---|
| Text.Split | parser.py:20 | every field of `line.split()` is non-empty and holds no whitespace |
| Text.SplitJoin | parser.py:19-20 | splitting words joined by any non-empty runs of whitespace (spaces, tabs), with any whitespace before and after them (such as the line feed of a line read from the file), gives the words back |
| Text.Strip | lookup.py:19 | the result has no whitespace at either end, and a string that has none is unchanged |
| Text.StripFactor | lookup.py:28-30 | `strip()` only cuts whitespace: its result is a factor of the input with whitespace on both sides |
| Text.StripPadded | lookup.py:19 | a non-empty trimmed string padded with whitespace on either side strips back to itself |
| Text.StripNoSpace | parser.py:24-25 | `.strip()` on a whitespace-free split field is the identity |
| Text.Lower | lookup.py:29 | `lower()` keeps the length, leaves no upper-case letter, keeps a trimmed string trimmed, and changes nothing in a string without upper case |
| Text.LowerChars | lookup.py:29 | every upper-case letter moves 32 code points, every other character is kept, and whitespace stays whitespace |
| Counting.Inc | parser.py:37-40 | `d[x] = d.get(x, 0) + 1` adds x to the keys, raises its entry by one (from 0 if absent) and keeps every other entry |
| Counting.TallyCounts | parser.py:37-40 | the dictionary built by the increments has an entry exactly for each counted value, equal to its number of occurrences |
| Counting.TallyPositive | parser.py:37-40 | every present entry is at least one |
| Counting.TallyPermutation | parser.py:19-40 | counting a permutation of the values gives the same dictionary |
| Counting.SumValuesTally | parser.py:14-40 | the entries add up to the number of counted values |
| Counting.FilterMapCounts | parser.py:19-22 | the selected values number as many as the elements that yield one, and each value occurs as often as the elements yielding it |
| Counting.FilterMapPermutation | parser.py:19-22 | permuting the input permutes the selected values |
| Counting.TallyFilterMap | parser.py:19-40 | each entry of the tally of the selected values counts the elements yielding that value |
| Outcomes.MapAllSpec | lookup.py:27-30 | processing every row succeeds exactly when every row succeeds, and then yields one result per row in order |
| Lookup.FailureError | lookup.py:34-37 | a decoding failure (a ValueError) is reported as invalid value, any other read failure as unexpected, each with its message |
| Lookup.NormalizeHeader | lookup.py:19 | one name per header cell, each without surrounding whitespace, and names that had none are unchanged |
| Lookup.MissingFrom | lookup.py:22-24 | the missing columns are exactly the required names not among the header names |
| Lookup.MissingFromHeader | lookup.py:19-24 | a required name is missing exactly when no header cell equals it after trimming |
| Lookup.MissingColumnsExact | lookup.py:22-25 | a header lacking required names fails with exactly those names, and a complete header never fails that way |
| Lookup.LastIndex | lookup.py:28-30 | `row[name]` looks at the last column called `name`: absent exactly when no column has the name |
| Lookup.Cell | lookup.py:28-30 | `row[name]` is absent for a column the header lacks, and a present cell lies under the last column with that name (CellAtLast gives the converse) |
| Lookup.CellAtLast | lookup.py:28-30 | the cell under the last column called `name` is what `row[name]` gives, or `None` when the row stops before that column |
| Lookup.Entry | lookup.py:28-30 | a row yields an entry exactly when its three required cells are present, and the entry's port and tag are trimmed and its protocol trimmed and lower case (EntryOfCells gives the entry itself) |
| Lookup.EntryOfCells | lookup.py:28-31 | a row with port cell p, protocol cell q and tag cell g yields the key `(strip(p), lower(strip(q)))` and the tag `strip(g)`: the port is trimmed but not lower-cased |
| Lookup.EntriesAll | lookup.py:27-30 | all rows yield entries exactly when each does, and then one per row in order |
| Lookup.LoadLookupTable | lookup.py:3-39 | the loader returns what `Load` specifies: not found, the exact missing columns, unexpected for a missing cell, the read failure's error, or the table built by inserting every row in order |
| Lookup.TableOf | lookup.py:27-31 | the dictionary built by inserting the rows: every entry is the key and tag of one of the rows inserted |
| Lookup.TableOfStep | lookup.py:31 | inserting one more row sets its key to its tag |
| Lookup.TableOfKeys | lookup.py:31 | the table's keys are exactly the rows' keys |
| Lookup.TableOfSize | lookup.py:14-31 | the table has at most as many keys as there are rows |
| Lookup.TableOfLast | lookup.py:27-31 | a key holds the tag of the last row with that key |
| Lookup.TableOfNormalized | lookup.py:28-31 | normalised rows give a table whose keys and tags are all normalised |
| Lookup.LoadOk | lookup.py:14-39 | a successful load had no read failure and a complete header, and its table is built from the entries of all rows |
| Lookup.LoadedRows | lookup.py:27-30 | a successful load means every row had its three required cells |
| Lookup.LoadedKeys | lookup.py:14-31 | a loaded table's keys are exactly the rows' normalised keys, so it has at most as many keys as rows |
| Lookup.LoadedLastWins | lookup.py:27-31 | in a loaded table each key holds the tag of the last row with that key (last write wins) |
| Lookup.LoadedCells | lookup.py:27-31 | in a loaded table, the key `(strip(p), lower(strip(q)))` of the last row with port cell p and protocol cell q giving that key holds `strip(g)` of that row's tag cell g |
| Lookup.LoadedNormalized | lookup.py:28-30 | every key of a loaded table has a trimmed port and a trimmed, upper-case-free protocol, and every tag is trimmed |
| Lookup.MissingCellAborts | lookup.py:27-37 | with a complete header, one row missing a required cell fails the whole load as unexpected instead of being skipped |
| Lookup.EntriesAgree | lookup.py:28-30 | rows that agree cell by cell on the required columns give the same entries |
| Lookup.LoadDependsOnRequiredCells | lookup.py:22-30 | two files with the same missing columns whose rows agree on the required cells load to the same result |
| Lookup.ExtraColumnIgnored | lookup.py:22-30 | appending a non-required column, with any cells under it, does not change the load |
| Lookup.NormalizeHeaderOf | lookup.py:19 | the normalised header is the header stripped name by name |
| Parser.ProtocolName | parser.py:29 | 6 is tcp, 17 is udp, 1 is icmp, and every other protocol number is unknown |
| Parser.ProtocolNameNormal | parser.py:29 | every protocol name is trimmed and lower case, a fixed point of the loader's protocol normalisation, so a lookup key can match it |
| Parser.FlowKey | parser.py:20-31 | a line with fewer than 14 fields has no key; otherwise its key is field 5 and the protocol name of field 7, unchanged by `.strip()` |
| Parser.TagFor | parser.py:34 | the tag is the table's entry for the key when present and `Untagged` otherwise |
| Parser.FlowKeyOfFields | parser.py:19-25 | a line of 14 or more words separated by runs of whitespace, with any surrounding whitespace such as its line feed, has the key made of word 5 and the protocol name of word 7; a shorter one is skipped |
| Parser.CountLines | parser.py:19-40 | the line loop leaves in the two dictionaries the tallies of the accepted lines' tags and keys |
| Parser.ParseFlowLogs | parser.py:1-47 | the parser returns not found for a missing file, unexpected with the message for a read failure, and otherwise the two tallies |
| Parser.SkipStep | parser.py:21-22 | a short line adds nothing to the tags or keys counted so far |
| Parser.AcceptStep | parser.py:24-40 | an accepted line adds its tag and its key |
| Parser.ShortLineIgnored | parser.py:20-22 | inserting a line of fewer than 14 fields anywhere leaves both dictionaries unchanged |
| Parser.AcceptedLine | parser.py:24-40 | an accepted line raises the entry of its tag (looked up, or `Untagged`) by one and the entry of its key by one, found or not, and changes no other entry |
| Parser.KeptAccepted | parser.py:20-22 | line by line, a line yields a tag exactly when it has at least 14 fields, and likewise a key; so as many lines yield a tag, and as many a key, as there are lines with at least 14 fields |
| Parser.TalliesTotal | parser.py:14-40 | the entries of each dictionary add up to the number of lines with at least 14 fields |
| Parser.TalliesCount | parser.py:19-40 | each entry counts exactly the accepted lines with that key or that tag, and is present exactly when there is one |
| Parser.TalliesPositive | parser.py:14-40 | every present entry of either dictionary is at least one |
| Parser.TalliesPermutation | parser.py:19-40 | reordering the lines leaves both dictionaries unchanged |
| Scenarios.PaddedNames | lookup.py:19 | non-empty trimmed names padded with the same whitespace on both sides normalise back to the names |
| Scenarios.PaddedHeaderAccepted | lookup.py:19-23 | header names such as ` tag ` padded with whitespace satisfy the required columns |
| Scenarios.TagColumnMissing | lookup.py:22-25 | a header without `tag` fails naming exactly `tag`, whatever the rows |
| Scenarios.ShortRowFails | lookup.py:27-37 | a first row stopping before its tag cell fails the whole load as unexpected |
| Scenarios.PlainRowEntry | lookup.py:28-31 | under the header `dstport,protocol,tag`, a row of already normalised cells p, q, g yields the entry (p, q) -> g |
| Scenarios.SampleLoaded | lookup.py:3-39 | the file with header `dstport,protocol,tag` and rows `80,tcp,http` and `443,tcp,https` loads to the table {(80, tcp): http, (443, tcp): https} used by the record scenarios |
| Scenarios.HttpRecord | parser.py:24-40 | with `(80, tcp)` tagged http, a record line with port 80 and protocol 6, ending in any whitespace such as its line feed, raises http and `(80, tcp)` by one |
| Scenarios.UntaggedRecord | parser.py:29-40 | a record line with port 53 and protocol 17, ending in any whitespace such as its line feed and absent from the table, raises `Untagged` and `(53, udp)` by one |
| Scenarios.TenFieldsSkipped | parser.py:20-22 | a ten-field line, ending in any whitespace such as its line feed, between other lines changes neither dictionary |
| Scenarios.MissingLog | parser.py:42-43 | a missing log file is reported as not found |

## Left out

- main.py is not part of this model. It holds the argument check, `sys.exit` and the printing of errors: command-line plumbing.
- report.py is not part of this model. It writes the two dictionaries to a file. Dictionary insertion order, which only matters there, is not modelled: the dictionaries are Dafny maps.
- Opening and reading files is not modelled as I/O. A file is given as `Missing`, as its delivered contents plus an optional read failure, or for the lookup file as `Unreadable` when opening or reading the header fails.
- The CSV reader's parsing is not modelled: quoting, delimiters, the skipping of blank rows, and cells beyond the header (`restkey`). The model takes the reader's header and rows of optional cells. An empty lookup file, whose reader has no header names, is the `Empty` case.
- Unicode is not modelled. Whitespace and case are ASCII only: the whitespace set is `str.isspace` below code 128, and the letters are A to Z.
- Exception messages are not reproduced. Errors carry what the message is built from: the set of missing names, the cause's message, or the Python message for a missing cell or a missing header. The order in which `', '.join` lists the missing names is therefore not modelled either.
- Parser.CountLines: the two dictionary updates are written as `Counting.Inc`, the function that models `d[x] = d.get(x, 0) + 1` (its contract states the updated dictionary), rather than as map updates spelled out in the loop body.
- Parser.ParseFlowLogs: a read failure in the middle of the log is modelled as a failure after the delivered lines. The counts made before it are discarded in both the model and the source, so the result is the same.
- Lookup.LoadLookupTable: a read failure in the middle of the lookup file comes after the delivered rows. A missing cell in an earlier row is therefore reported first, as the source's order of processing gives.
