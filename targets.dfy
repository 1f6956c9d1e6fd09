/** Building the list of switch addresses from the command line: the rows of
    the `--file` CSV file and the comma-separated `--ip` argument
    (switch_config_retrieval_tool.py, `parse_ips_from_file` and the start of `main`). */
module Targets {
  import opened Wrappers
  import opened Text

  /** One CSV record: its fields, already unquoted by the CSV reader. */
  type Row = seq<string>

  /** `--file`: the path as typed, and the records the CSV reader yields for it. */
  datatype FileArg = FileArg(path: string, rows: seq<Row>)

  /** The two address options; `None` when the option was not given. */
  datatype Args = Args(ip: Option<string>, file: Option<FileArg>)

  /** The outcome of reading the options: the ordered address list, or the
      usage error raised when neither option holds anything. */
  datatype Resolution = UsageError | Resolved(hosts: seq<string>)

  /** Python truthiness of `args.ip`: given and not the empty string. */
  predicate IpGiven(args: Args) {
    args.ip.Some? && args.ip.value != ""
  }

  /** Python truthiness of `args.file`: given and not the empty path. */
  predicate FileGiven(args: Args) {
    args.file.Some? && args.file.value.path != ""
  }

  /** The generator `ip.strip() for ip in row if ip.strip()`. */
  function RowEntries(row: Row): (r: seq<string>)
    ensures |r| <= |row|
    ensures forall e | e in r :: e != "" && IsStripped(e)
  {
    if row == [] then []
    else
      var e := Strip(row[0]);
      (if e != "" then [e] else []) + RowEntries(row[1..])
  }

  /** What `parse_ips_from_file` returns for these rows: the row entries, row by row. */
  function FileEntries(rows: seq<Row>): (r: seq<string>)
    ensures forall e | e in r :: e != "" && IsStripped(e)
  {
    if rows == [] then []
    else FileEntries(rows[..|rows| - 1]) + RowEntries(rows[|rows| - 1])
  }

  /** The list comprehension `[ip.strip() for ip in ip_list]`. */
  function StripAll(hosts: seq<string>): (r: seq<string>)
    ensures |r| == |hosts|
  {
    if hosts == [] then [] else [Strip(hosts[0])] + StripAll(hosts[1..])
  }

  /** The address list `main` hands to the retrieval loop, or the usage error. */
  function TargetList(args: Args): Resolution {
    if !IpGiven(args) && !FileGiven(args) then UsageError
    else
      var fromFile := if FileGiven(args) then FileEntries(args.file.value.rows) else [];
      var inline := if IpGiven(args) then Split(args.ip.value, ',') else [];
      Resolved(StripAll(fromFile + inline))
  }

  /** `parse_ips_from_file`, row by row, extending the list in place. */
  method ParseIpsFromFile(rows: seq<Row>) returns (ipList: seq<string>)
    ensures ipList == FileEntries(rows)
  {
    ipList := [];
    var i := 0;
    while i < |rows|
      invariant 0 <= i <= |rows|
      invariant ipList == FileEntries(rows[..i])
    {
      assert rows[..i + 1][..i] == rows[..i];
      ipList := ipList + RowEntries(rows[i]);
      i := i + 1;
    }
    assert rows[..i] == rows;
  }

  /** The list-building part of `main`: the usage check, the file entries, the
      inline entries, and the final re-strip. */
  method ResolveTargets(args: Args) returns (r: Resolution)
    ensures r == TargetList(args)
  {
    if !IpGiven(args) && !FileGiven(args) {
      return UsageError;
    }
    ghost var fromFile := if FileGiven(args) then FileEntries(args.file.value.rows) else [];
    ghost var inline := if IpGiven(args) then Split(args.ip.value, ',') else [];
    var ipList: seq<string> := [];
    if FileGiven(args) {
      var entries := ParseIpsFromFile(args.file.value.rows);
      assert ipList + entries == entries;
      ipList := ipList + entries;
    }
    if IpGiven(args) {
      ipList := ipList + Split(args.ip.value, ',');
    } else {
      assert ipList == ipList + [];
    }
    assert ipList == fromFile + inline;
    ipList := StripAll(ipList);
    return Resolved(ipList);
  }

  lemma {:induction false} StripAllAppend(a: seq<string>, b: seq<string>)
    ensures StripAll(a + b) == StripAll(a) + StripAll(b)
  {
    if a == [] {
      assert a + b == b;
    } else {
      assert (a + b)[0] == a[0] && (a + b)[1..] == a[1..] + b;
      StripAllAppend(a[1..], b);
      AppendAssociates([Strip(a[0])], StripAll(a[1..]), StripAll(b));
    }
  }

  lemma {:induction false} StripAllKeepsStripped(hosts: seq<string>)
    requires forall e | e in hosts :: IsStripped(e)
    ensures StripAll(hosts) == hosts
  {
    if hosts != [] {
      StripFixesStripped(hosts[0]);
      StripAllKeepsStripped(hosts[1..]);
      assert [hosts[0]] + hosts[1..] == hosts;
    }
  }

  /** Every entry taken from the file is non-empty and already stripped, so the
      final re-strip in `main` leaves the file part as it is. */
  lemma FileEntriesSurviveRestrip(rows: seq<Row>)
    ensures forall e | e in FileEntries(rows) :: e != "" && Strip(e) == e
    ensures StripAll(FileEntries(rows)) == FileEntries(rows)
  {
    forall e | e in FileEntries(rows) ensures Strip(e) == e {
      StripFixesStripped(e);
    }
    StripAllKeepsStripped(FileEntries(rows));
  }

  /** A field is dropped from the file exactly when it is all spaces; every other
      field appears stripped, in order. */
  lemma {:induction false} RowEntriesExact(row: Row)
    ensures RowEntries(row) == StripAll(Kept(row))
  {
    if row != [] {
      RowEntriesExact(row[1..]);
      StripEmptyIffAllSpace(row[0]);
      if AllSpace(row[0]) {
        assert [] + Kept(row[1..]) == Kept(row[1..]);
        assert [] + RowEntries(row[1..]) == RowEntries(row[1..]);
      } else {
        StripAllAppend([row[0]], Kept(row[1..]));
        assert StripAll([row[0]]) == [Strip(row[0])] by {
          assert [row[0]][1..] == [];
          assert [Strip(row[0])] + [] == [Strip(row[0])];
        }
      }
    }
  }

  /** The fields of a row that are not all spaces, in order. */
  function Kept(row: Row): seq<string> {
    if row == [] then []
    else (if AllSpace(row[0]) then [] else [row[0]]) + Kept(row[1..])
  }

  /** The address list is the file entries followed by the stripped inline
      entries: file first, order kept within each part, nothing deduplicated. */
  lemma TargetsOrder(args: Args)
    requires IpGiven(args) || FileGiven(args)
    ensures TargetList(args).Resolved?
    ensures TargetList(args).hosts
         == (if FileGiven(args) then FileEntries(args.file.value.rows) else [])
          + (if IpGiven(args) then StripAll(Split(args.ip.value, ',')) else [])
  {
    var fromFile := if FileGiven(args) then FileEntries(args.file.value.rows) else [];
    var inline := if IpGiven(args) then Split(args.ip.value, ',') else [];
    StripAllAppend(fromFile, inline);
    if FileGiven(args) {
      FileEntriesSurviveRestrip(args.file.value.rows);
    }
  }

  /** `--ip` contributes one address per comma-separated piece: one more than
      its number of commas, empty pieces included. */
  lemma InlineCount(args: Args)
    requires IpGiven(args)
    ensures TargetList(args).Resolved?
    ensures |TargetList(args).hosts|
         == (if FileGiven(args) then |FileEntries(args.file.value.rows)| else 0)
          + Count(args.ip.value, ',') + 1
  {
    TargetsOrder(args);
  }

  /** An address usable on both sides: non-empty, stripped and comma-free. */
  predicate PlainAddress(a: string) {
    a != "" && IsStripped(a) && ',' !in a
  }

  /** An empty inline piece, as in `--ip a,,b`, survives as "" ... */
  lemma EmptyInlinePieceKept(a: string, b: string)
    requires PlainAddress(a) && PlainAddress(b)
    ensures TargetList(Args(Some(a + ",," + b), None)) == Resolved([a, "", b])
  {
    var pieces := [a, "", b];
    assert Join(pieces, ',') == a + ",," + b by {
      assert pieces[1..] == ["", b] && pieces[1..][1..] == [b];
      assert Join(pieces[1..], ',') == [','] + b;
      assert a + [','] + ([','] + b) == a + ",," + b;
    }
    SplitJoin(pieces, ',');
    StripAllKeepsStripped(pieces);
    TargetsOrder(Args(Some(a + ",," + b), None));
    assert [] + pieces == pieces;
  }

  /** ... while a blank field of a CSV row is dropped. */
  lemma BlankFileFieldDropped(path: string, a: string, blank: string, b: string)
    requires path != "" && PlainAddress(a) && PlainAddress(b) && AllSpace(blank)
    ensures TargetList(Args(None, Some(FileArg(path, [[a, blank, b]])))) == Resolved([a, b])
  {
    var row := [a, blank, b];
    StripFixesStripped(a);
    StripFixesStripped(b);
    StripEmptyIffAllSpace(blank);
    assert RowEntries([b]) == [b] by {
      assert [b][1..] == [];
      assert [b] + [] == [b];
    }
    assert RowEntries(row[1..]) == [b] by {
      assert row[1..] == [blank, b] && row[1..][1..] == [b];
      assert [] + [b] == [b];
    }
    assert RowEntries(row) == [a, b] by {
      assert [a] + [b] == [a, b];
    }
    var rows: seq<Row> := [row];
    assert FileEntries(rows) == [a, b] by {
      assert rows[..0] == [] && rows[0] == row;
      assert [] + [a, b] == [a, b];
    }
    TargetsOrder(Args(None, Some(FileArg(path, rows))));
    assert FileEntries(rows) + [] == [a, b];
  }

  /** Duplicates are kept: the same address given twice is visited twice. */
  lemma DuplicatesKept(a: string)
    requires PlainAddress(a)
    ensures TargetList(Args(Some(a + "," + a), None)) == Resolved([a, a])
  {
    TargetsOrder(Args(Some(a + "," + a), None));
    var pieces := [a, a];
    assert Join(pieces, ',') == a + "," + a;
    SplitJoin(pieces, ',');
    StripAllKeepsStripped(pieces);
    assert [] + pieces == pieces;
  }
}
