/** Decoding of kubectl's tabular output: a header line of column names,
    separated by whitespace, followed by one line per resource. */
module Table {
  import opened Errorable
  import opened Kubectl
  import opened Text

  /** A line-oriented view of tabular output: the header line verbatim and
      the non-empty lines after it, in order. */
  datatype TableLines = TableLines(header: string, body: seq<string>)

  /** The lines of length greater than zero, in their original order. */
  function NonEmptyLines(lines: seq<string>): (r: seq<string>)
    ensures |r| <= |lines|
  {
    if lines == [] then []
    else (if |lines[0]| > 0 then [lines[0]] else []) + NonEmptyLines(lines[1..])
  }

  /** The filter keeps exactly the lines of length greater than zero. */
  lemma {:induction false} NonEmptyLinesMembers(lines: seq<string>)
    ensures forall l :: l in NonEmptyLines(lines) <==> l in lines && |l| > 0
  {
    if lines != [] {
      NonEmptyLinesMembers(lines[1..]);
      assert lines == [lines[0]] + lines[1..];
    }
  }

  /** Filtering keeps order: the lines kept from a concatenation are those
      kept from each part, one after the other. */
  lemma {:induction false} NonEmptyLinesAppend(xs: seq<string>, ys: seq<string>)
    ensures NonEmptyLines(xs + ys) == NonEmptyLines(xs) + NonEmptyLines(ys)
  {
    if xs == [] {
      assert xs + ys == ys;
    } else {
      var h := if |xs[0]| > 0 then [xs[0]] else [];
      assert (xs + ys)[0] == xs[0] && (xs + ys)[1..] == xs[1..] + ys;
      assert NonEmptyLines(xs + ys) == h + NonEmptyLines(xs[1..] + ys);
      NonEmptyLinesAppend(xs[1..], ys);
      assert NonEmptyLines(xs) == h + NonEmptyLines(xs[1..]);
      assert h + (NonEmptyLines(xs[1..]) + NonEmptyLines(ys)) == (h + NonEmptyLines(xs[1..])) + NonEmptyLines(ys);
    }
  }

  /** Lines that are all non-empty (whitespace-only ones included) are kept
      as they are. */
  lemma {:induction false} NonEmptyLinesKeepsAll(lines: seq<string>)
    requires forall i :: 0 <= i < |lines| ==> |lines[i]| > 0
    ensures NonEmptyLines(lines) == lines
  {
    if lines != [] {
      NonEmptyLinesKeepsAll(lines[1..]);
      assert [lines[0]] + lines[1..] == lines;
    }
  }

  /** The value `asTableLines` computes (specification of `AsTableLines`). */
  function TableLinesOf(output: KubectlOutput): (r: Errorable<TableLines>)
    ensures r.Failed? <==> output.None? || output.value.code != 0
    ensures r.Succeeded? ==> '\n' !in r.result.header && |r.result.body| < |Split(output.value.stdout, '\n')|
    ensures r.Succeeded? && r.result.header == "" ==> r.result.body == []
  {
    match output
    case None => Failed(FailedToRun, UnableToRunMessage)
    case Some(shell) =>
      if shell.code == 0 then
        var lines := Split(shell.stdout, '\n');
        if lines[0] == "" then Succeeded(TableLines("", []))
        else Succeeded(TableLines(lines[0], NonEmptyLines(lines[1..])))
      else
        Failed(KubectlError, shell.stderr)
  }

  /** `asTableLines`: splits standard output into lines, shifts the header
      off the front of the line array and keeps the non-empty lines after it. */
  method AsTableLines(output: KubectlOutput) returns (r: Errorable<TableLines>)
    ensures output.None? ==> r == Failed(FailedToRun, UnableToRunMessage)
    ensures output.Some? && output.value.code != 0 ==> r == Failed(KubectlError, output.value.stderr)
    ensures output.Some? && output.value.code == 0 ==>
      && r.Succeeded?
      && r.result.header == Split(output.value.stdout, '\n')[0]
      && (r.result.header == "" ==> r.result.body == [])
      && (r.result.header != "" ==> r.result.body == NonEmptyLines(Split(output.value.stdout, '\n')[1..]))
    ensures r == TableLinesOf(output)
  {
    if output.None? {
      return Failed(FailedToRun, UnableToRunMessage);
    }
    var shell := output.value;
    if shell.code == 0 {
      var lines := Split(shell.stdout, '\n');
      var header := lines[0];
      lines := lines[1..];
      if header == "" {
        return Succeeded(TableLines("", []));
      }
      var body := NonEmptyLines(lines);
      return Succeeded(TableLines(header, body));
    }
    return Failed(KubectlError, shell.stderr);
  }

  /** The header is the first line of standard output, untouched: a prefix of
      it that contains no line feed and reaches up to the first line feed. */
  lemma HeaderIsFirstLine(shell: ShellResult)
    requires shell.code == 0
    ensures TableLinesOf(Some(shell)).Succeeded?
    ensures var header := TableLinesOf(Some(shell)).result.header;
      && '\n' !in header
      && header <= shell.stdout
      && (header == shell.stdout || shell.stdout[|header|] == '\n')
  {
    var lines := Split(shell.stdout, '\n');
    JoinSplit(shell.stdout, '\n');
    if |lines| > 1 {
      assert Join(lines, '\n') == lines[0] + ['\n'] + Join(lines[1..], '\n');
    }
  }

  /** Without a header there is no body; otherwise the body is every later
      non-empty line and only those, and stdout is the header, a line feed and
      the later lines (empty ones included) joined again. */
  lemma BodyIsNonEmptyLaterLines(shell: ShellResult)
    requires shell.code == 0
    ensures var t := TableLinesOf(Some(shell)).result;
      var later := Split(shell.stdout, '\n')[1..];
      && (t.header == "" ==> t.body == [])
      && (t.header != "" ==>
            && (forall l :: l in t.body <==> l in later && |l| > 0)
            && shell.stdout == Join([t.header] + later, '\n'))
  {
    var lines := Split(shell.stdout, '\n');
    JoinSplit(shell.stdout, '\n');
    NonEmptyLinesMembers(lines[1..]);
    assert [lines[0]] + lines[1..] == lines;
  }

  /** With exit code 0 standard error plays no part, and the output always
      succeeds. */
  lemma TableLinesIgnoresStderr(stdout: string, stderr1: string, stderr2: string)
    ensures TableLinesOf(Some(ShellResult(0, stdout, stderr1))) == TableLinesOf(Some(ShellResult(0, stdout, stderr2)))
    ensures TableLinesOf(Some(ShellResult(0, stdout, stderr1))).Succeeded?
  {
  }

  /** "No resources found." on standard error with empty standard output is
      an empty table, not a failure. */
  lemma NoResourcesFound()
    ensures TableLinesOf(Some(ShellResult(0, "", "No resources found."))) == Succeeded(TableLines("", []))
  {
  }

  /** The failures of `asTableLines` describe the output they came from (and
      are never parse failures). */
  lemma TableLinesFailuresDescribed(output: KubectlOutput)
    ensures DescribesFailure(output, TableLinesOf(output))
    ensures TableLinesOf(output).Failed? ==> TableLinesOf(output).reason != FailedToParse
  {
  }

  /** The tokens of a line: each whitespace run collapsed to `'|'`, then the
      result split at `'|'`. Every token is free of whitespace and of `'|'`,
      so trimming it changes nothing. */
  function Columns(line: string): (r: seq<string>)
    ensures |r| >= 1
    ensures forall i :: 0 <= i < |r| ==> NoWhitespace(r[i]) && '|' !in r[i]
  {
    var collapsed := CollapseWhitespace(line);
    CollapseLeavesNoWhitespace(line);
    var r := Split(collapsed, '|');
    SplitChars(collapsed, '|');
    assert forall i, c :: 0 <= i < |r| && c in r[i] ==> c in collapsed;
    assert forall i :: 0 <= i < |r| ==> NoWhitespace(r[i]);
    r
  }

  /** A word without whitespace or `'|'` is one token. */
  lemma ColumnsOfWord(word: string)
    requires NoWhitespace(word) && '|' !in word
    ensures Columns(word) == [word]
  {
    CollapseNoWhitespace(word);
    SplitNoSeparator(word, '|');
  }

  /** A whitespace run between two parts separates their tokens. */
  lemma ColumnsAround(x: string, w: string, y: string)
    requires w != [] && AllWhitespace(w)
    requires x == [] || !IsWhitespace(x[|x| - 1])
    requires y == [] || !IsWhitespace(y[0])
    ensures Columns(x + (w + y)) == Columns(x) + Columns(y)
  {
    CollapseAround(x, w, y);
    SplitAround(CollapseWhitespace(x), '|', CollapseWhitespace(y));
  }

  /** Leading whitespace produces an empty first token. */
  lemma LeadingWhitespaceEmptyToken(line: string)
    requires line != [] && IsWhitespace(line[0])
    ensures Columns(line)[0] == ""
  {
    var c := CollapseWhitespace(line);
    assert c == "|" + CollapseWhitespace(TrimStart(line[1..]));
    assert c[1..] == CollapseWhitespace(TrimStart(line[1..]));
  }

  /** Collapsing a string that ends in whitespace gives one that ends in `'|'`. */
  lemma {:induction false} CollapseEndsWithBar(s: string)
    requires s != [] && IsWhitespace(s[|s| - 1])
    ensures CollapseWhitespace(s) != [] && CollapseWhitespace(s)[|CollapseWhitespace(s)| - 1] == '|'
    decreases |s|
  {
    if IsWhitespace(s[0]) {
      var t := TrimStart(s[1..]);
      TrimStartShape(s[1..]);
      if t != [] {
        assert t == s[1..][|s[1..]| - |t|..];
        assert t[|t| - 1] == s[|s| - 1];
        CollapseEndsWithBar(t);
      }
    } else {
      assert s[1..][|s| - 2] == s[|s| - 1];
      CollapseEndsWithBar(s[1..]);
    }
  }

  /** Trailing whitespace produces an empty last token. */
  lemma TrailingWhitespaceEmptyToken(line: string)
    requires line != [] && IsWhitespace(line[|line| - 1])
    ensures Columns(line)[|Columns(line)| - 1] == ""
  {
    var c := CollapseWhitespace(line);
    CollapseEndsWithBar(line);
    var front := c[..|c| - 1];
    assert c == front + ['|'] + "";
    SplitAround(front, '|', "");
    assert Split("", '|') == [""];
  }

  /** The column names are the header's tokens, lower-cased. */
  lemma ColumnsLower(header: string)
    ensures Columns(Lower(header)) == LowerAll(Columns(header))
  {
    CollapseLower(header);
    SplitLower(CollapseWhitespace(header));
  }

  /** The dictionary `parseLine` builds from its first `|bits|` tokens: the
      tokens in order, each assigned (trimmed) to the trimmed column name at
      its position, a later assignment to the same name replacing an earlier
      one. */
  function Row(columns: seq<string>, bits: seq<string>): (r: Dictionary<string>)
    requires |bits| <= |columns|
    ensures |r| <= |bits|
    ensures bits != [] ==> Trim(columns[0]) in r
    decreases |bits|
  {
    if bits == [] then EmptyDictionary()
    else Row(columns, bits[..|bits| - 1])[Trim(columns[|bits| - 1]) := Trim(bits[|bits| - 1])]
  }

  /** A row's keys are exactly the trimmed names of its first `|bits|`
      columns: later columns are absent, not padded. */
  lemma RowKeys(columns: seq<string>, bits: seq<string>)
    requires |bits| <= |columns|
    ensures forall key :: key in Row(columns, bits) <==> exists j :: 0 <= j < |bits| && Trim(columns[j]) == key
  {
    forall key
      ensures key in Row(columns, bits) <==> exists j :: 0 <= j < |bits| && Trim(columns[j]) == key
    {
      if key in Row(columns, bits) {
        var j := RowKeyIndex(columns, bits, key);
      } else {
        forall j | 0 <= j < |bits| ensures Trim(columns[j]) != key {
          RowKeyPresent(columns, bits, j);
        }
      }
    }
  }

  /** A key of a row is the trimmed name of one of its columns. */
  lemma {:induction false} RowKeyIndex(columns: seq<string>, bits: seq<string>, key: string) returns (j: nat)
    requires |bits| <= |columns|
    requires key in Row(columns, bits)
    ensures j < |bits| && Trim(columns[j]) == key
    decreases |bits|
  {
    var k := |bits| - 1;
    if key == Trim(columns[k]) {
      j := k;
    } else {
      j := RowKeyIndex(columns, bits[..k], key);
    }
  }

  /** The trimmed name of every column a row has a token for is a key. */
  lemma {:induction false} RowKeyPresent(columns: seq<string>, bits: seq<string>, j: nat)
    requires |bits| <= |columns| && j < |bits|
    ensures Trim(columns[j]) in Row(columns, bits)
    decreases |bits|
  {
    var k := |bits| - 1;
    if j < k {
      RowKeyPresent(columns, bits[..k], j);
    }
  }

  /** Each key holds the trimmed token at the last position carrying that
      column name; with distinct names, at the name's own position. */
  lemma {:induction false} RowValue(columns: seq<string>, bits: seq<string>, j: nat)
    requires |bits| <= |columns| && j < |bits|
    requires forall j' :: j < j' < |bits| ==> Trim(columns[j']) != Trim(columns[j])
    ensures Trim(columns[j]) in Row(columns, bits)
    ensures Row(columns, bits)[Trim(columns[j])] == Trim(bits[j])
  {
    var k := |bits| - 1;
    if j < k {
      assert forall j' :: 0 <= j' < k ==> bits[..k][j'] == bits[j'];
      RowValue(columns, bits[..k], j);
    }
  }

  /** No position after `j` and before `k` carries the name at `j`. */
  predicate LastWithName(names: seq<string>, k: nat, j: nat)
    requires j < k <= |names|
  {
    forall j' :: j < j' < k ==> names[j'] != names[j]
  }

  /** How `parseLine` completes for a line under the given column names: it
      throws when the line has more tokens than there are columns (the
      column name past the end is `undefined`, and calling `trim` on it is a
      TypeError), and otherwise returns the row of its tokens. */
  function LineRow(line: string, columns: seq<string>): (r: Completion<Dictionary<string>>)
    ensures r.Throw? <==> |Columns(line)| > |columns|
    ensures r.Normal? ==> |r.value| <= |Columns(line)| && Trim(columns[0]) in r.value
  {
    var bits := Columns(line);
    if |bits| > |columns| then Throw else Normal(Row(columns, bits))
  }

  /** `parseLine`: tokenizes the line and fills a fresh dictionary, assigning
      each trimmed token to the trimmed column name at its position. */
  method ParseLine(line: string, columnHeaders: seq<string>) returns (r: Completion<Dictionary<string>>)
    ensures r.Throw? <==> |Columns(line)| > |columnHeaders|
    ensures r.Normal? ==> r.value == Row(columnHeaders, Columns(line))
    ensures r == LineRow(line, columnHeaders)
  {
    var lineInfo := EmptyDictionary<string>();
    var bits := Columns(line);
    var index := 0;
    while index < |bits|
      invariant 0 <= index <= |bits| && index <= |columnHeaders|
      invariant lineInfo == Row(columnHeaders, bits[..index])
    {
      if index >= |columnHeaders| {
        return Throw;
      }
      assert bits[..index + 1][..index] == bits[..index];
      lineInfo := lineInfo[Trim(columnHeaders[index]) := Trim(bits[index])];
      index := index + 1;
    }
    assert bits[..index] == bits;
    return Normal(lineInfo);
  }

  /** The column names `parseTableLines` derives from a header are its
      tokens lower-cased, and trimming them changes nothing. */
  lemma ColumnNames(header: string)
    ensures var columns := Columns(Lower(header));
      && columns == LowerAll(Columns(header))
      && forall j :: 0 <= j < |columns| ==> Trim(columns[j]) == columns[j]
  {
    var columns := Columns(Lower(header));
    ColumnsLower(header);
    forall j | 0 <= j < |columns| ensures Trim(columns[j]) == columns[j] {
      TrimNoWhitespace(columns[j]);
    }
  }

  /** The keys of a line's row are the lower-cased header tokens at the
      positions the line has tokens for: trailing columns are absent. */
  lemma LineRowKeys(line: string, header: string)
    requires |Columns(line)| <= |Columns(header)|
    ensures var d := LineRow(line, Columns(Lower(header)));
      var names := LowerAll(Columns(header));
      && d.Normal?
      && forall key :: key in d.value <==> exists j :: 0 <= j < |Columns(line)| && names[j] == key
  {
    var columns := Columns(Lower(header));
    var bits := Columns(line);
    ColumnNames(header);
    assert LineRow(line, columns) == Normal(Row(columns, bits));
    RowKeysTrimmed(columns, bits);
  }

  /** `RowKeys` for column names that trimming leaves alone. */
  lemma RowKeysTrimmed(columns: seq<string>, bits: seq<string>)
    requires |bits| <= |columns|
    requires forall j :: 0 <= j < |columns| ==> Trim(columns[j]) == columns[j]
    ensures forall key :: key in Row(columns, bits) <==> exists j :: 0 <= j < |bits| && columns[j] == key
  {
    RowKeys(columns, bits);
    forall key
      ensures key in Row(columns, bits) <==> exists j :: 0 <= j < |bits| && columns[j] == key
    {
      if exists j :: 0 <= j < |bits| && columns[j] == key {
        var j :| 0 <= j < |bits| && columns[j] == key;
        assert Trim(columns[j]) == key;
      }
    }
  }

  /** Each key of a line's row maps to the line's token at the last position
      carrying that column name; with distinct names, at its own position. */
  lemma LineRowValues(line: string, header: string, j: nat)
    requires |Columns(line)| <= |Columns(header)| && j < |Columns(line)|
    requires LastWithName(LowerAll(Columns(header)), |Columns(line)|, j)
    ensures var d := LineRow(line, Columns(Lower(header)));
      var names := LowerAll(Columns(header));
      && d.Normal?
      && names[j] in d.value
      && d.value[names[j]] == Columns(line)[j]
  {
    var columns := Columns(Lower(header));
    var bits := Columns(line);
    var names := LowerAll(Columns(header));
    ColumnNames(header);
    assert columns == names;
    assert Trim(columns[j]) == names[j];
    forall j' | j < j' < |bits|
      ensures Trim(columns[j']) != Trim(columns[j])
    {
      assert Trim(columns[j']) == names[j'];
    }
    RowValue(columns, bits, j);
    TrimNoWhitespace(bits[j]);
    assert LineRow(line, columns) == Normal(Row(columns, bits));
  }

  /** `parseLine` applied to every body line under the same column names:
      one dictionary per line, in order, unless some line throws (see
      `RowsShape`). */
  function Rows(body: seq<string>, columns: seq<string>): (r: Completion<seq<Dictionary<string>>>)
    ensures r.Normal? ==> |r.value| == |body|
    ensures body != [] && LineRow(body[0], columns).Throw? ==> r.Throw?
  {
    if body == [] then Normal([])
    else
      match LineRow(body[0], columns)
      case Throw => Throw
      case Normal(d) =>
        match Rows(body[1..], columns)
        case Throw => Throw
        case Normal(ds) => Normal([d] + ds)
  }

  /** Mapping the body throws exactly when some line throws; otherwise it
      gives one dictionary per line, in order, each that line's row. */
  lemma {:induction false} RowsShape(body: seq<string>, columns: seq<string>)
    ensures Rows(body, columns).Throw? <==> exists i :: 0 <= i < |body| && LineRow(body[i], columns).Throw?
    ensures Rows(body, columns).Normal? ==>
      && |Rows(body, columns).value| == |body|
      && forall i :: 0 <= i < |body| ==> LineRow(body[i], columns) == Normal(Rows(body, columns).value[i])
  {
    if body != [] {
      var tail := body[1..];
      RowsShape(tail, columns);
      var first := LineRow(body[0], columns);
      var rest := Rows(tail, columns);
      if first.Throw? {
        assert LineRow(body[0], columns).Throw?;
      } else if rest.Throw? {
        var i :| 0 <= i < |tail| && LineRow(tail[i], columns).Throw?;
        assert body[i + 1] == tail[i];
      } else {
        var r := [first.value] + rest.value;
        assert Rows(body, columns) == Normal(r);
        forall i | 0 <= i < |body|
          ensures LineRow(body[i], columns) == Normal(r[i])
        {
          if i > 0 {
            assert body[i] == tail[i - 1] && r[i] == rest.value[i - 1];
          }
        }
      }
    }
  }

  /** `parseTableLines`: no rows without a header or a body; otherwise the
      rows of the body under the lower-cased header's tokens. */
  function ParseTableLines(table: TableLines): (r: Completion<seq<Dictionary<string>>>)
    ensures r.Throw? ==> table.header != "" && table.body != []
    ensures r.Normal? ==> |r.value| == (if table.header == "" then 0 else |table.body|)
  {
    if |table.header| == 0 || |table.body| == 0 then Normal([])
    else Rows(table.body, Columns(Lower(table.header)))
  }

  /** `parseTableLines` gives no rows for an empty header or body, and
      otherwise one row per body line in body order, unless a line has more
      tokens than the header, when it throws. */
  lemma ParseTableLinesShape(table: TableLines)
    ensures table.header == "" || table.body == [] ==> ParseTableLines(table) == Normal([])
    ensures table.header != "" && table.body != [] ==>
      var columns := Columns(Lower(table.header));
      var r := ParseTableLines(table);
      && (r.Throw? <==> exists i :: 0 <= i < |table.body| && |Columns(table.body[i])| > |columns|)
      && (r.Normal? ==>
            && |r.value| == |table.body|
            && forall i :: 0 <= i < |table.body| ==> LineRow(table.body[i], columns) == Normal(r.value[i]))
  {
    RowsShape(table.body, Columns(Lower(table.header)));
  }

  /** `parseTabular`: a failure of `asTableLines` is returned unchanged;
      otherwise the parsed rows are wrapped in a success. */
  function ParseTabular(output: KubectlOutput): (r: Completion<Errorable<seq<Dictionary<string>>>>)
    ensures r.Throw? ==> output.Some? && output.value.code == 0
    ensures r.Normal? && r.value.Failed? <==> TableLinesOf(output).Failed?
    ensures r.Normal? && r.value.Succeeded? ==> |r.value.result| == |TableLinesOf(output).result.body|
  {
    match TableLinesOf(output)
    case Failed(reason, error) => Normal(Failed(reason, error))
    case Succeeded(table) =>
      match ParseTableLines(table)
      case Throw => Throw
      case Normal(rows) => Normal(Succeeded(rows))
  }

  /** The failures of `parseTabular` are exactly those of `asTableLines`,
      unchanged; it never throws on them. */
  lemma ParseTabularFailures(output: KubectlOutput)
    ensures output.None? ==> ParseTabular(output) == Normal(Failed(FailedToRun, UnableToRunMessage))
    ensures output.Some? && output.value.code != 0 ==>
      ParseTabular(output) == Normal(Failed(KubectlError, output.value.stderr))
    ensures TableLinesOf(output).Failed? <==> ParseTabular(output).Normal? && ParseTabular(output).value.Failed?
    ensures TableLinesOf(output).Failed? ==> ParseTabular(output).value == Failed(TableLinesOf(output).reason, TableLinesOf(output).error)
    ensures ParseTabular(output).Normal? ==> DescribesFailure(output, ParseTabular(output).value)
  {
  }

  /** With exit code 0, `parseTabular` succeeds with one dictionary per body
      line, in order (none when the header is empty), unless some body line
      has more tokens than the header, in which case it throws. */
  lemma ParseTabularRows(stdout: string, stderr: string)
    ensures var r := ParseTabular(Some(ShellResult(0, stdout, stderr)));
      var lines := Split(stdout, '\n');
      var body := NonEmptyLines(lines[1..]);
      var columns := Columns(Lower(lines[0]));
      && (r.Throw? <==> lines[0] != "" && exists i :: 0 <= i < |body| && |Columns(body[i])| > |columns|)
      && (r.Normal? ==>
            && r.value.Succeeded?
            && |r.value.result| == (if lines[0] == "" then 0 else |body|)
            && (lines[0] != "" ==> forall i :: 0 <= i < |body| ==> LineRow(body[i], columns) == Normal(r.value.result[i])))
  {
    var output := Some(ShellResult(0, stdout, stderr));
    var lines := Split(stdout, '\n');
    var table := TableLinesOf(output);
    if lines[0] == "" {
      assert table == Succeeded(TableLines("", []));
      assert ParseTableLines(table.result) == Normal([]);
    } else {
      var body := NonEmptyLines(lines[1..]);
      assert table == Succeeded(TableLines(lines[0], body));
      if body == [] {
        assert ParseTableLines(table.result) == Normal([]);
      } else {
        assert ParseTableLines(table.result) == Rows(body, Columns(Lower(lines[0])));
        RowsShape(body, Columns(Lower(lines[0])));
      }
    }
  }

  /** A line of three words separated by whitespace runs has those three
      words as its tokens. */
  lemma ThreeWords(a: string, w1: string, b: string, w2: string, c: string)
    requires NoWhitespace(a) && NoWhitespace(b) && NoWhitespace(c)
    requires '|' !in a && '|' !in b && '|' !in c
    requires a != [] && b != [] && c != []
    requires w1 != [] && AllWhitespace(w1) && w2 != [] && AllWhitespace(w2)
    ensures Columns(a + (w1 + (b + (w2 + c)))) == [a, b, c]
  {
    assert a[|a| - 1] in a && b[0] in b && b[|b| - 1] in b && c[0] in c;
    ColumnsOfWord(a);
    ColumnsOfWord(b);
    ColumnsOfWord(c);
    ColumnsAround(b, w2, c);
    ColumnsAround(a, w1, b + (w2 + c));
  }

  /** The row of three whitespace-free tokens under three whitespace-free
      column names. */
  lemma ThreeCells(n1: string, n2: string, n3: string, v1: string, v2: string, v3: string)
    requires NoWhitespace(n1) && NoWhitespace(n2) && NoWhitespace(n3)
    requires NoWhitespace(v1) && NoWhitespace(v2) && NoWhitespace(v3)
    ensures Row([n1, n2, n3], [v1, v2, v3]) == map[n1 := v1, n2 := v2, n3 := v3]
  {
    TrimNoWhitespace(n1); TrimNoWhitespace(n2); TrimNoWhitespace(n3);
    TrimNoWhitespace(v1); TrimNoWhitespace(v2); TrimNoWhitespace(v3);
    var names := [n1, n2, n3];
    assert [v1][..0] == [];
    assert Row(names, [v1]) == map[n1 := v1];
    assert [v1, v2][..1] == [v1];
    assert Row(names, [v1, v2]) == map[n1 := v1, n2 := v2];
    assert [v1, v2, v3][..2] == [v1, v2];
  }

  /** A line of only whitespace has two empty tokens: it is kept in the
      body, and under a one-column header it makes the decoder throw. */
  lemma WhitespaceOnlyLine(line: string, columns: seq<string>)
    requires line != [] && AllWhitespace(line)
    requires |columns| == 1
    ensures Columns(line) == ["", ""]
    ensures LineRow(line, columns) == Throw
  {
    TrimStartShape(line[1..]);
    assert AllWhitespace(line[1..]);
    assert TrimStart(line[1..]) == [];
    assert CollapseWhitespace(line) == "|";
    assert "|" == [] + ['|'] + [];
    SplitAround([], '|', []);
  }

  /** Whitespace at the end of a row that otherwise fills every column adds
      one token too many, so the row throws. */
  lemma TrailingWhitespaceRowThrows(line: string, columns: seq<string>, w: string)
    requires |Columns(line)| == |columns|
    requires line == [] || !IsWhitespace(line[|line| - 1])
    requires w != [] && AllWhitespace(w)
    ensures |Columns(line + w)| == |columns| + 1
    ensures LineRow(line + w, columns) == Throw
  {
    ColumnsAround(line, w, []);
    assert line + (w + []) == line + w;
    assert CollapseWhitespace([]) == [];
    assert Columns([]) == [""];
  }

  /** Two words separated by whitespace are two tokens. */
  lemma TwoWords(a: string, w: string, b: string)
    requires NoWhitespace(a) && NoWhitespace(b) && '|' !in a && '|' !in b
    requires a != [] && b != [] && w != [] && AllWhitespace(w)
    ensures Columns(a + (w + b)) == [a, b]
  {
    assert a[|a| - 1] in a && b[0] in b;
    ColumnsOfWord(a);
    ColumnsOfWord(b);
    ColumnsAround(a, w, b);
  }

  /** The row of two tokens under the first two of any column names. */
  lemma TwoCells(names: seq<string>, v1: string, v2: string)
    requires |names| >= 2 && NoWhitespace(names[0]) && NoWhitespace(names[1])
    requires NoWhitespace(v1) && NoWhitespace(v2)
    ensures Row(names, [v1, v2]) == map[names[0] := v1, names[1] := v2]
  {
    TrimNoWhitespace(names[0]); TrimNoWhitespace(names[1]);
    TrimNoWhitespace(v1); TrimNoWhitespace(v2);
    assert [v1][..0] == [];
    assert Row(names, [v1]) == map[names[0] := v1];
    assert [v1, v2][..1] == [v1];
  }

  /** A row shorter than the header lacks the trailing keys: no padding. */
  lemma RaggedRowExample()
    ensures LineRow("foo   true", ["name", "foo", "bar"]) == Normal(map["name" := "foo", "foo" := "true"])
  {
    assert "foo   true" == "foo" + ("   " + "true");
    TwoWords("foo", "   ", "true");
    TwoCells(["name", "foo", "bar"], "foo", "true");
  }

  /** A column name given twice keeps the value of its later position. */
  lemma DuplicateColumnExample()
    ensures LineRow("x y", ["a", "a"]) == Normal(map["a" := "y"])
  {
    assert "x y" == "x" + (" " + "y");
    TwoWords("x", " ", "y");
    TwoCells(["a", "a"], "x", "y");
    assert map["a" := "x", "a" := "y"] == map["a" := "y"];
  }

  /** Three lines without line feeds, joined by line feeds, split back. */
  lemma ThreeLines(x: string, y: string, z: string)
    requires '\n' !in x && '\n' !in y && '\n' !in z
    ensures Split(x + "\n" + (y + "\n" + z), '\n') == [x, y, z]
  {
    SplitNoSeparator(x, '\n');
    SplitNoSeparator(y, '\n');
    SplitNoSeparator(z, '\n');
    SplitAround(y, '\n', z);
    SplitAround(x, '\n', y + "\n" + z);
  }

  /** The listing used by the repository's tests: a header and two rows. */
  const SampleHeader: string := "NAME" + ("     " + ("FOO" + ("      " + "BAR")))
  const SampleLine1: string := "foo" + ("      " + ("true" + ("     " + "false")))
  const SampleLine2: string := "barbar" + ("   " + ("false" + ("    " + "twice")))
  const SampleListing: string := SampleHeader + "\n" + (SampleLine1 + "\n" + SampleLine2)

  /** The sample listing splits into its header and two body lines. */
  lemma SampleLines()
    ensures TableLinesOf(Some(ShellResult(0, SampleListing, "")))
      == Succeeded(TableLines(SampleHeader, [SampleLine1, SampleLine2]))
  {
    ThreeLines(SampleHeader, SampleLine1, SampleLine2);
    NonEmptyLinesKeepsAll([SampleLine1, SampleLine2]);
    assert [SampleHeader, SampleLine1, SampleLine2][1..] == [SampleLine1, SampleLine2];
  }

  lemma SampleHeaderWords()
    ensures Columns(SampleHeader) == ["NAME", "FOO", "BAR"]
  {
    ThreeWords("NAME", "     ", "FOO", "      ", "BAR");
  }

  /** The sample header's column names. */
  lemma SampleColumns()
    ensures Columns(Lower(SampleHeader)) == ["name", "foo", "bar"]
  {
    SampleHeaderWords();
    ColumnsLower(SampleHeader);
    SampleWordsLower();
  }

  lemma SampleWordsLower()
    ensures LowerAll(["NAME", "FOO", "BAR"]) == ["name", "foo", "bar"]
  {
    assert Lower("NAME") == "name" && Lower("FOO") == "foo" && Lower("BAR") == "bar";
  }

  /** A row of three words under three column names. */
  lemma ThreeWordRow(n1: string, n2: string, n3: string,
                     a: string, w1: string, b: string, w2: string, c: string)
    requires NoWhitespace(n1) && NoWhitespace(n2) && NoWhitespace(n3)
    requires NoWhitespace(a) && NoWhitespace(b) && NoWhitespace(c)
    requires '|' !in a && '|' !in b && '|' !in c
    requires a != [] && b != [] && c != []
    requires w1 != [] && AllWhitespace(w1) && w2 != [] && AllWhitespace(w2)
    ensures LineRow(a + (w1 + (b + (w2 + c))), [n1, n2, n3]) == Normal(map[n1 := a, n2 := b, n3 := c])
  {
    ThreeWords(a, w1, b, w2, c);
    ThreeCells(n1, n2, n3, a, b, c);
  }

  lemma SampleRow1()
    ensures LineRow(SampleLine1, ["name", "foo", "bar"]) == Normal(map["name" := "foo", "foo" := "true", "bar" := "false"])
  {
    ThreeWordRow("name", "foo", "bar", "foo", "      ", "true", "     ", "false");
  }

  lemma SampleRow2()
    ensures LineRow(SampleLine2, ["name", "foo", "bar"]) == Normal(map["name" := "barbar", "foo" := "false", "bar" := "twice"])
  {
    ThreeWordRow("name", "foo", "bar", "barbar", "   ", "false", "    ", "twice");
  }

  /** The sample listing decodes to two rows keyed by the lower-cased column
      names, each value the token under its column. */
  lemma SampleTable()
    ensures ParseTabular(Some(ShellResult(0, SampleListing, "")))
      == Normal(Succeeded([
           map["name" := "foo", "foo" := "true", "bar" := "false"],
           map["name" := "barbar", "foo" := "false", "bar" := "twice"]]))
  {
    SampleLines();
    SampleColumns();
    SampleRow1();
    SampleRow2();
    var body := [SampleLine1, SampleLine2];
    assert ParseTableLines(TableLines(SampleHeader, body)) == Rows(body, ["name", "foo", "bar"]);
    TwoRows(SampleLine1, SampleLine2, ["name", "foo", "bar"],
      map["name" := "foo", "foo" := "true", "bar" := "false"],
      map["name" := "barbar", "foo" := "false", "bar" := "twice"]);
  }

  /** Two lines that each complete normally give their two rows, in order. */
  lemma TwoRows(l1: string, l2: string, columns: seq<string>, d1: Dictionary<string>, d2: Dictionary<string>)
    requires LineRow(l1, columns) == Normal(d1) && LineRow(l2, columns) == Normal(d2)
    ensures Rows([l1, l2], columns) == Normal([d1, d2])
  {
    assert [l1, l2][1..] == [l2];
    assert [l2][1..] == [];
    assert Rows([], columns) == Normal([]);
    assert [d2] + [] == [d2];
    assert Rows([l2], columns) == Normal([d2]);
    assert [d1] + [d2] == [d1, d2];
  }
}
