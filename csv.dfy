/** The CSV text of the table's export button (exportToCSV in
    src/components/table/DataTable.tsx): a header line, then one line per
    row of filteredData, fields joined by ',' and lines by '\n'. */
module Csv {
  import opened Types
  import opened Text

  const Headers: seq<string> :=
    ["Campaign", "Revenue", "Users", "Conversions", "Growth %", "Channel", "Status", "CTR %", "CPC"]

  /** headers.join(','). */
  function HeaderLine(): string {
    Join(Headers, ',')
  }

  /** A template literal `"${s}"`: the text between double quotes, with no
      escaping of quotes or separators inside it. */
  function Quote(s: string): (q: string)
    ensures |q| == |s| + 2 && q[0] == '"' && q[|q| - 1] == '"' && q[1..|q| - 1] == s
  {
    "\"" + s + "\""
  }

  /** The nine cells of one row, in the order of the headers. */
  function RowFields(r: MetricData): (fields: seq<string>)
    ensures |fields| == |Headers|
  {
    [ Quote(r.campaignName),
      IntToString(r.revenue),
      IntToString(r.users),
      IntToString(r.conversions),
      ToFixed(r.growth, 1),
      Quote(r.channel),
      StatusName(r.status),
      ToFixed(r.ctr, 2),
      ToFixed(r.cpc, 2) ]
  }

  function RowLine(r: MetricData): string {
    Join(RowFields(r), ',')
  }

  function RowLines(rows: seq<MetricData>): (lines: seq<string>)
    ensures |lines| == |rows|
  {
    seq(|rows|, i requires 0 <= i < |rows| => RowLine(rows[i]))
  }

  function CsvLines(rows: seq<MetricData>): (lines: seq<string>)
    ensures |lines| == |rows| + 1
  {
    [HeaderLine()] + RowLines(rows)
  }

  /** csvContent. */
  function CsvContent(rows: seq<MetricData>): string {
    Join(CsvLines(rows), '\n')
  }

  // ---------------------------------------------------------------------
  // The numerals contain neither separator
  // ---------------------------------------------------------------------

  /** Only digits, a point and a minus sign. */
  ghost predicate NumeralChars(s: string) {
    forall i :: 0 <= i < |s| ==> IsDigit(s[i]) || s[i] == '.' || s[i] == '-'
  }

  lemma NumeralsFree(s: string)
    requires NumeralChars(s)
    ensures Free(s, ',') && Free(s, '\n')
  {
  }

  lemma IntToStringChars(i: int)
    ensures NumeralChars(IntToString(i))
  {
    IntToStringValue(i);
    var m := NatToString(if i < 0 then -i else i);
    var s := IntToString(i);
    forall k | 0 <= k < |s| ensures IsDigit(s[k]) || s[k] == '.' || s[k] == '-' {
      if i < 0 && k > 0 {
        assert s[k] == m[k - 1];
      }
    }
  }

  lemma FixedDigitsChars(n: nat, f: nat)
    ensures NumeralChars(FixedDigits(n, f))
  {
    if f == 0 {
      NatToStringValue(n);
    } else {
      FixedDigitsShape(n, f);
      var s := FixedDigits(n, f);
      var k := |s| - f - 1;
      forall i | 0 <= i < |s| ensures IsDigit(s[i]) || s[i] == '.' || s[i] == '-' {
        if i < k {
          assert s[..k][i] == s[i];
        } else if i > k {
          assert s[k + 1..][i - k - 1] == s[i];
        }
      }
    }
  }

  lemma ToFixedChars(x: real, f: nat)
    ensures NumeralChars(ToFixed(x, f))
  {
    if x < 0.0 {
      var m := FixedDigits(RoundScaled(-x, f), f);
      FixedDigitsChars(RoundScaled(-x, f), f);
      var s := ToFixed(x, f);
      forall k | 0 <= k < |s| ensures IsDigit(s[k]) || s[k] == '.' || s[k] == '-' {
        if k > 0 {
          assert s[k] == m[k - 1];
        }
      }
    } else {
      FixedDigitsChars(RoundScaled(x, f), f);
    }
  }

  // ---------------------------------------------------------------------
  // Reading the CSV back
  // ---------------------------------------------------------------------

  /** A row whose name and channel hold neither ',' nor '\n'. */
  ghost predicate PlainRow(r: MetricData) {
    Free(r.campaignName, ',') && Free(r.campaignName, '\n') && Free(r.channel, ',') && Free(r.channel, '\n')
  }

  lemma FieldsFree(r: MetricData, sep: char)
    requires sep == ',' || sep == '\n'
    requires Free(r.campaignName, sep) && Free(r.channel, sep)
    ensures forall i :: 0 <= i < |RowFields(r)| ==> Free(RowFields(r)[i], sep)
  {
    var fs := RowFields(r);
    IntToStringChars(r.revenue);
    IntToStringChars(r.users);
    IntToStringChars(r.conversions);
    ToFixedChars(r.growth, 1);
    ToFixedChars(r.ctr, 2);
    ToFixedChars(r.cpc, 2);
    assert Free(fs[0], sep) by {
      forall k | 0 <= k < |fs[0]| ensures fs[0][k] != sep {
        if 0 < k < |fs[0]| - 1 {
          assert fs[0][k] == r.campaignName[k - 1];
        }
      }
    }
    assert Free(fs[5], sep) by {
      forall k | 0 <= k < |fs[5]| ensures fs[5][k] != sep {
        if 0 < k < |fs[5]| - 1 {
          assert fs[5][k] == r.channel[k - 1];
        }
      }
    }
    assert Free(fs[6], sep) by {
      assert fs[6] == StatusName(r.status);
    }
  }

  /** Splitting a row line on ',' gives back its nine cells. */
  lemma RowLineSplit(r: MetricData)
    requires Free(r.campaignName, ',') && Free(r.channel, ',')
    ensures Split(RowLine(r), ',') == RowFields(r)
  {
    FieldsFree(r, ',');
    SplitJoin(RowFields(r), ',');
  }

  /** A '\n' appears in a join on ',' only where one of the parts has it. */
  lemma {:induction false} JoinFree(parts: seq<string>, sep: char, c: char)
    requires sep != c
    requires forall i :: 0 <= i < |parts| ==> Free(parts[i], c)
    ensures Free(Join(parts, sep), c)
  {
    if |parts| > 1 {
      JoinFree(parts[1..], sep, c);
      var rest := Join(parts[1..], sep);
      var j := parts[0] + [sep] + rest;
      forall k | 0 <= k < |j| ensures j[k] != c {
        if k < |parts[0]| {
          assert j[k] == parts[0][k];
        } else if k > |parts[0]| {
          assert j[k] == rest[k - |parts[0]| - 1];
        }
      }
    }
  }

  /** The header line holds no '\n' and splits back into the nine headers. */
  lemma HeaderLineSplit()
    ensures Free(HeaderLine(), '\n')
    ensures Split(HeaderLine(), ',') == Headers
  {
    HeadersFree();
    JoinFree(Headers, ',', '\n');
    SplitJoin(Headers, ',');
  }

  /** No header name holds either separator. */
  lemma HeadersFree()
    ensures forall i :: 0 <= i < |Headers| ==> Free(Headers[i], ',') && Free(Headers[i], '\n')
  {
    forall i | 0 <= i < |Headers| ensures Free(Headers[i], ',') && Free(Headers[i], '\n') {
      assert ',' !in Headers[i] && '\n' !in Headers[i];
    }
  }

  lemma PlainRowLine(r: MetricData)
    requires PlainRow(r)
    ensures Free(RowLine(r), '\n')
    ensures Split(RowLine(r), ',') == RowFields(r)
  {
    FieldsFree(r, '\n');
    JoinFree(RowFields(r), ',', '\n');
    RowLineSplit(r);
  }

  /** The export holds exactly the header line and then one line per row,
      in the order of `rows`, and each row line splits back into that row's
      nine cells: its name and channel quoted, its counts as integers, growth
      with one decimal, CTR and CPC with two. */
  lemma CsvContentLines(rows: seq<MetricData>)
    requires forall i :: 0 <= i < |rows| ==> PlainRow(rows[i])
    ensures var lines := Split(CsvContent(rows), '\n');
      && |lines| == |rows| + 1
      && lines[0] == HeaderLine()
      && Split(lines[0], ',') == Headers
      && forall i :: 0 <= i < |rows| ==> lines[i + 1] == RowLine(rows[i]) && Split(lines[i + 1], ',') == RowFields(rows[i])
  {
    CsvLinesFree(rows);
    SplitJoin(CsvLines(rows), '\n');
    HeaderLineSplit();
    CsvLinesSplit(rows);
  }

  lemma CsvLinesFree(rows: seq<MetricData>)
    requires forall i :: 0 <= i < |rows| ==> PlainRow(rows[i])
    ensures forall i :: 0 <= i < |CsvLines(rows)| ==> Free(CsvLines(rows)[i], '\n')
  {
    HeaderLineFree();
    RowLinesFree(rows);
    ConsFree(HeaderLine(), RowLines(rows), '\n');
  }

  lemma HeaderLineFree()
    ensures Free(HeaderLine(), '\n')
  {
    HeaderLineSplit();
  }

  lemma RowLinesFree(rows: seq<MetricData>)
    requires forall i :: 0 <= i < |rows| ==> PlainRow(rows[i])
    ensures forall i :: 0 <= i < |RowLines(rows)| ==> Free(RowLines(rows)[i], '\n')
  {
    forall i | 0 <= i < |rows| ensures Free(RowLines(rows)[i], '\n') {
      PlainRowLine(rows[i]);
    }
  }

  lemma ConsFree(h: string, t: seq<string>, c: char)
    requires Free(h, c) && forall i :: 0 <= i < |t| ==> Free(t[i], c)
    ensures forall i :: 0 <= i < |[h] + t| ==> Free(([h] + t)[i], c)
  {
    forall i | 0 <= i < |[h] + t| ensures Free(([h] + t)[i], c) {
      if i > 0 {
        assert ([h] + t)[i] == t[i - 1];
      }
    }
  }

  lemma CsvLinesSplit(rows: seq<MetricData>)
    requires forall i :: 0 <= i < |rows| ==> PlainRow(rows[i])
    ensures forall i :: 0 <= i < |rows| ==>
      CsvLines(rows)[i + 1] == RowLine(rows[i]) && Split(CsvLines(rows)[i + 1], ',') == RowFields(rows[i])
  {
    forall i | 0 <= i < |rows| ensures Split(RowLine(rows[i]), ',') == RowFields(rows[i]) {
      PlainRowLine(rows[i]);
    }
  }
}
