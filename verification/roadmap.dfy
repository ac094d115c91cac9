/** The Slice table of the Roadmap document: its parser, and the table the parser inverts. */
module Roadmap {
  import opened Options
  import opened PythonText

  /* ---- parsing ---- */

  datatype Row = Row(id: nat, status: string)

  const DASH := '\U{2014}'

  predicate Digit(c: char) {
    '0' <= c <= '9'
  }

  /** Where the digit run that starts at i ends. */
  function SkipDigits(s: string, i: nat): (n: nat)
    requires i <= |s|
    ensures i <= n <= |s| && (forall j | i <= j < n :: Digit(s[j])) && (n < |s| ==> !Digit(s[n]))
    decreases |s| - i
  {
    if i < |s| && Digit(s[i]) then SkipDigits(s, i + 1) else i
  }

  function Value(digits: string): nat
    requires forall i | 0 <= i < |digits| :: Digit(digits[i])
    decreases |digits|
  {
    if digits == "" then 0
    else
      assert Digit(digits[|digits| - 1]);
      Value(digits[..|digits| - 1]) * 10 + (digits[|digits| - 1] - '0') as nat
  }

  /** A number, perhaps a dotted second number, blanks, and a dash. Only the first number counts. */
  function SliceId(field: string): Option<nat> {
    var n := SkipDigits(field, 0);
    if n == 0 then None
    else
      var dotted := n < |field| && field[n] == '.' && SkipDigits(field, n + 1) > n + 1;
      var m := if dotted then SkipDigits(field, n + 1) else n;
      var k := SkipBlanks(field, m);
      if k == m || k == |field| || field[k] != DASH then None else Some(Value(field[..n]))
  }

  function RowOf(line: string): Option<Row> {
    if line == "" || line[0] != '|' then None
    else
      var cells := Split(line, '|');
      if |cells| < 4 then None
      else match SliceId(Strip(cells[1]))
           case None => None
           case Some(id) => Some(Row(id, Strip(cells[3])))
  }

  /** The status each Slice number has after these lines. */
  function Table(rows: seq<Option<Row>>): map<nat, string>
    decreases |rows|
  {
    if rows == [] then map[]
    else
      var before := Table(rows[..|rows| - 1]);
      match rows[|rows| - 1]
      case None => before
      case Some(row) => before[row.id := row.status]
  }

  /** None stands for the document without a Slice row, which is refused. */
  function Parse(text: string): Option<map<nat, string>> {
    var rows := Table(Each(RowOf, Lines(text)));
    if rows == map[] then None else Some(rows)
  }

  method ParseRoadmap(text: string) returns (parsed: Option<map<nat, string>>)
    ensures parsed == Parse(text)
  {
    var lines := Lines(text);
    ghost var all := Each(RowOf, lines);
    var rows := map[];
    for i := 0 to |lines|
      invariant rows == Table(all[..i])
    {
      assert all[..i + 1][..i] == all[..i];
      var row := RowOf(lines[i]);
      assert row == all[i];
      if row.None? {
        continue;
      }
      rows := rows[row.value.id := row.value.status];
    }
    assert all[..|lines|] == all;
    parsed := if rows == map[] then None else Some(rows);
  }

  /* ---- what the table means ---- */

  predicate LastRow(rows: seq<Option<Row>>, id: nat, i: nat) {
    && i < |rows| && rows[i].Some? && rows[i].value.id == id
    && forall j | i < j < |rows| :: rows[j].None? || rows[j].value.id != id
  }

  /** A Slice number has the status of the last row that carries it. */
  lemma {:induction false} LastRowWins(rows: seq<Option<Row>>, id: nat)
    ensures id in Table(rows) <==> exists i: nat :: LastRow(rows, id, i)
    ensures forall i: nat | LastRow(rows, id, i) :: id in Table(rows) && Table(rows)[id] == rows[i].value.status
    decreases |rows|
  {
    if rows == [] {
    } else {
      var n := |rows| - 1;
      var shorter := rows[..n];
      LastRowWins(shorter, id);
      assert forall j | 0 <= j < n :: shorter[j] == rows[j];
      if rows[n].Some? && rows[n].value.id == id {
        assert LastRow(rows, id, n);
      } else {
        assert forall i: nat :: LastRow(rows, id, i) <==> LastRow(shorter, id, i);
      }
    }
  }

  lemma {:induction false} TableConcat(a: seq<Option<Row>>, b: seq<Option<Row>>)
    ensures Table(a + b) == Table(a) + Table(b)
    decreases |b|
  {
    if b == [] {
      assert a + b == a && Table(a) + map[] == Table(a);
    } else {
      var n := |b| - 1;
      assert (a + b)[..|a + b| - 1] == a + b[..n] && (a + b)[|a + b| - 1] == b[n];
      TableConcat(a, b[..n]);
      if b[n].Some? {
        var row := b[n].value;
        assert Table(a) + Table(b[..n])[row.id := row.status] == (Table(a) + Table(b[..n]))[row.id := row.status];
      }
    }
  }

  /* ---- the printed table ---- */

  datatype Slice = Slice(id: nat, part: Option<nat>, title: string, goal: string, status: string, depends: string)

  function Decimal(n: nat): string {
    (if n < 10 then "" else Decimal(n / 10)) + ['0' + (n % 10) as char]
  }

  function Number(s: Slice): string {
    Decimal(s.id) + if s.part.Some? then "." + Decimal(s.part.value) else ""
  }

  function Front(s: Slice): string {
    Number(s) + " " + [DASH]
  }

  function Cells(s: Slice): seq<string> {
    ["", " " + (Front(s) + (" " + s.title + " ")), " " + s.goal + " ", " " + s.status + " ", " " + s.depends + " ", ""]
  }

  function PrintRow(s: Slice): string {
    Join(Cells(s), '|')
  }

  function Print(slices: seq<Slice>): string {
    if slices == [] then "" else PrintRow(slices[0]) + "\n" + Print(slices[1..])
  }

  function MapOf(slices: seq<Slice>): map<nat, string> {
    if slices == [] then map[] else map[slices[0].id := slices[0].status] + MapOf(slices[1..])
  }

  predicate Plain(s: string) {
    forall i | 0 <= i < |s| :: s[i] != '|' && !Breaks(s[i])
  }

  predicate Trimmed(s: string) {
    s != "" ==> !Space(s[0]) && !Space(s[|s| - 1])
  }

  predicate Printable(s: Slice) {
    Plain(s.title) && Plain(s.goal) && Plain(s.status) && Trimmed(s.status) && Plain(s.depends)
  }

  lemma DigitOf(d: nat)
    requires d < 10
    ensures var c := '0' + d as char; Digit(c) && (c - '0') as nat == d
  {
  }

  lemma {:induction false} DecimalDigits(n: nat)
    ensures Decimal(n) != "" && forall i | 0 <= i < |Decimal(n)| :: Digit(Decimal(n)[i])
    ensures Value(Decimal(n)) == n
  {
    var front := if n < 10 then "" else Decimal(n / 10);
    var c := '0' + (n % 10) as char;
    DigitOf(n % 10);
    if n < 10 {
      assert Value("") == 0;
    } else {
      DecimalDigits(n / 10);
    }
    AppendDigit(front, c);
    assert Decimal(n) == front + [c];
  }

  lemma AppendDigit(front: string, c: char)
    requires Digit(c) && forall i | 0 <= i < |front| :: Digit(front[i])
    ensures forall i | 0 <= i < |front + [c]| :: Digit((front + [c])[i])
    ensures Value(front + [c]) == Value(front) * 10 + (c - '0') as nat
  {
    assert (front + [c])[..|front|] == front;
  }

  lemma {:induction false} StripRightKeeps(p: string, t: string)
    requires p != "" && !Space(p[|p| - 1])
    ensures p <= StripRight(p + t)
    decreases |t|
  {
    if t == "" {
      assert p + t == p;
    } else {
      var s := p + t;
      assert s[..|s| - 1] == p + t[..|t| - 1];
      StripRightKeeps(p, t[..|t| - 1]);
    }
  }

  lemma SliceIdAt(field: string, n: nat, m: nat)
    requires 0 < n <= m && m + 1 < |field| && field[m] == ' ' && field[m + 1] == DASH
    requires forall i | 0 <= i < n :: Digit(field[i])
    requires n == m || (field[n] == '.' && n + 1 < m && forall i | n + 1 <= i < m :: Digit(field[i]))
    ensures SliceId(field) == Some(Value(field[..n]))
  {
    assert SkipDigits(field, 0) == n;
    assert n < m ==> SkipDigits(field, n + 1) == m;
    assert Space(' ') && !Space(DASH);
    assert SkipBlanks(field, m) == m + 1;
  }

  lemma WholeNumberReads(d: string, field: string)
    requires d != "" && forall i | 0 <= i < |d| :: Digit(d[i])
    requires d + " " + [DASH] <= field
    ensures SliceId(field) == Some(Value(d))
  {
    var f, n := d + " " + [DASH], |d|;
    assert forall i | 0 <= i < n + 2 :: field[i] == f[i];
    assert forall i | 0 <= i < n :: f[i] == d[i];
    assert field[..n] == d;
    SliceIdAt(field, n, n);
  }

  lemma DigitsInside(field: string, n: nat, e: string)
    requires n <= |field| && e <= field[n..] && forall i | 0 <= i < |e| :: Digit(e[i])
    ensures forall i | n <= i < n + |e| :: Digit(field[i])
  {
    forall i | n <= i < n + |e| ensures Digit(field[i]) {
      assert field[n..][i - n] == e[i - n];
    }
  }

  lemma PrefixSplit(a: string, b: string, s: string, i: nat)
    requires i <= |s| && a + b <= s[i..]
    ensures i + |a| <= |s| && a <= s[i..] && b <= s[i + |a|..]
  {
    assert s[i..][..|a| + |b|] == a + b;
    assert s[i..][|a|..] == s[i + |a|..];
  }

  lemma PartNumberShape(d: string, e: string, field: string, n: nat, m: nat)
    requires n == |d| && m == n + 1 + |e|
    requires d + ("." + (e + (" " + [DASH]))) <= field[0..]
    ensures m + 1 < |field| && d <= field[0..] && e <= field[n + 1..]
    ensures field[n] == '.' && field[m] == ' ' && field[m + 1] == DASH
  {
    var end := " " + [DASH];
    PrefixSplit(d, "." + (e + end), field, 0);
    PrefixSplit(".", e + end, field, n);
    PrefixSplit(e, end, field, n + 1);
    assert field[n] == field[n..][0];
    assert field[m] == field[m..][0] && field[m + 1] == field[m..][1];
  }

  lemma PartNumberReads(d: string, e: string, field: string)
    requires d != "" && forall i | 0 <= i < |d| :: Digit(d[i])
    requires e != "" && forall i | 0 <= i < |e| :: Digit(e[i])
    requires d + ("." + (e + (" " + [DASH]))) <= field[0..]
    ensures SliceId(field) == Some(Value(d))
  {
    var n, m := |d|, |d| + 1 + |e|;
    PartNumberShape(d, e, field, n, m);
    DigitsInside(field, 0, d);
    DigitsInside(field, n + 1, e);
    assert field[..n] == d;
    SliceIdAt(field, n, m);
  }

  /** The number is read off the front of the field, whatever follows the dash. */
  lemma SliceIdReads(s: Slice, field: string)
    requires Front(s) <= field
    ensures SliceId(field) == Some(s.id)
  {
    DecimalDigits(s.id);
    if s.part.Some? {
      DecimalDigits(s.part.value);
      assert Front(s) == Decimal(s.id) + ("." + (Decimal(s.part.value) + (" " + [DASH])));
      assert field[0..] == field;
      PartNumberReads(Decimal(s.id), Decimal(s.part.value), field);
    } else {
      assert Front(s) == Decimal(s.id) + " " + [DASH];
      WholeNumberReads(Decimal(s.id), field);
    }
  }

  lemma NumberIsPlain(s: Slice)
    ensures Number(s) != "" && !Space(Number(s)[0]) && Plain(Number(s))
  {
    DecimalDigits(s.id);
    if s.part.Some? {
      DecimalDigits(s.part.value);
    }
  }

  lemma FirstCell(s: Slice)
    ensures SliceId(Strip(" " + (Front(s) + (" " + s.title + " ")))) == Some(s.id)
  {
    NumberIsPlain(s);
    var rest := " " + s.title + " ";
    assert Front(s)[0] == Number(s)[0];
    StripLeftBlank(" ", Front(s) + rest);
    StripRightKeeps(Front(s), rest);
    SliceIdReads(s, Strip(" " + (Front(s) + rest)));
  }

  lemma StatusCell(status: string)
    requires Trimmed(status)
    ensures Strip(" " + status + " ") == status
  {
    if status == "" {
      assert " " + status + " " == "  ";
      assert StripLeft("  ") == StripLeft("  "[1..]) == StripLeft(" ") == StripLeft(" "[1..]) == "";
    } else {
      StripBlank(" ", status, " ");
    }
  }

  lemma CellsArePlain(s: Slice)
    requires Printable(s)
    ensures forall i | 0 <= i < |Cells(s)| :: Plain(Cells(s)[i])
  {
    NumberIsPlain(s);
    assert Plain(Front(s)) && Plain(" " + s.title + " ");
  }

  lemma PrintedRowParses(s: Slice)
    requires Printable(s)
    ensures RowOf(PrintRow(s)) == Some(Row(s.id, s.status))
  {
    CellsArePlain(s);
    SplitJoin(Cells(s), '|');
    assert PrintRow(s) == "" + ['|'] + Join(Cells(s)[1..], '|');
    FirstCell(s);
    StatusCell(s.status);
  }

  lemma {:induction false} JoinIsUnbroken(parts: seq<string>, c: char)
    requires !Breaks(c) && forall i | 0 <= i < |parts| :: Plain(parts[i])
    ensures forall j | 0 <= j < |Join(parts, c)| :: !Breaks(Join(parts, c)[j])
    decreases |parts|
  {
    if |parts| <= 1 {
    } else {
      JoinIsUnbroken(parts[1..], c);
    }
  }

  lemma PrintedRowIsOneLine(s: Slice)
    requires Printable(s)
    ensures Lines(PrintRow(s) + "\n") == [PrintRow(s)]
  {
    CellsArePlain(s);
    JoinIsUnbroken(Cells(s), '|');
    SingleLine(PrintRow(s));
  }

  lemma PrintedRowTable(s: Slice)
    requires Printable(s)
    ensures Table(Each(RowOf, Lines(PrintRow(s) + "\n"))) == map[s.id := s.status]
  {
    PrintedRowIsOneLine(s);
    PrintedRowParses(s);
    var rows := Each(RowOf, [PrintRow(s)]);
    assert rows == [Some(Row(s.id, s.status))];
    assert rows[..0] == [];
  }

  /** The printed table parses back to the statuses it was printed from, wherever a number is repeated
      to the last one. */
  lemma {:induction false} PrintedTable(slices: seq<Slice>)
    requires forall s | s in slices :: Printable(s)
    ensures Table(Each(RowOf, Lines(Print(slices)))) == MapOf(slices)
    decreases |slices|
  {
    if slices == [] {
    } else {
      var head, rest := PrintRow(slices[0]) + "\n", Print(slices[1..]);
      PrintedRowTable(slices[0]);
      PrintedTable(slices[1..]);
      LinesConcat(head, rest);
      EachConcat(RowOf, Lines(head), Lines(rest));
      TableConcat(Each(RowOf, Lines(head)), Each(RowOf, Lines(rest)));
    }
  }

  lemma RoundTrip(slices: seq<Slice>)
    requires slices != [] && forall s | s in slices :: Printable(s)
    ensures Parse(Print(slices)) == Some(MapOf(slices))
  {
    PrintedTable(slices);
    assert slices[0].id in MapOf(slices);
  }

  /** With distinct numbers every Slice keeps its own status, and there are no others. */
  lemma {:induction false} DistinctRowsKept(slices: seq<Slice>)
    requires forall i, j | 0 <= i < j < |slices| :: slices[i].id != slices[j].id
    ensures forall id :: id in MapOf(slices) <==> exists i | 0 <= i < |slices| :: slices[i].id == id
    ensures forall i | 0 <= i < |slices| :: slices[i].id in MapOf(slices) && MapOf(slices)[slices[i].id] == slices[i].status
    decreases |slices|
  {
    if slices == [] {
    } else {
      var head, rest := slices[0], slices[1..];
      forall i, j | 0 <= i < j < |rest| ensures rest[i].id != rest[j].id {
        assert slices[i + 1].id != slices[j + 1].id;
      }
      DistinctRowsKept(rest);
      forall id | id in MapOf(slices) ensures exists i | 0 <= i < |slices| :: slices[i].id == id {
        if id in MapOf(rest) {
          var j :| 0 <= j < |rest| && rest[j].id == id;
          assert slices[j + 1].id == id;
        } else {
          assert slices[0].id == id;
        }
      }
      forall i | 0 <= i < |slices| ensures slices[i].id in MapOf(slices) && MapOf(slices)[slices[i].id] == slices[i].status {
        if i > 0 {
          assert rest[i - 1] == slices[i];
        } else {
          forall j | 0 <= j < |rest| ensures rest[j].id != head.id {
            assert slices[0].id != slices[j + 1].id;
          }
        }
      }
    }
  }

  /** Dotted Slices share the row of their whole number: the last part's status hides the others'. */
  lemma PartsShareOneRow(a: Slice, b: Slice)
    requires Printable(a) && Printable(b) && a.id == b.id && a.part != b.part
    ensures Parse(Print([a, b])) == Some(map[b.id := b.status])
  {
    RoundTrip([a, b]);
    assert [a, b][1..] == [b] && [b][1..] == [];
    assert MapOf([b]) == map[b.id := b.status];
    assert MapOf([a, b]) == map[b.id := b.status];
  }

  /* ---- which lines are rows ---- */

  predicate Digits(s: string) {
    s != "" && forall i | 0 <= i < |s| :: s[i] in {'0', '1', '2', '3', '4', '5', '6', '7', '8', '9'}
  }

  lemma DigitIff(c: char)
    ensures Digit(c) <==> c in {'0', '1', '2', '3', '4', '5', '6', '7', '8', '9'}
  {
    assert (c as int) as char == c;
  }

  lemma DigitsIff(s: string)
    ensures Digits(s) <==> s != "" && forall i | 0 <= i < |s| :: Digit(s[i])
  {
    forall c: char ensures Digit(c) <==> c in {'0', '1', '2', '3', '4', '5', '6', '7', '8', '9'} {
      DigitIff(c);
    }
  }

  /** A heading: a number, nothing or a dot with a second number, at least one blank, a dash, anything. */
  datatype Heading = Heading(digits: string, part: string, gap: string, rest: string)

  ghost predicate Heads(field: string, h: Heading) {
    && field == h.digits + h.part + h.gap + [DASH] + h.rest
    && Digits(h.digits) && (h.part == "" || (h.part[0] == '.' && Digits(h.part[1..])))
    && h.gap != "" && Blank(h.gap)
  }

  lemma HeadingIsRead(field: string, h: Heading)
    requires Heads(field, h)
    ensures forall i | 0 <= i < |h.digits| :: Digit(h.digits[i])
    ensures SliceId(field) == Some(Value(h.digits))
  {
    var n, m := |h.digits|, |h.digits| + |h.part|;
    var k := m + |h.gap|;
    DigitsIff(h.digits);
    assert forall i | 0 <= i < n :: field[i] == h.digits[i];
    assert forall i | n <= i < m :: field[i] == h.part[i - n];
    assert forall i | m <= i < k :: field[i] == h.gap[i - m];
    assert field[k] == DASH;
    assert field[..n] == h.digits;
    if h.part != "" {
      DigitsIff(h.part[1..]);
      assert forall i | n + 1 <= i < m :: field[i] == h.part[1..][i - n - 1];
    }
    HeadingAt(field, n, m, k);
  }

  lemma HeadingAt(field: string, n: nat, m: nat, k: nat)
    requires 0 < n <= m < k < |field| && field[k] == DASH
    requires forall i | 0 <= i < n :: Digit(field[i])
    requires n == m || (field[n] == '.' && n + 1 < m && forall i | n + 1 <= i < m :: Digit(field[i]))
    requires forall i | m <= i < k :: Space(field[i])
    ensures SliceId(field) == Some(Value(field[..n]))
  {
    assert Space(field[m]) && !Digit(field[m]);
    SkipDigitsIs(field, 0, n);
    if n < m {
      SkipDigitsIs(field, n + 1, m);
    }
    SkipBlanksIs(field, m, k);
  }

  lemma SkipDigitsIs(s: string, i: nat, n: nat)
    requires i <= n < |s| && (forall j | i <= j < n :: Digit(s[j])) && !Digit(s[n])
    ensures SkipDigits(s, i) == n
  {
    var m := SkipDigits(s, i);
  }

  lemma ReadHeading(field: string) returns (h: Heading)
    requires SliceId(field).Some?
    ensures Heads(field, h)
  {
    var n := SkipDigits(field, 0);
    var dotted := n < |field| && field[n] == '.' && SkipDigits(field, n + 1) > n + 1;
    var m := if dotted then SkipDigits(field, n + 1) else n;
    var k := SkipBlanks(field, m);
    h := Heading(field[..n], field[n..m], field[m..k], field[k + 1..]);
    DigitsIff(field[..n]);
    DigitsIff(field[n..m][if dotted then 1 else 0..]);
    Cut(field, n, m, k);
  }

  lemma Cut(s: string, n: nat, m: nat, k: nat)
    requires n <= m <= k < |s|
    ensures s == s[..n] + s[n..m] + s[m..k] + [s[k]] + s[k + 1..]
  {
  }

  /** A field carries a number exactly when it is a heading, and the number is its first one. */
  lemma SliceIdIff(field: string, id: nat)
    ensures SliceId(field) == Some(id) <==>
              exists h :: Heads(field, h) && (forall i | 0 <= i < |h.digits| :: Digit(h.digits[i])) && Value(h.digits) == id
  {
    if SliceId(field) == Some(id) {
      var h := ReadHeading(field);
      HeadingIsRead(field, h);
    }
    forall h | Heads(field, h) ensures SliceId(field) == Some(Value(h.digits)) {
      HeadingIsRead(field, h);
    }
  }

  /** The cells of a table line: bars stand between them and in none of them, and nothing before the first. */
  ghost predicate Tabulates(line: string, cells: seq<string>) {
    && line == Join(cells, '|') && |cells| >= 4 && cells[0] == ""
    && forall i | 0 <= i < |cells| :: '|' !in cells[i]
  }

  /** A line is the row of a Slice exactly when it opens with a bar, its first cell is a heading with that
      number, and a third cell, closed or not, holds that status. */
  lemma RowIff(line: string, row: Row)
    ensures RowOf(line) == Some(row) <==>
              exists cells :: Tabulates(line, cells) && SliceId(Strip(cells[1])) == Some(row.id) && Strip(cells[3]) == row.status
  {
    forall cells | Tabulates(line, cells)
      ensures line != "" && line[0] == '|' && Split(line, '|') == cells
    {
      SplitJoin(cells, '|');
      OpensWithBar(cells);
    }
    if RowOf(line).Some? {
      JoinSplit(line, '|');
      assert Tabulates(line, Split(line, '|'));
    }
  }

  lemma OpensWithBar(cells: seq<string>)
    requires |cells| >= 4 && cells[0] == ""
    ensures Join(cells, '|') != "" && Join(cells, '|')[0] == '|'
  {
    assert Join(cells, '|') == "" + ['|'] + Join(cells[1..], '|');
  }
}
