/** The deployment-owned KEY=VALUE file: its line parser, and a printer that the parser inverts. */
module EnvironmentFile {
  import opened Options
  import opened PythonText

  /* ---- parsing ---- */

  predicate NameStart(c: char) {
    'A' <= c <= 'Z' || 'a' <= c <= 'z' || c == '_'
  }

  predicate ValidName(name: string) {
    name != "" && NameStart(name[0]) && forall i | 1 <= i < |name| :: NameStart(name[i]) || '0' <= name[i] <= '9'
  }

  datatype Line = Ignored | Pair(name: string, value: string) | NotKeyValue | BadName

  function Unquote(v: string): string {
    if |v| >= 2 && v[0] == v[|v| - 1] && v[0] in {'\'', '"'} then v[1..|v| - 1] else v
  }

  /** A line that is neither blank nor a comment, without its export prefix. */
  function ParsePair(body: string): Line {
    var n := Find(body, '=');
    if n == |body| then NotKeyValue
    else if !ValidName(Strip(body[..n])) then BadName
    else Pair(Strip(body[..n]), Unquote(Strip(body[n + 1..])))
  }

  function ParseLine(raw: string): Line {
    var line := Strip(raw);
    if line == "" || line[0] == '#' then Ignored
    else ParsePair(if "export " <= line then StripLeft(line[7..]) else line)
  }

  datatype Parsed = Loaded(values: map<string, string>) | Malformed(line: nat, badName: bool) | Unreadable

  /** One line applied to what the earlier lines gave; number is its own 1-based number. */
  function After(before: Parsed, line: Line, number: nat): Parsed {
    if !before.Loaded? then before
    else match line
         case Ignored => before
         case Pair(name, value) => Loaded(before.values[name := value])
         case NotKeyValue => Malformed(number, false)
         case BadName => Malformed(number, true)
  }

  function Fold(lines: seq<Line>): Parsed
    decreases |lines|
  {
    if lines == [] then Loaded(map[]) else After(Fold(lines[..|lines| - 1]), lines[|lines| - 1], |lines|)
  }

  function ParseLines(raws: seq<string>): (lines: seq<Line>)
  {
    Each(ParseLine, raws)
  }

  function Parse(text: string): Parsed {
    Fold(ParseLines(Lines(text)))
  }

  lemma FoldStep(lines: seq<Line>, i: nat)
    requires i < |lines|
    ensures Fold(lines[..i + 1]) == After(Fold(lines[..i]), lines[i], i + 1)
  {
    assert lines[..i + 1][..i] == lines[..i];
  }

  lemma {:induction false} FailureStays(lines: seq<Line>, n: nat)
    requires n <= |lines| && !Fold(lines[..n]).Loaded?
    ensures Fold(lines) == Fold(lines[..n])
    decreases |lines|
  {
    if n < |lines| {
      var shorter := lines[..|lines| - 1];
      assert shorter[..n] == lines[..n];
      FailureStays(shorter, n);
    } else {
      assert lines[..n] == lines;
    }
  }

  /** The reader itself: a loop over the numbered lines that fills a dictionary or stops. */
  method Load(content: Option<string>) returns (parsed: Parsed)
    ensures parsed == if content.None? then Unreadable else Parse(content.value)
  {
    if content.None? {
      return Unreadable;
    }
    var raws := Lines(content.value);
    ghost var lines := ParseLines(raws);
    var values := map[];
    for i := 0 to |raws|
      invariant Fold(lines[..i]) == Loaded(values)
    {
      FoldStep(lines, i);
      var line := ParseLine(raws[i]);
      assert line == lines[i];
      match line
      case Ignored =>
      case Pair(name, value) => values := values[name := value];
      case NotKeyValue =>
        FailureStays(lines, i + 1);
        return Malformed(i + 1, false);
      case BadName =>
        FailureStays(lines, i + 1);
        return Malformed(i + 1, true);
    }
    assert lines[..|raws|] == lines;
    parsed := Loaded(values);
  }

  /* ---- what the parser promises ---- */

  predicate Bad(line: Line) {
    line.NotKeyValue? || line.BadName?
  }

  /** line n, counted from 1, is the first malformed one. */
  predicate FirstBad(lines: seq<Line>, n: nat) {
    1 <= n <= |lines| && Bad(lines[n - 1]) && forall i | 0 <= i < n - 1 :: !Bad(lines[i])
  }

  /** A failure names the first malformed line by its number and its kind, and there is a failure
      exactly when some line is malformed. */
  lemma {:induction false} ReportsFirstMalformedLine(lines: seq<Line>)
    ensures !Fold(lines).Unreadable?
    ensures Fold(lines).Loaded? <==> forall i | 0 <= i < |lines| :: !Bad(lines[i])
    ensures Fold(lines).Malformed? ==>
              && FirstBad(lines, Fold(lines).line)
              && Fold(lines).badName == lines[Fold(lines).line - 1].BadName?
    decreases |lines|
  {
    if lines == [] {
    } else {
      var n := |lines| - 1;
      var shorter := lines[..n];
      ReportsFirstMalformedLine(shorter);
      assert forall i | 0 <= i < n :: shorter[i] == lines[i];
      assert Fold(lines) == After(Fold(shorter), lines[n], n + 1);
    }
  }

  predicate Sets(line: Line, name: string) {
    line.Pair? && line.name == name
  }

  /** Line i is the last one that sets name. */
  predicate LastSets(lines: seq<Line>, name: string, i: nat) {
    i < |lines| && Sets(lines[i], name) && forall j | i < j < |lines| :: !Sets(lines[j], name)
  }

  lemma LastOfLonger(lines: seq<Line>, name: string, n: nat)
    requires |lines| == n + 1
    ensures if Sets(lines[n], name) then forall i: nat :: LastSets(lines, name, i) <==> i == n
            else forall i: nat :: LastSets(lines, name, i) <==> LastSets(lines[..n], name, i)
    ensures forall i: nat | LastSets(lines[..n], name, i) :: lines[..n][i] == lines[i]
  {
    var shorter := lines[..n];
    forall i: nat | !Sets(lines[n], name) && LastSets(shorter, name, i) ensures LastSets(lines, name, i) {
      forall j | i < j < |lines| ensures !Sets(lines[j], name) {
        assert j < n ==> shorter[j] == lines[j];
      }
    }
    forall i: nat | !Sets(lines[n], name) && LastSets(lines, name, i) ensures LastSets(shorter, name, i) {
      forall j | i < j < |shorter| ensures !Sets(shorter[j], name) {
        assert shorter[j] == lines[j];
      }
    }
  }

  /** Every variable has the value of the last line that sets it, and no other variable exists. */
  lemma {:induction false} LastLineWins(lines: seq<Line>, name: string)
    requires Fold(lines).Loaded?
    ensures name in Fold(lines).values <==> exists i: nat :: LastSets(lines, name, i)
    ensures forall i: nat | LastSets(lines, name, i) ::
              name in Fold(lines).values && Fold(lines).values[name] == lines[i].value
    decreases |lines|
  {
    if lines == [] {
    } else {
      var n := |lines| - 1;
      var shorter := lines[..n];
      assert Fold(lines) == After(Fold(shorter), lines[n], n + 1);
      LastLineWins(shorter, name);
      LastOfLonger(lines, name, n);
      if Sets(lines[n], name) {
        assert LastSets(lines, name, n);
      } else {
        assert forall i: nat :: LastSets(lines, name, i) <==> LastSets(shorter, name, i);
      }
    }
  }

  /** The second file overrides the first; an error in it is reported at its place in the whole. */
  function Combined(first: Parsed, second: Parsed, offset: nat): Parsed {
    if !first.Loaded? then first
    else if second.Loaded? then Loaded(first.values + second.values)
    else if second.Malformed? then second.(line := second.line + offset)
    else second
  }

  lemma CombinedAfter(first: Parsed, second: Parsed, offset: nat, line: Line, number: nat)
    ensures After(Combined(first, second, offset), line, offset + number)
         == Combined(first, After(second, line, number), offset)
  {
    if first.Loaded? && second.Loaded? && line.Pair? {
      assert first.values + second.values[line.name := line.value] == (first.values + second.values)[line.name := line.value];
    }
  }

  lemma {:induction false} FoldConcat(a: seq<Line>, b: seq<Line>)
    ensures Fold(a + b) == Combined(Fold(a), Fold(b), |a|)
    decreases |b|
  {
    if b == [] {
      assert a + b == a;
      if Fold(a).Loaded? {
        assert Fold(a).values + map[] == Fold(a).values;
      }
    } else {
      var n := |b| - 1;
      assert (a + b)[..|a + b| - 1] == a + b[..n] && (a + b)[|a + b| - 1] == b[n];
      FoldConcat(a, b[..n]);
      CombinedAfter(Fold(a), Fold(b[..n]), |a|, b[n], n + 1);
    }
  }

  /** Reading one text after another is reading the first, then letting the second override it. */
  lemma LoadingIsAHomomorphism(a: string, b: string)
    requires a != "" ==> a[|a| - 1] == '\n'
    ensures Parse(a + b) == Combined(Parse(a), Parse(b), |Lines(a)|)
  {
    LinesConcat(a, b);
    FoldConcat(ParseLines(Lines(a)), ParseLines(Lines(b)));
    EachConcat(ParseLine, Lines(a), Lines(b));
  }

  /* ---- the printer ---- */

  datatype Entry = Entry(name: string, value: string)

  predicate Printable(e: Entry) {
    ValidName(e.name) && forall c | c in e.value :: !Breaks(c)
  }

  function PrintEntry(e: Entry): string {
    e.name + "=\"" + e.value + "\""
  }

  function Print(entries: seq<Entry>): string {
    if entries == [] then "" else PrintEntry(entries[0]) + "\n" + Print(entries[1..])
  }

  /** Later entries override earlier ones. */
  function MapOf(entries: seq<Entry>): map<string, string> {
    if entries == [] then map[] else map[entries[0].name := entries[0].value] + MapOf(entries[1..])
  }

  lemma NameCharacters(name: string)
    requires ValidName(name)
    ensures forall i | 0 <= i < |name| :: !Space(name[i]) && name[i] != '=' && name[i] != '#'
  {
  }

  /* ---- what each line says ---- */

  const UPPER: set<char> := {
    'A', 'B', 'C', 'D', 'E', 'F', 'G', 'H', 'I', 'J', 'K', 'L', 'M', 'N', 'O', 'P', 'Q', 'R', 'S', 'T', 'U', 'V', 'W',
    'X', 'Y', 'Z'}
  const LOWER: set<char> := {
    'a', 'b', 'c', 'd', 'e', 'f', 'g', 'h', 'i', 'j', 'k', 'l', 'm', 'n', 'o', 'p', 'q', 'r', 's', 't', 'u', 'v', 'w',
    'x', 'y', 'z'}
  const LETTERS: set<char> := UPPER + LOWER + {'_'}
  const DIGITS: set<char> := {'0', '1', '2', '3', '4', '5', '6', '7', '8', '9'}

  lemma UpperIff(c: char)
    ensures 'A' <= c <= 'Z' <==> c in UPPER
  {
    assert (c as int) as char == c;
  }

  lemma LowerIff(c: char)
    ensures 'a' <= c <= 'z' <==> c in LOWER
  {
    assert (c as int) as char == c;
  }

  lemma LetterIff(c: char)
    ensures NameStart(c) <==> c in LETTERS
  {
    UpperIff(c);
    LowerIff(c);
  }

  lemma DigitIff(c: char)
    ensures '0' <= c <= '9' <==> c in DIGITS
  {
    assert (c as int) as char == c;
  }

  /** A name is a letter or an underscore, then letters, underscores and digits. */
  lemma ValidNameIff(name: string)
    ensures ValidName(name) <==>
              name != "" && name[0] in LETTERS && forall i | 1 <= i < |name| :: name[i] in LETTERS + DIGITS
  {
    forall c: char ensures NameStart(c) <==> c in LETTERS {
      LetterIff(c);
    }
    forall c: char ensures '0' <= c <= '9' <==> c in DIGITS {
      DigitIff(c);
    }
  }

  /** v is u between a pair of equal quotes. */
  predicate Quotes(v: string, u: string) {
    v == "\"" + u + "\"" || v == "'" + u + "'"
  }

  predicate Trimmed(s: string) {
    s == "" || (!Space(s[0]) && !Space(s[|s| - 1]))
  }

  /** The written text v stands for the value u: one pair of equal quotes is taken off, and nothing else. */
  ghost predicate StandsFor(v: string, u: string) {
    Quotes(v, u) || (v == u && Trimmed(v) && forall w :: !Quotes(v, w))
  }

  lemma UnquoteIff(v: string, u: string)
    requires Trimmed(v)
    ensures Unquote(v) == u <==> StandsFor(v, u)
  {
    if |v| >= 2 {
      assert v == [v[0]] + v[1..|v| - 1] + [v[|v| - 1]];
    }
    forall w | Quotes(v, w) ensures w == v[1..|v| - 1] && Unquote(v) == w {
    }
    if |v| >= 2 && v[0] == v[|v| - 1] && v[0] in {'\'', '"'} {
      assert Quotes(v, v[1..|v| - 1]);
    }
  }

  lemma StandsForIsTrimmed(v: string, u: string)
    requires StandsFor(v, u)
    ensures Trimmed(v)
  {
  }

  /** An assignment laid out with blanks before and after its equals sign. */
  function Spread(name: string, x: string, y: string, v: string): string {
    name + (x + "=" + y + v)
  }

  /** Blanks behind the equals sign of an empty value are blanks at the end. */
  lemma EmptyValue(front: string, name: string, x: string, y: string, b: string)
    ensures front + Spread(name, x, "", "") + (y + b) == front + Spread(name, x, y, "") + b
  {
    var s := Spread(name, x, "", "");
    assert x + "=" + y + "" == x + "=" + "" + "" + y;
    assert Spread(name, x, y, "") == s + y;
    assert front + s + (y + b) == front + (s + y) + b;
  }

  lemma SpreadParses(name: string, x: string, y: string, v: string, u: string)
    requires ValidName(name) && Blank(x) && Blank(y) && StandsFor(v, u)
    ensures ParsePair(Spread(name, x, y, v)) == Pair(name, u)
  {
    var s := Spread(name, x, y, v);
    var n := |name| + |x|;
    NameCharacters(name);
    assert s[..n] == name + x && s[n] == '=' && s[n + 1..] == y + v;
    assert forall i | 0 <= i < n :: s[i] == (name + x)[i];
    FindIs(s, '=', n);
    StripBlank("", name, x);
    assert "" + name + x == name + x;
    StandsForIsTrimmed(v, u);
    StripTrimmed(y, v, "");
    assert y + v + "" == y + v;
    UnquoteIff(v, u);
  }

  /** The prefix can only be taken for a variable that is itself called export. */
  lemma ExportIsTheName(name: string, x: string, y: string, v: string)
    requires ValidName(name) && Blank(x)
    ensures "export " <= Spread(name, x, y, v) <==> name == "export" && x != "" && x[0] == ' '
  {
    var s, n := Spread(name, x, y, v), |name|;
    NameCharacters(name);
    assert forall i | 0 <= i < n :: s[i] == name[i];
    assert forall i | n <= i < n + |x| :: s[i] == x[i - n];
    assert s[n + |x|] == '=';
    if "export " <= s {
      assert forall i | 0 <= i < 7 :: s[i] == "export "[i];
      assert s[6] == ' ';
      assert n <= 6;
      assert s[0] == 'e' && s[1] == 'x' && s[2] == 'p' && s[3] == 'o' && s[4] == 'r' && s[5] == 't';
      assert n == 6;
      assert name == s[..6] == "export";
    }
    if name == "export" && x != "" && x[0] == ' ' {
      assert s[..7] == "export ";
    }
  }

  lemma SpreadEdges(name: string, x: string, y: string, v: string, u: string)
    requires ValidName(name) && StandsFor(v, u) && (v == "" ==> y == "")
    ensures var s := Spread(name, x, y, v); s != "" && Trimmed(s) && s[0] != '#'
  {
    NameCharacters(name);
    var s := Spread(name, x, y, v);
    assert s[0] == name[0];
    assert s[|s| - 1] == if v == "" then '=' else v[|v| - 1];
    StandsForIsTrimmed(v, u);
  }

  lemma LineIs(a: string, s: string, b: string)
    requires Blank(a) && Blank(b) && s != "" && Trimmed(s) && s[0] != '#'
    ensures ParseLine(a + s + b) == ParsePair(if "export " <= s then StripLeft(s[7..]) else s)
  {
    StripBlank(a, s, b);
  }

  lemma PlainLineOf(a: string, name: string, x: string, y: string, v: string, u: string, b: string)
    requires ValidName(name) && Blank(a) && Blank(x) && Blank(y) && Blank(b)
    requires StandsFor(v, u) && (v == "" ==> y == "") && !(name == "export" && x != "" && x[0] == ' ')
    ensures ParseLine(a + Spread(name, x, y, v) + b) == Pair(name, u)
  {
    var s := Spread(name, x, y, v);
    SpreadEdges(name, x, y, v, u);
    LineIs(a, s, b);
    SpreadParses(name, x, y, v, u);
    ExportIsTheName(name, x, y, v);
  }

  /** Blanks around the line and around the equals sign never matter. What the written value stands for
      is what the variable gets: quotes, equals signs and edge blanks inside a pair of quotes survive. */
  lemma PlainLineParses(a: string, name: string, x: string, y: string, v: string, u: string, b: string)
    requires ValidName(name) && Blank(a) && Blank(x) && Blank(y) && Blank(b)
    requires StandsFor(v, u) && !(name == "export" && x != "" && x[0] == ' ')
    ensures ParseLine(a + Spread(name, x, y, v) + b) == Pair(name, u)
  {
    if v == "" {
      PlainLineOf(a, name, x, "", v, u, y + b);
      EmptyValue(a, name, x, y, b);
    } else {
      PlainLineOf(a, name, x, y, v, u, b);
    }
  }

  lemma ExportPlace(c: string, t: string)
    requires t != ""
    ensures var line := "export " + c + t;
            line[0] == 'e' && line[|line| - 1] == t[|t| - 1] && "export " <= line && line[7..] == c + t
  {
  }

  lemma ExportLineIs(a: string, c: string, t: string, b: string)
    requires Blank(a) && Blank(c) && Blank(b) && t != "" && Trimmed(t)
    ensures ParseLine(a + ("export " + c + t) + b) == ParsePair(t)
  {
    ExportPlace(c, t);
    LineIs(a, "export " + c + t, b);
    StripLeftBlank(c, t);
  }

  lemma NoNameInFront(y: string, v: string)
    ensures ParsePair("=" + y + v) == BadName
  {
    var rest := "=" + y + v;
    assert rest[0] == '=' && rest[..0] == "";
    FindIs(rest, '=', 0);
  }

  lemma ExportSpread(x: string, y: string, v: string)
    requires x != "" && x[0] == ' '
    ensures Spread("export", x, y, v) == "export " + x[1..] + ("=" + y + v)
  {
    assert x == " " + x[1..];
  }

  lemma ExportSpreadOf(a: string, x: string, y: string, v: string, b: string)
    requires Blank(a) && Blank(x) && x != "" && x[0] == ' ' && Blank(b) && Trimmed(v) && (v == "" ==> y == "")
    ensures ParseLine(a + Spread("export", x, y, v) + b) == BadName
  {
    var rest := "=" + y + v;
    assert rest[0] == '=' && rest[|rest| - 1] == if v == "" then '=' else v[|v| - 1];
    ExportSpread(x, y, v);
    ExportLineIs(a, x[1..], rest, b);
    NoNameInFront(y, v);
  }

  /** That exception is real: a variable called export loses its name to the prefix. */
  lemma ExportCannotBeSpread(a: string, x: string, y: string, v: string, b: string)
    requires Blank(a) && Blank(x) && x != "" && x[0] == ' ' && Blank(y) && Blank(b) && Trimmed(v)
    ensures ParseLine(a + Spread("export", x, y, v) + b) == BadName
  {
    if v == "" {
      ExportSpreadOf(a, x, "", v, y + b);
      EmptyValue(a, "export", x, y, b);
    } else {
      ExportSpreadOf(a, x, y, v, b);
    }
  }

  lemma ExportedLineOf(a: string, c: string, name: string, x: string, y: string, v: string, u: string, b: string)
    requires ValidName(name) && Blank(a) && Blank(c) && Blank(x) && Blank(y) && Blank(b)
    requires StandsFor(v, u) && (v == "" ==> y == "")
    ensures ParseLine(a + ("export " + c + Spread(name, x, y, v)) + b) == Pair(name, u)
  {
    SpreadEdges(name, x, y, v, u);
    ExportLineIs(a, c, Spread(name, x, y, v), b);
    SpreadParses(name, x, y, v, u);
  }

  /** An export prefix is dropped with the blanks after it. */
  lemma ExportedLineParses(a: string, c: string, name: string, x: string, y: string, v: string, u: string, b: string)
    requires ValidName(name) && Blank(a) && Blank(c) && Blank(x) && Blank(y) && Blank(b) && StandsFor(v, u)
    ensures ParseLine(a + ("export " + c + Spread(name, x, y, v)) + b) == Pair(name, u)
  {
    if v == "" {
      ExportedLineOf(a, c, name, x, "", v, u, y + b);
      EmptyValue(a + ("export " + c), name, x, y, b);
      assert forall t :: a + ("export " + c + t) == a + ("export " + c) + t;
    } else {
      ExportedLineOf(a, c, name, x, y, v, u, b);
    }
  }

  /** How a line assigns: blanks, an export prefix or none, the name, the written value, blanks. */
  datatype Layout = Layout(a: string, exported: bool, c: string, x: string, y: string, v: string, b: string)

  function Written(l: Layout, name: string): string {
    l.a + (if l.exported then "export " + l.c + Spread(name, l.x, l.y, l.v) else Spread(name, l.x, l.y, l.v)) + l.b
  }

  ghost predicate Assigns(raw: string, l: Layout, name: string, u: string) {
    && raw == Written(l, name) && ValidName(name) && StandsFor(l.v, u)
    && Blank(l.a) && Blank(l.c) && Blank(l.x) && Blank(l.y) && Blank(l.b)
    && (!l.exported ==> !(name == "export" && l.x != "" && l.x[0] == ' '))
  }

  lemma PairParts(body: string, name: string, u: string) returns (front: string, behind: string)
    requires ParsePair(body) == Pair(name, u)
    ensures body == front + "=" + behind && Strip(front) == name && Unquote(Strip(behind)) == u && ValidName(name)
  {
    var n := Find(body, '=');
    front, behind := body[..n], body[n + 1..];
    assert body == front + "=" + behind;
  }

  /** A trimmed text that assigns is a name, blanks, the first equals sign, blanks and the written value. */
  lemma PairIsSpread(body: string, name: string, u: string) returns (x: string, y: string, v: string)
    requires ParsePair(body) == Pair(name, u) && Trimmed(body)
    ensures Blank(x) && Blank(y) && StandsFor(v, u) && body == Spread(name, x, y, v) && ValidName(name)
  {
    var front, behind := PairParts(body, name, u);
    var p, z;
    v := Strip(behind);
    p, x := StripParts(front);
    y, z := StripParts(behind);
    PutTogether(p, name, x, y, v, z, body);
    UnquoteIff(v, u);
  }

  lemma PutTogether(p: string, name: string, x: string, y: string, v: string, z: string, body: string)
    requires Blank(p) && Blank(z) && Trimmed(body) && body == p + name + x + "=" + (y + v + z)
    ensures body == Spread(name, x, y, v)
  {
    var middle := name + x + "=" + (y + v);
    assert body == p + middle + z;
    BlankEdges(p, middle, z);
    assert p == "" && z == "";
    assert body == middle;
  }

  /** The lines that assign are those of this form and no others. */
  lemma PairIff(raw: string, name: string, u: string)
    ensures ParseLine(raw) == Pair(name, u) <==> exists l: Layout :: Assigns(raw, l, name, u)
  {
    if ParseLine(raw) == Pair(name, u) {
      var l := LayoutOf(raw, name, u);
    }
    forall l: Layout | Assigns(raw, l, name, u) ensures ParseLine(raw) == Pair(name, u) {
      if l.exported {
        ExportedLineParses(l.a, l.c, name, l.x, l.y, l.v, u, l.b);
      } else {
        PlainLineParses(l.a, name, l.x, l.y, l.v, u, l.b);
      }
    }
  }

  lemma LayoutOf(raw: string, name: string, u: string) returns (l: Layout)
    requires ParseLine(raw) == Pair(name, u)
    ensures Assigns(raw, l, name, u)
  {
    var a, b := StripParts(raw);
    l := InnerLayout(Strip(raw), name, u);
    l := Around(a, l, b, name, u, Strip(raw));
  }

  lemma Around(a: string, l: Layout, b: string, name: string, u: string, line: string) returns (m: Layout)
    requires Assigns(line, l, name, u) && l.a == "" && l.b == "" && Blank(a) && Blank(b)
    ensures Assigns(a + line + b, m, name, u)
  {
    m := l.(a := a, b := b);
    var inner := if l.exported then "export " + l.c + Spread(name, l.x, l.y, l.v) else Spread(name, l.x, l.y, l.v);
    assert line == "" + inner + "" == inner;
  }

  lemma ExportBody(line: string) returns (c: string, body: string)
    requires "export " <= line && Trimmed(line)
    ensures body == StripLeft(line[7..]) && line == "export " + (c + body) && Blank(c) && Trimmed(body)
  {
    var rest := line[7..];
    assert line == "export " + rest;
    c := StripLeftParts(rest);
    body := StripLeft(rest);
    LastOfRest(line, rest, c, body);
  }

  lemma InnerLayout(line: string, name: string, u: string) returns (l: Layout)
    requires Trimmed(line)
    requires ParsePair(if "export " <= line then StripLeft(line[7..]) else line) == Pair(name, u)
    ensures Assigns(line, l, name, u) && l.a == "" && l.b == ""
  {
    if "export " <= line {
      var c, body := ExportBody(line);
      l := ExportedLayout(c, body, name, u);
    } else {
      l := PlainLayout(line, name, u);
    }
  }

  lemma PlainLayout(line: string, name: string, u: string) returns (l: Layout)
    requires Trimmed(line) && !("export " <= line) && ParsePair(line) == Pair(name, u)
    ensures Assigns(line, l, name, u) && l.a == "" && l.b == ""
  {
    var x, y, v := PairIsSpread(line, name, u);
    ExportIsTheName(name, x, y, v);
    l := Layout("", false, "", x, y, v, "");
    assert "" + line + "" == line;
  }

  lemma ExportedText(c: string, name: string, x: string, y: string, v: string)
    ensures Written(Layout("", true, c, x, y, v, ""), name) == "export " + (c + Spread(name, x, y, v))
  {
    assert "" + ("export " + c + Spread(name, x, y, v)) + "" == "export " + (c + Spread(name, x, y, v));
  }

  lemma ExportedLayout(c: string, body: string, name: string, u: string) returns (l: Layout)
    requires Blank(c) && Trimmed(body) && ParsePair(body) == Pair(name, u)
    ensures Assigns("export " + (c + body), l, name, u) && l.a == "" && l.b == ""
  {
    var x, y, v := PairIsSpread(body, name, u);
    l := Layout("", true, c, x, y, v, "");
    ExportedText(c, name, x, y, v);
  }

  lemma LastOfRest(line: string, rest: string, c: string, body: string)
    requires line == "export " + rest && rest == c + body && Trimmed(line) && (body != "" ==> !Space(body[0]))
    ensures Trimmed(body)
  {
    assert body != "" ==> body[|body| - 1] == line[|line| - 1];
  }

  /** A line is skipped exactly when it is blank or the first of its other characters is a hash sign. */
  lemma IgnoredIff(raw: string)
    ensures ParseLine(raw) == Ignored <==> Blank(raw) || exists a, rest :: Blank(a) && raw == a + "#" + rest
  {
    var line := Strip(raw);
    var a, b := StripParts(raw);
    if line == "" {
      assert raw == a + b;
    } else {
      assert raw == a + [line[0]] + (line[1..] + b);
      assert raw[|a|] == line[0];
      forall lead, rest | Blank(lead) && raw == lead + "#" + rest ensures line[0] == '#' {
        assert raw[|lead|] == '#';
        assert |lead| == |a|;
      }
    }
  }

  lemma EqualsInside(a: string, m: string, b: string)
    requires Blank(a) && Blank(b)
    ensures '=' in a + m + b <==> '=' in m
  {
  }

  lemma EqualsBehindExport(c: string, body: string)
    requires Blank(c)
    ensures '=' in "export " + (c + body) <==> '=' in body
  {
  }

  lemma NotPairedIff(body: string)
    ensures ParsePair(body) == NotKeyValue <==> '=' !in body
  {
    WhereFound(body, '=');
  }

  lemma TrimmedNotKeyValueIff(line: string)
    requires Trimmed(line)
    ensures ParsePair(if "export " <= line then StripLeft(line[7..]) else line) == NotKeyValue <==> '=' !in line
  {
    if "export " <= line {
      var c, body := ExportBody(line);
      EqualsBehindExport(c, body);
      NotPairedIff(body);
    } else {
      NotPairedIff(line);
    }
  }

  /** Of the other lines, those without an equals sign anywhere are the ones that are no assignment. */
  lemma NotKeyValueIff(raw: string)
    ensures ParseLine(raw) == NotKeyValue <==> ParseLine(raw) != Ignored && '=' !in raw
  {
    var a, b := StripParts(raw);
    EqualsInside(a, Strip(raw), b);
    TrimmedNotKeyValueIff(Strip(raw));
  }

  lemma PrintedEntryParses(e: Entry)
    requires Printable(e)
    ensures ParseLine(PrintEntry(e)) == Pair(e.name, e.value)
  {
    assert Quotes("\"" + e.value + "\"", e.value);
    PlainLineParses("", e.name, "", "", "\"" + e.value + "\"", e.value, "");
    PrintIsSpread(e);
  }

  lemma PrintIsSpread(e: Entry)
    ensures "" + Spread(e.name, "", "", "\"" + e.value + "\"") + "" == PrintEntry(e)
  {
  }

  lemma PrintedEntryIsOneLine(e: Entry)
    requires Printable(e)
    ensures Lines(PrintEntry(e) + "\n") == [PrintEntry(e)]
  {
    var s := PrintEntry(e);
    NameCharacters(e.name);
    assert forall i | 0 <= i < |e.name| :: s[i] == e.name[i];
    assert forall i | 0 <= i < |e.value| :: s[|e.name| + 2 + i] == e.value[i];
    SingleLine(s);
  }

  lemma PrintedEntryFile(e: Entry)
    requires Printable(e)
    ensures Parse(PrintEntry(e) + "\n") == Loaded(map[e.name := e.value])
  {
    PrintedEntryIsOneLine(e);
    PrintedEntryParses(e);
    var line := ParseLine(PrintEntry(e));
    assert ParseLines([PrintEntry(e)]) == [line];
    FoldOne(line);
  }

  lemma FoldOne(line: Line)
    ensures Fold([line]) == After(Loaded(map[]), line, 1)
  {
    assert [line][..0] == [];
  }

  /** Printing and reading back gives every variable its value, for all names and values. */
  lemma {:induction false} RoundTrip(entries: seq<Entry>)
    requires forall e | e in entries :: Printable(e)
    ensures Parse(Print(entries)) == Loaded(MapOf(entries))
    decreases |entries|
  {
    if entries == [] {
    } else {
      PrintedEntryFile(entries[0]);
      LoadingIsAHomomorphism(PrintEntry(entries[0]) + "\n", Print(entries[1..]));
      RoundTrip(entries[1..]);
    }
  }

  /** With distinct names that is the printed map itself. */
  lemma {:induction false} MapOfDistinct(entries: seq<Entry>, i: nat)
    requires i < |entries| && forall a, b | 0 <= a < b < |entries| :: entries[a].name != entries[b].name
    ensures entries[i].name in MapOf(entries) && MapOf(entries)[entries[i].name] == entries[i].value
    ensures forall name | name in MapOf(entries) :: exists j | 0 <= j < |entries| :: entries[j].name == name
    decreases |entries|
  {
    if |entries| <= 1 {
    } else {
      MapOfDistinct(entries[1..], if i == 0 then 0 else i - 1);
      assert forall j | 0 <= j < |entries[1..]| :: entries[1..][j] == entries[j + 1];
    }
  }
}
