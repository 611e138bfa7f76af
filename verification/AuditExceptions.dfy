/**
  The line parser of the audit exception list, and a printer that it inverts.
 */
module AuditExceptions {
  import opened Options

  /** One exception: the fields of a list item. */
  type Entry = map<string, string>

  /******* Text *******/

  /** The characters that Python's str.strip removes. */
  predicate IsSpace(c: char) {
    var n := c as int;
    || 0x09 <= n <= 0x0d || 0x1c <= n <= 0x20 || n == 0x85 || n == 0xa0 || n == 0x1680
    || 0x2000 <= n <= 0x200a || n == 0x2028 || n == 0x2029 || n == 0x202f || n == 0x205f || n == 0x3000
  }

  /** The position of the first character from i on that is not white space. */
  function TextStart(s: string, i: nat): (start: nat)
    requires i <= |s|
    ensures i <= start <= |s|
    decreases |s| - i
  {
    if i < |s| && IsSpace(s[i]) then TextStart(s, i + 1) else i
  }

  /** The position behind the last character between start and i that is not white space. */
  function TextEnd(s: string, start: nat, i: nat): (end: nat)
    requires start <= i <= |s|
    ensures start <= end <= i
  {
    if start < i && IsSpace(s[i - 1]) then TextEnd(s, start, i - 1) else i
  }

  function Strip(s: string): string {
    var start := TextStart(s, 0);
    s[start..TextEnd(s, start, |s|)]
  }

  /** The lines of a file read with universal newlines, without their ends. */
  function Lines(text: string): seq<string> {
    LinesFrom("", text)
  }

  function LinesFrom(line: string, text: string): seq<string>
    decreases |text|
  {
    if text == [] then (if line == [] then [] else [line])
    else if text[0] == '\n' then [line] + LinesFrom("", text[1..])
    else if text[0] == '\r' then
      [line] + LinesFrom("", if |text| > 1 && text[1] == '\n' then text[2..] else text[1..])
    else LinesFrom(line + [text[0]], text[1..])
  }

  function Find(s: string, c: char): (i: nat)
    ensures i <= |s|
    ensures i < |s| ==> s[i] == c
    ensures forall j :: 0 <= j < i ==> s[j] != c
  {
    FindFrom(s, c, 0)
  }

  function FindFrom(s: string, c: char, from: nat): (i: nat)
    requires from <= |s|
    ensures from <= i <= |s|
    ensures i < |s| ==> s[i] == c
    ensures forall j :: from <= j < i ==> s[j] != c
    decreases |s| - from
  {
    if from == |s| || s[from] == c then from else FindFrom(s, c, from + 1)
  }

  predicate Enclosed(s: string, quote: char) {
    s != [] && s[0] == quote && s[|s| - 1] == quote
  }

  /** Removes the first and the last character; of a single quote nothing is left. */
  function Unquote(s: string): string {
    if Enclosed(s, '"') || Enclosed(s, '\'') then (if |s| == 1 then [] else s[1..|s| - 1]) else s
  }

  /** A "key: value" line, split at its first colon; without one there is no result. */
  function SplitKv(line: string): Option<(string, string)> {
    var i := Find(line, ':');
    if i == |line| then None else Some((Strip(line[..i]), Unquote(Strip(line[i + 1..]))))
  }

  /******* The parser *******/

  /** The finished items, and the item being read. */
  datatype State = State(done: seq<Entry>, current: Option<Entry>) {
    /** Finishes the current item, unless it is missing or still empty. */
    function Finished(): seq<Entry> {
      if current.Some? && current.value != map[] then done + [current.value] else done
    }
  }

  predicate Ignored(line: string) {
    line == "" || "#" <= line || "version:" <= line || "exceptions:" <= line
  }

  /** A list item whose text has no colon: splitting it raises an exception. */
  predicate Malformed(raw: string) {
    var line := Strip(raw);
    !Ignored(line) && "- " <= line && Strip(line[2..]) != "" && ':' !in Strip(line[2..])
  }

  function Step(st: State, raw: string): Option<State> {
    var line := Strip(raw);
    if Ignored(line) then Some(st)
    else if "- " <= line then
      var rest := Strip(line[2..]);
      if rest == "" then Some(State(st.Finished(), Some(map[])))
      else
        match SplitKv(rest)
        case None => None
        case Some((key, value)) => Some(State(st.Finished(), Some(map[key := value])))
    else if st.current.Some? && ':' in line then
      match SplitKv(line)
      case None => None
      case Some((key, value)) => Some(State(st.done, Some(st.current.value[key := value])))
    else Some(st)
  }

  function Run(st: State, lines: seq<string>): Option<State>
    decreases |lines|
  {
    if lines == [] then Some(st)
    else
      match Step(st, lines[0])
      case None => None
      case Some(st') => Run(st', lines[1..])
  }

  const START := State([], None)

  function Parsed(lines: seq<string>): Option<seq<Entry>> {
    match Run(START, lines)
    case None => None
    case Some(st) => Some(st.Finished())
  }

  /** Reads the items line by line. It fails exactly on a malformed item. */
  method ParseExceptions(lines: seq<string>) returns (r: Option<seq<Entry>>)
    ensures r == Parsed(lines)
    ensures r.None? <==> exists i :: 0 <= i < |lines| && Malformed(lines[i])
  {
    FailsOnMalformed(START, lines);
    var exceptions: seq<Entry> := [];
    var current: Option<Entry> := None;
    for i := 0 to |lines|
      invariant Run(START, lines) == Run(State(exceptions, current), lines[i..])
    {
      assert lines[i..][0] == lines[i] && lines[i..][1..] == lines[i + 1..];
      var line := Strip(lines[i]);
      if line == "" || "#" <= line {
        continue;
      }
      if "version:" <= line || "exceptions:" <= line {
        continue;
      }
      if "- " <= line {
        if current.Some? && current.value != map[] {
          exceptions := exceptions + [current.value];
        }
        current := Some(map[]);
        line := Strip(line[2..]);
        if line != "" {
          var kv := SplitKv(line);
          if kv.None? {
            return None;
          }
          current := Some(current.value[kv.value.0 := kv.value.1]);
        }
        continue;
      }
      if current.Some? && ':' in line {
        var kv := SplitKv(line);
        if kv.None? {
          return None;
        }
        current := Some(current.value[kv.value.0 := kv.value.1]);
      }
    }
    if current.Some? && current.value != map[] {
      exceptions := exceptions + [current.value];
    }
    r := Some(exceptions);
  }

  lemma SplitKvFails(line: string)
    ensures SplitKv(line).None? <==> ':' !in line
  {
  }

  lemma {:induction false} FailsOnMalformed(st: State, lines: seq<string>)
    ensures Run(st, lines).None? <==> exists i :: 0 <= i < |lines| && Malformed(lines[i])
    decreases |lines|
  {
    if lines != [] {
      var line := Strip(lines[0]);
      SplitKvFails(line);
      if "- " <= line {
        SplitKvFails(Strip(line[2..]));
      }
      var st' := Step(st, lines[0]);
      assert st'.None? <==> Malformed(lines[0]);
      if st'.Some? {
        FailsOnMalformed(st'.value, lines[1..]);
        if i :| 0 <= i < |lines[1..]| && Malformed(lines[1..][i]) {
          assert Malformed(lines[i + 1]);
        }
        if i :| 0 <= i < |lines| && Malformed(lines[i]) {
          assert lines[1..][i - 1] == lines[i];
        }
      }
    }
  }

  lemma {:induction false} RunConcat(st: State, a: seq<string>, b: seq<string>)
    ensures Run(st, a + b) == if Run(st, a).None? then None else Run(Run(st, a).value, b)
    decreases |a|
  {
    if a == [] {
      assert a + b == b;
    } else {
      assert (a + b)[1..] == a[1..] + b;
      var st' := Step(st, a[0]);
      if st'.Some? {
        RunConcat(st'.value, a[1..], b);
      }
    }
  }

  /******* Splitting a field *******/

  /** White space within a line. */
  predicate Blank(s: string) {
    forall i :: 0 <= i < |s| ==> IsSpace(s[i]) && s[i] != '\n' && s[i] != '\r'
  }

  predicate Trimmed(s: string) {
    s == [] || (!IsSpace(s[0]) && !IsSpace(s[|s| - 1]))
  }

  lemma {:induction false} StartBehindSpaces(s: string, i: nat, k: nat)
    requires i <= k <= |s| && forall j :: i <= j < k ==> IsSpace(s[j])
    ensures TextStart(s, i) == TextStart(s, k)
    decreases k - i
  {
    if i < k {
      StartBehindSpaces(s, i + 1, k);
    }
  }

  lemma {:induction false} EndBeforeSpaces(s: string, start: nat, k: nat, i: nat)
    requires start <= k <= i <= |s| && forall j :: k <= j < i ==> IsSpace(s[j])
    ensures TextEnd(s, start, i) == TextEnd(s, start, k)
    decreases i - k
  {
    if k < i {
      EndBeforeSpaces(s, start, k, i - 1);
    }
  }

  lemma {:induction false} SpacesBeforeStart(s: string, i: nat)
    requires i <= |s|
    ensures forall j :: i <= j < TextStart(s, i) ==> IsSpace(s[j])
    ensures TextStart(s, i) < |s| ==> !IsSpace(s[TextStart(s, i)])
    decreases |s| - i
  {
    if i < |s| && IsSpace(s[i]) {
      SpacesBeforeStart(s, i + 1);
    }
  }

  lemma {:induction false} SpacesBehindEnd(s: string, start: nat, i: nat)
    requires start <= i <= |s|
    ensures forall j :: TextEnd(s, start, i) <= j < i ==> IsSpace(s[j])
    ensures start < TextEnd(s, start, i) ==> !IsSpace(s[TextEnd(s, start, i) - 1])
  {
    if start < i && IsSpace(s[i - 1]) {
      SpacesBehindEnd(s, start, i - 1);
    }
  }

  predicate AllSpaces(s: string) {
    forall i :: 0 <= i < |s| ==> IsSpace(s[i])
  }

  lemma SpacesCut(s: string, i: nat, j: nat)
    requires i <= j <= |s| && forall k :: i <= k < j ==> IsSpace(s[k])
    ensures AllSpaces(s[i..j])
  {
  }

  lemma TrimmedCut(s: string, i: nat, j: nat)
    requires i <= j <= |s| && (i < j ==> !IsSpace(s[i]) && !IsSpace(s[j - 1]))
    ensures Trimmed(s[i..j])
  {
  }

  /** Stripping takes white space off both ends, and leaves none there. */
  lemma StripSplits(s: string) returns (before: string, behind: string)
    ensures s == before + Strip(s) + behind
    ensures AllSpaces(before) && AllSpaces(behind) && Trimmed(Strip(s))
  {
    var start := TextStart(s, 0);
    var end := TextEnd(s, start, |s|);
    SpacesBeforeStart(s, 0);
    SpacesBehindEnd(s, start, |s|);
    before, behind := s[0..start], s[end..|s|];
    SpacesCut(s, 0, start);
    SpacesCut(s, end, |s|);
    TrimmedCut(s, start, end);
    CutTwice(s, start, end);
  }

  lemma CutTwice<T>(s: seq<T>, i: nat, j: nat)
    requires i <= j <= |s|
    ensures s == s[0..i] + s[i..j] + s[j..|s|]
  {
  }

  lemma BlankStripsToNothing(s: string)
    requires AllSpaces(s)
    ensures Strip(s) == ""
  {
    StartBehindSpaces(s, 0, |s|);
  }

  lemma StripBetween(s: string, n: nat, m: nat)
    requires n < m <= |s| && !IsSpace(s[n]) && !IsSpace(s[m - 1])
    requires (forall j :: 0 <= j < n ==> IsSpace(s[j])) && forall j :: m <= j < |s| ==> IsSpace(s[j])
    ensures Strip(s) == s[n..m]
  {
    StartBehindSpaces(s, 0, n);
    EndBeforeSpaces(s, n, m, |s|);
  }

  /** Only the text between the white space is left. */
  lemma StripUnique(before: string, text: string, behind: string)
    requires AllSpaces(before) && AllSpaces(behind) && Trimmed(text)
    ensures Strip(before + text + behind) == text
  {
    var s, n, m := before + text + behind, |before|, |before| + |text|;
    assert forall j :: 0 <= j < n ==> s[j] == before[j];
    assert forall j :: m <= j < |s| ==> s[j] == behind[j - m];
    if text == [] {
      BlankStripsToNothing(s);
    } else {
      assert s[n] == text[0] && s[m - 1] == text[|text| - 1];
      StripBetween(s, n, m);
      assert s[n..m] == text;
    }
  }

  lemma StripTrimmed(s: string)
    requires Trimmed(s)
    ensures Strip(s) == s
  {
    StripUnique("", s, "");
    assert "" + s + "" == s;
  }

  lemma StripAround(before: string, text: string, behind: string)
    requires AllSpaces(before) && AllSpaces(behind)
    ensures Strip(before + text + behind) == Strip(text)
  {
    var x, y := StripSplits(text);
    var t := Strip(text);
    assert before + text + behind == (before + x) + t + (y + behind);
    StripUnique(before + x, t, y + behind);
  }

  lemma FindIs(s: string, c: char, i: nat)
    requires i < |s| && s[i] == c && forall j :: 0 <= j < i ==> s[j] != c
    ensures Find(s, c) == i
  {
  }

  lemma FindBehind(front: string, rest: string)
    requires ':' !in front && rest != "" && rest[0] == ':'
    ensures Find(front + rest, ':') == |front|
  {
    var s := front + rest;
    assert forall j :: 0 <= j < |front| ==> s[j] == front[j];
    FindIs(s, ':', |front|);
  }

  lemma SplitAtColon(front: string, back: string)
    requires ':' !in front
    ensures SplitKv(front + ":" + back) == Some((Strip(front), Unquote(Strip(back))))
  {
    var s := front + ":" + back;
    assert s == front + (":" + back);
    FindBehind(front, ":" + back);
    assert s[..|front|] == front && s[|front| + 1..] == back;
  }

  /** Blanks around a line do not change how it is split. */
  lemma SplitAround(before: string, line: string, behind: string)
    requires AllSpaces(before) && AllSpaces(behind) && ':' in line
    ensures SplitKv(before + line + behind) == SplitKv(line)
  {
    var i := Find(line, ':');
    var front, back := line[..i], line[i + 1..];
    assert line == front + ":" + back;
    assert before + line + behind == (before + front) + ":" + (back + behind);
    NoColon(before);
    SplitAtColon(front, back);
    SplitAtColon(before + front, back + behind);
    StripBehind(before, front);
    StripBefore(back, behind);
  }

  lemma NoColon(s: string)
    requires AllSpaces(s)
    ensures ':' !in s
  {
    assert !IsSpace(':');
  }

  lemma StripBehind(before: string, text: string)
    requires AllSpaces(before)
    ensures Strip(before + text) == Strip(text)
  {
    StripAround(before, text, "");
    assert before + text + "" == before + text;
  }

  lemma StripBefore(text: string, behind: string)
    requires AllSpaces(behind)
    ensures Strip(text + behind) == Strip(text)
  {
    StripAround("", text, behind);
    assert "" + text + behind == text + behind;
  }

  /******* The printer *******/

  /** How a value is written: as it is, or between quotes of either kind. */
  datatype Style = Plain | Single | Double

  /** A field with its layout: the blanks in front of the key or the marker, before and
      behind the colon, and at the end of the line. */
  datatype PrintedField = PrintedField(
    key: string, value: string, style: Style, indent: string, before: string, behind: string, trail: string)
  {
    function Label(): string {
      key + before
    }

    function Text(): string {
      Label() + ":" + behind + Written(style, value)
    }

    function Line(marker: string): string {
      indent + marker + Text() + trail
    }
  }

  function Written(style: Style, value: string): string {
    match style
    case Plain => value
    case Single => "'" + value + "'"
    case Double => "\"" + value + "\""
  }

  function ItemLines(fields: seq<PrintedField>): seq<string> {
    if fields == [] then []
    else if |fields| == 1 then [fields[0].Line("- ")]
    else ItemLines(fields[..|fields| - 1]) + [fields[|fields| - 1].Line("")]
  }

  function ListLines(items: seq<seq<PrintedField>>): seq<string> {
    if items == [] then [] else ListLines(items[..|items| - 1]) + ItemLines(items[|items| - 1])
  }

  /** The line ends that are told apart; a file keeps to one of them. */
  datatype LineEnd = LF | CR | CRLF {
    function Chars(): string {
      match this
      case LF => "\n"
      case CR => "\r"
      case CRLF => "\r\n"
    }
  }

  function Unlines(lines: seq<string>, end: LineEnd): string {
    if lines == [] then "" else lines[0] + end.Chars() + Unlines(lines[1..], end)
  }

  /** The text of the lines; the end of a last line that is not empty may be missing. */
  function TextOf(lines: seq<string>, end: LineEnd, ended: bool): string {
    if ended || lines == [] || lines[|lines| - 1] == "" then Unlines(lines, end)
    else Unlines(lines[..|lines| - 1], end) + lines[|lines| - 1]
  }

  /** A header of lines that the parser passes over, and then the items. */
  function Print(header: seq<string>, items: seq<seq<PrintedField>>, end: LineEnd, ended: bool): string {
    TextOf(header + ListLines(items), end, ended)
  }

  /** What the fields mean: of repeated keys the last one counts. */
  function Meaning(fields: seq<PrintedField>): Entry {
    if fields == [] then map[]
    else Meaning(fields[..|fields| - 1])[fields[|fields| - 1].key := fields[|fields| - 1].value]
  }

  function Meanings(items: seq<seq<PrintedField>>): seq<Entry> {
    if items == [] then [] else Meanings(items[..|items| - 1]) + [Meaning(items[|items| - 1])]
  }

  predicate NoBreaks(s: string) {
    '\n' !in s && '\r' !in s
  }

  /** A value that can stand as it is: without blanks or quotes around it. */
  predicate PlainValue(value: string) {
    Trimmed(value) && !Enclosed(value, '"') && !Enclosed(value, '\'')
  }

  /** A field that survives on the line that opens an item. */
  predicate Opening(f: PrintedField) {
    && Trimmed(f.key) && ':' !in f.key && NoBreaks(f.key) && NoBreaks(f.value)
    && (f.style.Plain? ==> PlainValue(f.value))
    && Blank(f.indent) && Blank(f.before) && Blank(f.behind) && Blank(f.trail)
  }

  /** A field that survives on a line of its own. */
  predicate Following(f: PrintedField) {
    && Opening(f) && !("#" <= f.key) && !("- " <= f.Label())
    && f.Label() != "version" && f.Label() != "exceptions"
  }

  predicate Printable(fields: seq<PrintedField>) {
    && fields != []
    && Opening(fields[0])
    && (forall i :: 1 <= i < |fields| ==> Following(fields[i]))
  }

  /******* Reading printed fields *******/

  lemma Unquotes(style: Style, value: string)
    requires style.Plain? ==> PlainValue(value)
    ensures Strip(Written(style, value)) == Written(style, value)
    ensures Unquote(Written(style, value)) == value
  {
    var w := Written(style, value);
    if !style.Plain? {
      assert w[0] == w[|w| - 1] && w[0] in {'"', '\''};
      assert w[1..|w| - 1] == value;
    }
    StripTrimmed(w);
  }

  /** A printed field is split back into its key and its value. */
  lemma SplitPrinted(f: PrintedField)
    requires Opening(f)
    ensures SplitKv(f.Text()) == Some((f.key, f.value))
  {
    var w := Written(f.style, f.value);
    assert f.Text() == f.Label() + ":" + (f.behind + w);
    NoColon(f.before);
    SplitAtColon(f.Label(), f.behind + w);
    StripBefore(f.key, f.before);
    StripTrimmed(f.key);
    StripBehind(f.behind, w);
    Unquotes(f.style, f.value);
  }

  /** Of a value that is a lone quote nothing is left. */
  lemma LoneQuoteIsDropped(key: string, quote: char)
    requires Trimmed(key) && ':' !in key && (quote == '"' || quote == '\'')
    ensures SplitKv(key + ":" + [' ', quote]) == Some((key, ""))
  {
    SplitAtColon(key, [' ', quote]);
    StripTrimmed(key);
    StripBehind([' '], [quote]);
    StripTrimmed([quote]);
    assert [' '] + [quote] == [' ', quote];
  }

  lemma MarkerIsNotIgnored(line: string)
    requires |line| > 1 && line[0] == '-' && line[1] == ' '
    ensures "- " <= line && !Ignored(line)
  {
    assert "version:"[0] == 'v' && "exceptions:"[0] == 'e' && "#"[0] == '#';
  }

  /** Behind a marker stands the text of the field. */
  lemma StripMarked(indent: string, text: string, trail: string)
    requires AllSpaces(indent) && AllSpaces(trail) && Strip(text) != ""
    ensures var line := Strip(indent + "- " + text + trail);
            |line| > 1 && line[0] == '-' && line[1] == ' ' && Strip(line[2..]) == Strip(text)
  {
    var x, y := StripSplits(text);
    var t := Strip(text);
    var line := "- " + (x + t);
    assert indent + "- " + text + trail == indent + line + (y + trail);
    MarkedIsTrimmed(x, t);
    StripUnique(indent, line, y + trail);
    StripBehind(x, t);
    StripTrimmed(t);
  }

  lemma MarkedIsTrimmed(x: string, t: string)
    requires t != "" && Trimmed(t)
    ensures var line := "- " + (x + t); Trimmed(line) && line[0] == '-' && line[1] == ' ' && line[2..] == x + t
  {
    var line := "- " + (x + t);
    assert line[|line| - 1] == t[|t| - 1];
  }

  lemma StripKeepsColon(text: string)
    requires ':' in text
    ensures ':' in Strip(text) && SplitKv(Strip(text)) == SplitKv(text)
  {
    var x, y := StripSplits(text);
    NoColon(x);
    NoColon(y);
    assert ':' in x + Strip(text) + y;
    SplitAround(x, Strip(text), y);
  }

  lemma StrippedText(f: PrintedField)
    requires Opening(f)
    ensures ':' in Strip(f.Text()) && SplitKv(Strip(f.Text())) == Some((f.key, f.value))
  {
    SplitPrinted(f);
    assert f.Text()[|f.Label()|] == ':';
    StripKeepsColon(f.Text());
  }

  lemma StepOpening(st: State, f: PrintedField)
    requires Opening(f)
    ensures Step(st, f.Line("- ")) == Some(State(st.Finished(), Some(map[f.key := f.value])))
  {
    StrippedText(f);
    StripMarked(f.indent, f.Text(), f.trail);
    MarkerIsNotIgnored(Strip(f.Line("- ")));
  }

  lemma ColonStays(rest: string) returns (behind: string)
    requires rest != "" && rest[0] == ':'
    ensures rest == Strip(rest) + behind && AllSpaces(behind) && Trimmed(Strip(rest))
    ensures Strip(rest) != "" && Strip(rest)[0] == ':'
  {
    var end := TextEnd(rest, 0, |rest|);
    SpacesBehindEnd(rest, 0, |rest|);
    assert TextStart(rest, 0) == 0 && 0 < end;
    behind := rest[end..];
  }

  /** The label in front of a colon is the beginning of the stripped text. */
  lemma LabelStays(tag: string, rest: string)
    requires rest != "" && rest[0] == ':' && ':' !in tag
    requires tag != "" ==> !IsSpace(tag[0])
    ensures tag <= Strip(tag + rest) && Find(Strip(tag + rest), ':') == |tag| < |Strip(tag + rest)|
  {
    var behind := ColonStays(rest);
    var t := tag + Strip(rest);
    assert tag + rest == "" + t + behind;
    assert t[|t| - 1] == Strip(rest)[|Strip(rest)| - 1];
    assert tag != "" ==> t[0] == tag[0];
    StripUnique("", t, behind);
    FindBehind(tag, Strip(rest));
  }

  /** A line that starts with a word and a colon has the word as its label. */
  lemma WordIsLabel(line: string, tag: string, word: string)
    requires tag <= line && Find(line, ':') == |tag| < |line| && ':' !in word && word + ":" <= line
    ensures tag == word
  {
    var prefix := word + ":";
    assert line[|word|] == prefix[|word|] == ':';
    assert forall j :: 0 <= j < |word| ==> line[j] == prefix[j] == word[j];
    assert |tag| == |word|;
  }

  lemma WordsHaveNoColon()
    ensures ':' !in "version" && ':' !in "exceptions"
    ensures "version" + ":" == "version:" && "exceptions" + ":" == "exceptions:"
  {
  }

  lemma LabelDecides(line: string, tag: string)
    requires tag <= line && Find(line, ':') == |tag| < |line|
    requires !("#" <= tag) && !("- " <= tag) && tag != "version" && tag != "exceptions"
    ensures !Ignored(line) && !("- " <= line)
  {
    WordsHaveNoColon();
    assert line[|tag|] == ':';
    if "version:" <= line {
      WordIsLabel(line, tag, "version");
    }
    if "exceptions:" <= line {
      WordIsLabel(line, tag, "exceptions");
    }
  }

  lemma LabelledIsNotIgnored(tag: string, rest: string)
    requires rest != "" && rest[0] == ':' && ':' !in tag && (tag != "" ==> !IsSpace(tag[0]))
    requires !("#" <= tag) && !("- " <= tag) && tag != "version" && tag != "exceptions"
    ensures var line := Strip(tag + rest); !Ignored(line) && !("- " <= line)
  {
    LabelStays(tag, rest);
    LabelDecides(Strip(tag + rest), tag);
  }

  lemma UnkeyedIsNotIgnored(before: string, rest: string)
    requires AllSpaces(before) && rest != "" && rest[0] == ':'
    ensures var line := Strip(before + rest); !Ignored(line) && !("- " <= line)
  {
    StripBehind(before, rest);
    assert "" + rest == rest;
    LabelledIsNotIgnored("", rest);
  }

  lemma NotIgnored(f: PrintedField)
    requires Following(f)
    ensures var line := Strip(f.Text()); !Ignored(line) && !("- " <= line)
  {
    var rest := ":" + f.behind + Written(f.style, f.value);
    TextSplits(f);
    if f.key == "" {
      UnkeyedIsNotIgnored(f.before, rest);
    } else {
      LabelledIsNotIgnored(f.Label(), rest);
    }
  }

  lemma TextSplits(f: PrintedField)
    requires Opening(f)
    ensures f.Text() == f.Label() + (":" + f.behind + Written(f.style, f.value))
    ensures ':' !in f.Label()
    ensures if f.key == "" then f.Label() == f.before else f.Label()[0] == f.key[0]
  {
    NoColon(f.before);
  }

  lemma StepFollowing(st: State, f: PrintedField)
    requires Following(f) && st.current.Some?
    ensures Step(st, f.Line("")) == Some(State(st.done, Some(st.current.value[f.key := f.value])))
  {
    StrippedLine(f);
    StrippedText(f);
  }

  lemma StrippedLine(f: PrintedField)
    requires Following(f)
    ensures Strip(f.Line("")) == Strip(f.Text())
    ensures var line := Strip(f.Line("")); !Ignored(line) && !("- " <= line)
  {
    assert f.Line("") == f.indent + f.Text() + f.trail;
    StripAround(f.indent, f.Text(), f.trail);
    NotIgnored(f);
  }

  /******* Round trip *******/

  lemma {:induction false} RunItem(st: State, fields: seq<PrintedField>)
    requires Printable(fields)
    ensures Run(st, ItemLines(fields)) == Some(State(st.Finished(), Some(Meaning(fields))))
    ensures Meaning(fields) != map[]
  {
    var f := fields[|fields| - 1];
    assert f.key in Meaning(fields);
    if |fields| == 1 {
      StepOpening(st, f);
      var lines := ItemLines(fields);
      assert lines[0] == f.Line("- ") && lines[1..] == [];
      assert fields[..0] == [];
      assert Meaning(fields) == map[f.key := f.value];
    } else {
      var init := fields[..|fields| - 1];
      assert forall i :: 0 <= i < |init| ==> init[i] == fields[i];
      RunItem(st, init);
      var last := [f.Line("")];
      RunConcat(st, ItemLines(init), last);
      var mid := State(st.Finished(), Some(Meaning(init)));
      StepFollowing(mid, f);
      assert last[1..] == [];
      assert Run(mid, last) == Step(mid, last[0]);
    }
  }

  lemma {:induction false} RunList(items: seq<seq<PrintedField>>)
    requires forall i :: 0 <= i < |items| ==> Printable(items[i])
    ensures Run(START, ListLines(items)).Some?
    ensures Run(START, ListLines(items)).value.Finished() == Meanings(items)
  {
    if items != [] {
      var init, last := items[..|items| - 1], items[|items| - 1];
      RunList(init);
      RunConcat(START, ListLines(init), ItemLines(last));
      RunItem(Run(START, ListLines(init)).value, last);
    }
  }

  lemma {:induction false} LinesOfLine(line: string, rest: string, end: LineEnd, text: string)
    requires NoBreaks(rest) && (end.CR? ==> !("\n" <= text))
    ensures LinesFrom(line, rest + end.Chars() + text) == [line + rest] + LinesFrom("", text)
    decreases |rest|
  {
    var all := rest + end.Chars() + text;
    if rest == [] {
      assert all == end.Chars() + text;
      assert all[|end.Chars()|..] == text;
      assert line + rest == line;
    } else {
      assert all[0] == rest[0];
      assert all[1..] == rest[1..] + end.Chars() + text;
      LinesOfLine(line + [rest[0]], rest[1..], end, text);
      assert line + [rest[0]] + rest[1..] == line + rest;
    }
  }

  lemma UnlinesStart(lines: seq<string>, end: LineEnd)
    requires end.CR? && forall i :: 0 <= i < |lines| ==> NoBreaks(lines[i])
    ensures !("\n" <= Unlines(lines, end))
  {
    if lines != [] {
      var text := lines[0] + end.Chars() + Unlines(lines[1..], end);
      assert text[0] == if lines[0] == [] then '\r' else lines[0][0];
    }
  }

  lemma {:induction false} LinesOfUnlines(lines: seq<string>, end: LineEnd)
    requires forall i :: 0 <= i < |lines| ==> NoBreaks(lines[i])
    ensures Lines(Unlines(lines, end)) == lines
  {
    if lines != [] {
      LinesOfUnlines(lines[1..], end);
      if end.CR? {
        UnlinesStart(lines[1..], end);
      }
      LinesOfLine("", lines[0], end, Unlines(lines[1..], end));
      assert "" + lines[0] == lines[0];
      assert lines == [lines[0]] + lines[1..];
    }
  }

  lemma {:induction false} LastLine(line: string, rest: string)
    requires NoBreaks(rest) && line + rest != ""
    ensures LinesFrom(line, rest) == [line + rest]
    decreases |rest|
  {
    if rest != [] {
      LastLine(line + [rest[0]], rest[1..]);
      assert line + [rest[0]] + rest[1..] == line + rest;
    } else {
      assert line + rest == line;
    }
  }

  lemma {:induction false} LinesBeforeLast(lines: seq<string>, last: string, end: LineEnd)
    requires (forall i :: 0 <= i < |lines| ==> NoBreaks(lines[i])) && NoBreaks(last) && last != ""
    ensures Lines(Unlines(lines, end) + last) == lines + [last]
  {
    if lines == [] {
      assert Unlines(lines, end) + last == last;
      LastLine("", last);
      assert "" + last == last;
    } else {
      var text := Unlines(lines[1..], end) + last;
      LinesBeforeLast(lines[1..], last, end);
      if end.CR? {
        UnlinesStart(lines[1..], end);
        assert text[0] == if Unlines(lines[1..], end) == [] then last[0] else Unlines(lines[1..], end)[0];
      }
      assert Unlines(lines, end) + last == lines[0] + end.Chars() + text;
      LinesOfLine("", lines[0], end, text);
      assert "" + lines[0] == lines[0];
      assert lines + [last] == [lines[0]] + (lines[1..] + [last]);
    }
  }

  /** A text is split into its lines, whatever ends them. */
  lemma LinesOfText(lines: seq<string>, end: LineEnd, ended: bool)
    requires forall i :: 0 <= i < |lines| ==> NoBreaks(lines[i])
    ensures Lines(TextOf(lines, end, ended)) == lines
  {
    if ended || lines == [] || lines[|lines| - 1] == "" {
      LinesOfUnlines(lines, end);
    } else {
      LinesBeforeLast(lines[..|lines| - 1], lines[|lines| - 1], end);
    }
  }

  lemma LineHasNoBreaks(f: PrintedField, marker: string)
    requires Opening(f) && NoBreaks(marker)
    ensures NoBreaks(f.Line(marker))
  {
    assert NoBreaks(Written(f.style, f.value));
    assert NoBreaks(f.Label());
    assert NoBreaks(f.Text());
  }

  lemma {:induction false} ItemHasNoBreaks(fields: seq<PrintedField>)
    requires Printable(fields)
    ensures forall i :: 0 <= i < |ItemLines(fields)| ==> NoBreaks(ItemLines(fields)[i])
  {
    var f := fields[|fields| - 1];
    LineHasNoBreaks(f, "- ");
    LineHasNoBreaks(f, "");
    if |fields| > 1 {
      var init := fields[..|fields| - 1];
      assert forall i :: 0 <= i < |init| ==> init[i] == fields[i];
      ItemHasNoBreaks(init);
    }
  }

  lemma {:induction false} ListHasNoBreaks(items: seq<seq<PrintedField>>)
    requires forall i :: 0 <= i < |items| ==> Printable(items[i])
    ensures forall i :: 0 <= i < |ListLines(items)| ==> NoBreaks(ListLines(items)[i])
  {
    if items != [] {
      ListHasNoBreaks(items[..|items| - 1]);
      ItemHasNoBreaks(items[|items| - 1]);
    }
  }

  lemma {:induction false} HeaderIsPassedOver(header: seq<string>)
    requires forall i :: 0 <= i < |header| ==> Ignored(Strip(header[i]))
    ensures Run(START, header) == Some(START)
  {
    if header != [] {
      assert Step(START, header[0]) == Some(START);
      HeaderIsPassedOver(header[1..]);
    }
  }

  /** Parsing a printed list gives back what the list means: for every mixture of plain and
      quoted values, any blanks within the lines, any line end, and whatever blank lines,
      comments, version and section lines stand above it. */
  lemma RoundTrip(header: seq<string>, items: seq<seq<PrintedField>>, end: LineEnd, ended: bool)
    requires forall i :: 0 <= i < |header| ==> Ignored(Strip(header[i])) && NoBreaks(header[i])
    requires forall i :: 0 <= i < |items| ==> Printable(items[i])
    ensures Parsed(Lines(Print(header, items, end, ended))) == Some(Meanings(items))
  {
    ListHasNoBreaks(items);
    LinesOfText(header + ListLines(items), end, ended);
    HeaderIsPassedOver(header);
    RunConcat(START, header, ListLines(items));
    RunList(items);
  }
}
