/** Reading the output of `xcodebuild -showBuildSettings` in `build.py`. */
module BuildSettings {
  import opened Wrappers
  import opened Text

  /** The characters `str.strip()` removes. */
  predicate IsSpace(c: char) {
    || '\t' <= c <= '\r' || '\U{1C}' <= c <= ' ' || c == '\U{85}' || c == '\U{A0}' || c == '\U{1680}'
    || '\U{2000}' <= c <= '\U{200A}' || c == '\U{2028}' || c == '\U{2029}' || c == '\U{202F}' || c == '\U{205F}'
    || c == '\U{3000}'
  }

  predicate AllSpace(s: string) {
    forall j | 0 <= j < |s| :: IsSpace(s[j])
  }

  function StripLeft(s: string): (r: string)
    ensures |r| <= |s|
    ensures r == "" || !IsSpace(r[0])
  {
    if s != "" && IsSpace(s[0]) then StripLeft(s[1..]) else s
  }

  function StripRight(s: string): (r: string)
    ensures |r| <= |s| && r == s[..|r|]
    ensures r == "" || !IsSpace(r[|r| - 1])
  {
    if s != "" && IsSpace(s[|s| - 1]) then StripRight(s[..|s| - 1]) else s
  }

  /** `s.strip()` */
  function Strip(s: string): (r: string)
    ensures |r| <= |s|
    ensures r == "" || (!IsSpace(r[0]) && !IsSpace(r[|r| - 1]))
  {
    StripRight(StripLeft(s))
  }

  lemma {:induction false} StripLeftCuts(s: string) returns (indent: string)
    ensures s == indent + StripLeft(s) && AllSpace(indent)
  {
    if s != "" && IsSpace(s[0]) {
      var more := StripLeftCuts(s[1..]);
      indent := [s[0]] + more;
    } else {
      indent := "";
    }
  }

  lemma {:induction false} StripRightCuts(s: string)
    ensures AllSpace(s[|StripRight(s)|..])
  {
    if s != "" && IsSpace(s[|s| - 1]) {
      StripRightCuts(s[..|s| - 1]);
    }
  }

  /** Stripping removes whitespace at both ends and nothing else. */
  lemma StripCutsOnlySpace(s: string) returns (indent: string, trail: string)
    ensures s == indent + Strip(s) + trail && AllSpace(indent) && AllSpace(trail)
  {
    indent := StripLeftCuts(s);
    StripRightCuts(StripLeft(s));
    trail := StripLeft(s)[|Strip(s)|..];
  }

  lemma {:induction false} StripIndent(indent: string, s: string)
    requires AllSpace(indent)
    ensures Strip(indent + s) == Strip(s)
    decreases |indent|
  {
    if indent == "" {
      assert indent + s == s;
    } else {
      assert (indent + s)[1..] == indent[1..] + s;
      StripIndent(indent[1..], s);
    }
  }

  const SEPARATOR: string := " = "

  datatype Setting = Setting(key: string, value: string)

  /** One line: the text before the first separator, and between it and the next one. */
  function ParseLine(line: string): Option<Setting> {
    var parts := Split(line, SEPARATOR);
    if |parts| < 2 then None else Some(Setting(Strip(parts[0]), Strip(parts[1])))
  }

  /** The text between the first separator of a line and the next one, or the end. */
  function ValueText(line: string): string
    requires Contains(line, " = ")
  {
    var rest := line[Find(line, " = ").value + 3..];
    if Contains(rest, " = ") then rest[..Find(rest, " = ").value] else rest
  }

  /** A line without separator sets nothing; any other line sets what stands before its first separator. */
  lemma ParseLineIff(line: string)
    ensures ParseLine(line).None? <==> !Contains(line, " = ")
    ensures Contains(line, " = ") ==>
              ParseLine(line) == Some(Setting(Strip(line[..Find(line, " = ").value]), Strip(ValueText(line))))
  {
    if Contains(line, SEPARATOR) {
      var p := Find(line, SEPARATOR).value;
      var parts, rest := Split(line, SEPARATOR), Split(line[p + 3..], SEPARATOR);
      assert parts == [line[..p]] + rest;
      assert rest[0] == ValueText(line);
    }
  }

  /** The settings of a list of lines, one entry per line. */
  function ParseEach(lines: seq<string>): (parsed: seq<Option<Setting>>)
    ensures |parsed| == |lines|
  {
    if lines == [] then [] else ParseEach(lines[..|lines| - 1]) + [ParseLine(lines[|lines| - 1])]
  }

  /** The dictionary after one parsed line. */
  function Assign(settings: map<string, string>, line: Option<Setting>): map<string, string> {
    match line
    case None => settings
    case Some(s) => settings[s.key := s.value]
  }

  /** The dictionary after the assignments of a list of parsed lines. */
  function Collect(parsed: seq<Option<Setting>>): map<string, string> {
    if parsed == [] then map[]
    else Assign(Collect(parsed[..|parsed| - 1]), parsed[|parsed| - 1])
  }

  /** The dictionary after the loop over the lines. */
  function ParseLines(lines: seq<string>): map<string, string> {
    Collect(ParseEach(lines))
  }

  lemma OneMoreLine(lines: seq<string>, line: string)
    ensures ParseLines(lines + [line]) == Assign(ParseLines(lines), ParseLine(line))
  {
    var parsed := ParseEach(lines);
    assert (lines + [line])[..|lines|] == lines;
    assert ParseEach(lines + [line]) == parsed + [ParseLine(line)];
    assert (parsed + [ParseLine(line)])[..|parsed|] == parsed;
  }

  lemma {:induction false} ParseEachAt(lines: seq<string>, i: nat)
    requires i < |lines|
    ensures ParseEach(lines)[i] == ParseLine(lines[i])
  {
    if i < |lines| - 1 {
      ParseEachAt(lines[..|lines| - 1], i);
    }
  }

  /** The parsing loop of `get_build_settings`. */
  method ParseBlob(blob: string) returns (settings: map<string, string>)
    ensures settings == ParseLines(Split(blob, NEWLINE))
    ensures forall key :: key in settings <==>
              exists i | 0 <= i < |Split(blob, NEWLINE)| :: SetsKey(Split(blob, NEWLINE)[i], key)
  {
    var lines := Split(blob, NEWLINE);
    settings := map[];
    for i := 0 to |lines|
      invariant settings == ParseLines(lines[..i])
    {
      OneMoreLine(lines[..i], lines[i]);
      assert lines[..i + 1] == lines[..i] + [lines[i]];
      var splitLine := Split(lines[i], SEPARATOR);
      if |splitLine| >= 2 {
        var key := Strip(splitLine[0]);
        var value := Strip(splitLine[1]);
        settings := settings[key := value];
      }
    }
    assert lines[..|lines|] == lines;
    forall key
      ensures key in settings <==> exists i | 0 <= i < |lines| :: SetsKey(lines[i], key)
    {
      KeyIsPresentIff(lines, key);
    }
  }

  // ---------- the last line wins

  predicate Sets(line: Option<Setting>, key: string) {
    line.Some? && line.value.key == key
  }

  /** Entry `i` is the last one that sets `key`. */
  predicate LastToSet(parsed: seq<Option<Setting>>, key: string, i: nat)
    requires i < |parsed|
  {
    Sets(parsed[i], key) && forall j | i < j < |parsed| :: !Sets(parsed[j], key)
  }

  lemma {:induction false} LastEntryWins(parsed: seq<Option<Setting>>, key: string, i: nat)
    requires i < |parsed| && LastToSet(parsed, key, i)
    ensures key in Collect(parsed) && Collect(parsed)[key] == parsed[i].value.value
  {
    var n := |parsed| - 1;
    if i < n {
      var init := parsed[..n];
      assert !Sets(parsed[n], key);
      assert forall j | i <= j < n :: init[j] == parsed[j];
      LastEntryWins(init, key, i);
    }
  }

  lemma {:induction false} KeysAreSet(parsed: seq<Option<Setting>>, key: string) returns (i: nat)
    requires key in Collect(parsed)
    ensures i < |parsed| && LastToSet(parsed, key, i)
  {
    var n := |parsed| - 1;
    if Sets(parsed[n], key) {
      i := n;
    } else {
      var init := parsed[..n];
      i := KeysAreSet(init, key);
      assert forall j | i <= j < n :: init[j] == parsed[j];
    }
  }

  /** The parsed dictionary gives a key a value iff that is the value on the last line that sets the key. */
  lemma LastLineWins(lines: seq<string>, key: string, value: string)
    ensures key in ParseLines(lines) && ParseLines(lines)[key] == value
       <==> exists i :: 0 <= i < |lines| && LastToSet(ParseEach(lines), key, i)
                        && ParseLine(lines[i]) == Some(Setting(key, value))
  {
    var parsed := ParseEach(lines);
    forall i | 0 <= i < |lines|
      ensures parsed[i] == ParseLine(lines[i])
    {
      ParseEachAt(lines, i);
    }
    if i :| 0 <= i < |lines| && LastToSet(parsed, key, i) && parsed[i] == Some(Setting(key, value)) {
      LastEntryWins(parsed, key, i);
    }
    if key in Collect(parsed) && Collect(parsed)[key] == value {
      var i := KeysAreSet(parsed, key);
      LastEntryWins(parsed, key, i);
      assert parsed[i] == Some(Setting(key, value));
      assert LastToSet(ParseEach(lines), key, i) && ParseLine(lines[i]) == Some(Setting(key, value));
    }
  }

  /** The line holds a separator, and the trimmed text before the first one is the key. */
  predicate SetsKey(line: string, key: string) {
    Contains(line, " = ") && Strip(line[..Find(line, " = ").value]) == key
  }

  /** Line `i` is the last one that sets the key. */
  predicate LastToSetKey(lines: seq<string>, key: string, i: nat) {
    i < |lines| && SetsKey(lines[i], key) && forall j | i < j < |lines| :: !SetsKey(lines[j], key)
  }

  lemma ParsedLineSets(lines: seq<string>, key: string)
    ensures forall i | 0 <= i < |lines| ::
              && (Sets(ParseEach(lines)[i], key) <==> SetsKey(lines[i], key))
              && (SetsKey(lines[i], key) ==> ParseEach(lines)[i].value.value == Strip(ValueText(lines[i])))
  {
    forall i | 0 <= i < |lines|
      ensures Sets(ParseEach(lines)[i], key) <==> SetsKey(lines[i], key)
      ensures SetsKey(lines[i], key) ==> ParseEach(lines)[i].value.value == Strip(ValueText(lines[i]))
    {
      ParseEachAt(lines, i);
      ParseLineIff(lines[i]);
    }
  }

  /** A key has the trimmed text behind the separator on the last line that sets it. */
  lemma LastLineGivesValue(lines: seq<string>, key: string, i: nat)
    requires LastToSetKey(lines, key, i)
    ensures key in ParseLines(lines) && ParseLines(lines)[key] == Strip(ValueText(lines[i]))
  {
    ParsedLineSets(lines, key);
    LastEntryWins(ParseEach(lines), key, i);
  }

  /** A key is in the dictionary exactly when some line sets it. */
  lemma KeyIsPresentIff(lines: seq<string>, key: string)
    ensures key in ParseLines(lines) <==> exists i | 0 <= i < |lines| :: SetsKey(lines[i], key)
  {
    if key in ParseLines(lines) {
      ParsedLineSets(lines, key);
      var i := KeysAreSet(ParseEach(lines), key);
      assert SetsKey(lines[i], key);
    }
    if i :| 0 <= i < |lines| && SetsKey(lines[i], key) {
      var last := LastLineSetting(lines, key, i);
      LastLineGivesValue(lines, key, last);
    }
  }

  lemma {:induction false} LastLineSetting(lines: seq<string>, key: string, i: nat) returns (last: nat)
    requires i < |lines| && SetsKey(lines[i], key)
    ensures LastToSetKey(lines, key, last)
    decreases |lines| - i
  {
    if j :| i < j < |lines| && SetsKey(lines[j], key) {
      last := LastLineSetting(lines, key, j);
    } else {
      last := i;
    }
  }

  // ---------- printing and reading back

  /** How a setting is printed: indented, `key = value`. */
  function PrintLine(indent: string, s: Setting): string {
    indent + s.key + SEPARATOR + s.value
  }

  /** Key and value are trimmed, the value holds no separator, and the first separator of the printed
      line is the one after the key. */
  predicate Readable(indent: string, s: Setting) {
    && Strip(s.key) == s.key && Strip(s.value) == s.value
    && !Contains(s.value, SEPARATOR)
    && Find(indent + s.key + SEPARATOR, SEPARATOR) == Some(|indent| + |s.key|)
  }

  /** The first separator of `head + " = " + tail` is at or before the end of `head`, and `tail` has no say in where. */
  lemma FirstSeparator(head: string, tail: string)
    ensures var p := Find(head + SEPARATOR, SEPARATOR);
            && p.Some? && p.value <= |head|
            && Find(head + SEPARATOR + tail, SEPARATOR) == p
  {
    var short, long := head + SEPARATOR, head + SEPARATOR + tail;
    assert short[|head|..|head| + 3] == SEPARATOR;
    assert OccursAt(short, SEPARATOR, |head|);
    forall i: nat | i <= |head|
      ensures OccursAt(short, SEPARATOR, i) <==> OccursAt(long, SEPARATOR, i)
    {
      assert short[i..i + 3] == long[i..i + 3];
    }
  }

  /** A printed line reads back as the setting exactly when the setting is readable. */
  lemma ReadsBackIff(indent: string, s: Setting)
    requires AllSpace(indent)
    ensures ParseLine(PrintLine(indent, s)) == Some(s) <==> Readable(indent, s)
  {
    var head := indent + s.key;
    FirstSeparator(head, s.value);
    var p := Find(head + SEPARATOR, SEPARATOR).value;
    CutAtFirstSeparator(head, s.value, p);
    if p == |head| {
      StripIndent(indent, s.key);
      assert head[..p] == head;
      ValueReadsBackIff(s.value);
    } else {
      EarlySeparatorLosesKey(indent, s.key, p);
    }
  }

  /** What the two parts of a line are when its first separator is at `p`. */
  lemma CutAtFirstSeparator(head: string, value: string, p: nat)
    requires p <= |head| && Find(head + SEPARATOR + value, SEPARATOR) == Some(p)
    ensures var parsed := ParseLine(head + SEPARATOR + value);
            && parsed.Some?
            && parsed.value.key == Strip(head[..p])
            && (p == |head| ==> parsed.value.value == Strip(Split(value, SEPARATOR)[0]))
  {
    PrintedSlices(head, value, p);
  }

  lemma PrintedSlices(head: string, value: string, p: nat)
    requires p <= |head|
    ensures (head + SEPARATOR + value)[..p] == head[..p]
    ensures p == |head| ==> (head + SEPARATOR + value)[p + |SEPARATOR|..] == value
  {
  }

  lemma ValueReadsBackIff(value: string)
    ensures Strip(Split(value, SEPARATOR)[0]) == value <==> Strip(value) == value && !Contains(value, SEPARATOR)
  {
  }

  /** A separator inside the printed key cuts the key short. */
  lemma EarlySeparatorLosesKey(indent: string, key: string, p: nat)
    requires AllSpace(indent) && p < |indent + key|
    requires OccursAt(indent + key + SEPARATOR, SEPARATOR, p)
    ensures Strip((indent + key)[..p]) != key
  {
    var head := indent + key;
    assert forall j | 0 <= j < |indent| :: IsSpace(indent[j]) && indent[j] != '=';
    assert (head + SEPARATOR)[p..p + 3][1] == (head + SEPARATOR)[p + 1] == '=';
    if p < |indent| {
      assert AllSpace(head[..p]);
      StripIndent(head[..p], "");
      assert head[..p] + "" == head[..p];
    } else {
      assert head[..p] == indent + key[..p - |indent|];
      StripIndent(indent, key[..p - |indent|]);
    }
  }

  /** A readable setting without line breaks, which is printed as one line. */
  predicate ReadableLine(indent: string, s: Setting) {
    Readable(indent, s) && '\n' !in s.key && '\n' !in s.value
  }

  /** A trimmed key without `=` and a trimmed value without separator, both without line breaks. */
  predicate Plain(s: Setting) {
    && Strip(s.key) == s.key && '=' !in s.key && '\n' !in s.key
    && Strip(s.value) == s.value && !Contains(s.value, SEPARATOR) && '\n' !in s.value
  }

  /** Keys without `=` are always followed by the first separator. */
  lemma PlainSettingsAreReadable(indent: string, s: Setting)
    requires AllSpace(indent) && Plain(s)
    ensures ReadableLine(indent, s)
  {
    var head := indent + s.key;
    FirstSeparator(head, "");
    var p := Find(head + SEPARATOR, SEPARATOR).value;
    assert (head + SEPARATOR)[p..p + 3][1] == (head + SEPARATOR)[p + 1];
  }

  function PrintLines(indent: string, settings: seq<Setting>): (lines: seq<string>)
    ensures |lines| == |settings|
  {
    if settings == [] then []
    else PrintLines(indent, settings[..|settings| - 1]) + [PrintLine(indent, settings[|settings| - 1])]
  }

  /** What a list of settings amounts to, later ones overriding earlier ones. */
  function MapOf(settings: seq<Setting>): map<string, string> {
    if settings == [] then map[]
    else MapOf(settings[..|settings| - 1])[settings[|settings| - 1].key := settings[|settings| - 1].value]
  }

  lemma {:induction false} PrintedLinesReadBack(indent: string, settings: seq<Setting>)
    requires AllSpace(indent) && '\n' !in indent
    requires forall i | 0 <= i < |settings| :: ReadableLine(indent, settings[i])
    ensures ParseLines(PrintLines(indent, settings)) == MapOf(settings)
    ensures LineFree(PrintLines(indent, settings))
  {
    if settings != [] {
      var n := |settings| - 1;
      PrintedLinesReadBack(indent, settings[..n]);
      ReadsBackIff(indent, settings[n]);
      var before := PrintLines(indent, settings[..n]);
      OneMoreLine(before, PrintLine(indent, settings[n]));
      OneMoreLineFree(before, indent, settings[n]);
    }
  }

  lemma OneMoreLineFree(lines: seq<string>, indent: string, s: Setting)
    requires LineFree(lines) && '\n' !in indent && '\n' !in s.key && '\n' !in s.value
    ensures LineFree(lines + [PrintLine(indent, s)])
  {
    assert '\n' !in PrintLine(indent, s);
  }

  /** Parsing undoes printing: readable settings without line breaks come back, later ones
      overriding earlier ones. */
  lemma PrintedBlobReadsBack(indent: string, settings: seq<Setting>)
    requires AllSpace(indent) && '\n' !in indent
    requires forall i | 0 <= i < |settings| :: ReadableLine(indent, settings[i])
    ensures ParseLines(Split(Join(PrintLines(indent, settings), NEWLINE), NEWLINE)) == MapOf(settings)
  {
    var lines := PrintLines(indent, settings);
    PrintedLinesReadBack(indent, settings);
    if settings != [] {
      SplitOfJoin(lines);
    } else {
      assert Join(lines, NEWLINE) == "";
      assert Find("", NEWLINE) == None;
      assert Split("", NEWLINE) == [""];
      assert Find("", SEPARATOR) == None;
      assert ParseLine("") == None;
      assert ParseEach([""]) == [None];
    }
  }

  function SettingsOf(m: map<string, string>, order: seq<string>): (settings: seq<Setting>)
    requires forall k | k in order :: k in m
    ensures |settings| == |order|
    ensures forall i | 0 <= i < |order| :: settings[i] == Setting(order[i], m[order[i]])
  {
    seq(|order|, i requires 0 <= i < |order| => Setting(order[i], m[order[i]]))
  }

  lemma {:induction false} MapOfSettings(m: map<string, string>, order: seq<string>)
    requires forall k | k in order :: k in m
    ensures MapOf(SettingsOf(m, order)) == map k | k in order :: m[k]
  {
    if order != [] {
      var n := |order| - 1;
      MapOfSettings(m, order[..n]);
      assert SettingsOf(m, order)[..n] == SettingsOf(m, order[..n]);
      assert order == order[..n] + [order[n]];
    }
  }

  /** A map of trimmed keys without `=` and trimmed values without ` = `, none with line breaks, printed
      in any order is recovered exactly. */
  lemma PrintedMapIsRecovered(indent: string, m: map<string, string>, order: seq<string>)
    requires AllSpace(indent) && '\n' !in indent
    requires forall k :: k in order <==> k in m
    requires forall k | k in m :: Plain(Setting(k, m[k]))
    ensures ParseLines(Split(Join(PrintLines(indent, SettingsOf(m, order)), NEWLINE), NEWLINE)) == m
  {
    var settings := SettingsOf(m, order);
    assert ParseLines(Split(Join(PrintLines(indent, settings), NEWLINE), NEWLINE)) == MapOf(settings) by {
      PlainMapIsReadable(indent, m, order);
      PrintedBlobReadsBack(indent, settings);
    }
    assert MapOf(settings) == m by {
      MapOfSettings(m, order);
    }
  }

  lemma PlainMapIsReadable(indent: string, m: map<string, string>, order: seq<string>)
    requires AllSpace(indent) && forall k | k in order :: k in m
    requires forall k | k in m :: Plain(Setting(k, m[k]))
    ensures forall i | 0 <= i < |order| :: ReadableLine(indent, SettingsOf(m, order)[i])
  {
    forall i | 0 <= i < |order|
      ensures ReadableLine(indent, SettingsOf(m, order)[i])
    {
      assert order[i] in m;
      PlainSettingsAreReadable(indent, Setting(order[i], m[order[i]]));
    }
  }
}
