/** `scripts/retag_untagged.py`: the run as a whole. Reading and writing the file are the
    argument `content` and the outcome `Written`; every other outcome leaves the file alone. */
module Retag {
  import opened Wrappers
  import opened Text
  import opened Tags
  import opened Placeholders

  /** One line of the final report: which line received which tag. */
  datatype Replacement = Replacement(line: nat, placeholder: string, tag: string)

  datatype Outcome =
    | PatternError                                   // the pattern `[]{n}` of an empty character set
    | DuplicateTags(duplicates: map<string, nat>)    // exit with status 1
    | NothingToDo
    | TagsExhausted                                  // RuntimeError of `generate_tag`
    | PlaceholdersRemain(count: nat)                 // warning, no write
    | Written(text: string, replacements: seq<Replacement>)

  /** What the file holds after the run. */
  function FileAfter(content: string, outcome: Outcome): string {
    if outcome.Written? then outcome.text else content
  }

  function Report(numbers: seq<nat>, placeholder: string, tags: seq<string>): (r: seq<Replacement>)
    requires |numbers| == |tags|
  {
    if tags == [] then []
    else Report(numbers[..|tags| - 1], placeholder, tags[..|tags| - 1])
         + [Replacement(numbers[|tags| - 1], placeholder, tags[|tags| - 1])]
  }

  lemma {:induction false} ReportAt(numbers: seq<nat>, placeholder: string, tags: seq<string>, i: nat)
    requires |numbers| == |tags| && i < |tags|
    ensures |Report(numbers, placeholder, tags)| == |tags|
    ensures Report(numbers, placeholder, tags)[i] == Replacement(numbers[i], placeholder, tags[i])
  {
    var n := |tags| - 1;
    if n > 0 {
      ReportAt(numbers[..n], placeholder, tags[..n], if i < n then i else 0);
    }
  }

  /** The outcome of `replace_untagged` for a file, the arguments and the random choices. */
  function Run(content: string, placeholder: string, length: nat, charset: string, rng: Choices): Outcome {
    if charset == "" then PatternError
    else
      var existing := ExtractTags(content, length, charset);
      if Duplicates(existing) != map[] then DuplicateTags(Duplicates(existing))
      else
        var quoted := Quoted(placeholder);
        var numbers := PlaceholderLines(Split(content, NEWLINE), quoted, 1);
        if numbers == [] then NothingToDo
        else
          match GenerateTags(Elements(existing), |numbers|, length, charset, rng)
          case None => TagsExhausted
          case Some(series) =>
            GeneratedTagsAreFresh(Elements(existing), |numbers|, length, charset, rng);
            var text := ReplaceEach(content, quoted, series.tags);
            if Count(text, quoted) > 0 then PlaceholdersRemain(Count(text, quoted))
            else Written(text, Report(numbers, placeholder, series.tags))
  }

  /** `replace_untagged` */
  method ReplaceUntagged(content: string, placeholder: string, length: nat, charset: string, rng: Choices)
    returns (outcome: Outcome)
    ensures outcome == Run(content, placeholder, length, charset, rng)
    ensures outcome.DuplicateTags? <==> charset != "" && HasRepeats(ExtractTags(content, length, charset))
    ensures outcome.NothingToDo? <==>
              charset != "" && !HasRepeats(ExtractTags(content, length, charset)) && !HasPlaceholder(content, placeholder)
  {
    EarlyOutcomes(content, placeholder, length, charset, rng);
    if charset == "" {
      return PatternError;
    }
    var existing := ExtractTags(content, length, charset);
    var duplicates := CheckForDuplicates(existing);
    if duplicates != map[] {
      return DuplicateTags(duplicates);
    }
    var quoted := Quoted(placeholder);
    var untagged := ScanLines(Split(content, NEWLINE), quoted);
    if |untagged| == 0 {
      return NothingToDo;
    }
    var series := DrawTags(Elements(existing), |untagged|, length, charset, rng);
    if series.None? {
      return TagsExhausted;
    }
    var tags := series.value.tags;
    GeneratedTagsAreFresh(Elements(existing), |untagged|, length, charset, rng);
    var modified, replacements := ReplaceAll(content, placeholder, tags, untagged);
    var remaining := Count(modified, quoted);
    if remaining > 0 {
      return PlaceholdersRemain(remaining);
    }
    return Written(modified, replacements);
  }

  /** The scan for placeholder lines. */
  method ScanLines(lines: seq<string>, quoted: string) returns (untagged: seq<nat>)
    ensures untagged == PlaceholderLines(lines, quoted, 1)
  {
    untagged := [];
    for k := 0 to |lines|
      invariant PlaceholderLines(lines, quoted, 1) == untagged + PlaceholderLines(lines[k..], quoted, 1 + k)
    {
      if Contains(lines[k], quoted) {
        untagged := untagged + [1 + k];
      }
    }
  }

  /** The loop that generates one new tag per placeholder line. */
  method DrawTags(existing: set<string>, n: nat, length: nat, charset: string, rng: Choices)
    returns (series: Option<Series>)
    requires charset != ""
    ensures series == GenerateTags(existing, n, length, charset, rng)
  {
    var tags: seq<string>, next := [], 0;
    for i := 0 to n
      invariant GenerateTags(existing, i, length, charset, rng) == Some(Series(tags, next))
    {
      var tag, next' := GenerateTag(existing + Elements(tags), length, charset, rng, next);
      OneMoreCall(existing, i, Series(tags, next), tag, next', length, charset, rng);
      if tag.None? {
        FailureIsFinal(existing, i + 1, n, length, charset, rng);
        return None;
      }
      tags, next := tags + [tag.value], next';
    }
    return Some(Series(tags, next));
  }

  /** The loop that places the new tags one by one. */
  method ReplaceAll(content: string, placeholder: string, tags: seq<string>, untagged: seq<nat>)
    returns (modified: string, replacements: seq<Replacement>)
    requires |untagged| == |tags|
    ensures modified == ReplaceEach(content, Quoted(placeholder), tags)
    ensures replacements == Report(untagged, placeholder, tags)
  {
    modified, replacements := content, [];
    for i := 0 to |tags|
      invariant ReplaceEach(content, Quoted(placeholder), tags)
             == ReplaceEach(modified, Quoted(placeholder), tags[i..])
      invariant replacements == Report(untagged[..i], placeholder, tags[..i])
    {
      modified := ReplaceFirst(modified, Quoted(placeholder), Quoted(tags[i]));
      replacements := replacements + [Replacement(untagged[i], placeholder, tags[i])];
      assert untagged[..i + 1][..i] == untagged[..i] && tags[..i + 1][..i] == tags[..i];
      assert tags[i..][1..] == tags[i + 1..];
    }
    assert untagged[..|tags|] == untagged && tags[..|tags|] == tags;
  }

  // ---------- when the file is written, and what is written

  /** A placeholder with a line break is on no line. */
  lemma PlaceholderWithBreakIsOnNoLine(content: string, placeholder: string)
    requires '\n' in placeholder
    ensures PlaceholderLines(Split(content, NEWLINE), Quoted(placeholder), 1) == []
  {
    var lines, quoted := Split(content, NEWLINE), Quoted(placeholder);
    SplitIsLineFree(content);
    if PlaceholderLines(lines, quoted, 1) != [] {
      RecordedHolds(lines, quoted, 1, 0);
      var line := lines[PlaceholderLines(lines, quoted, 1)[0] - 1];
      BreakInOccurrence(line, placeholder, Find(line, quoted).value);
    }
  }

  lemma BreakInOccurrence(s: string, word: string, i: nat)
    requires OccursAt(s, Quoted(word), i) && '\n' in word
    ensures '\n' in s
  {
    QuotedShape(s, word, i);
    var j :| 0 <= j < |word| && word[j] == '\n';
    assert s[i + 1 + j] == word[j];
  }

  /** No line has two starts of the quoted placeholder, overlapping ones included. */
  ghost predicate SingleStarts(content: string, placeholder: string) {
    forall k | 0 <= k < |Split(content, NEWLINE)| :: AtMostOneStart(Split(content, NEWLINE)[k], Quoted(placeholder))
  }

  /** The run reaches the replacement loop. */
  ghost predicate TagsGenerated(content: string, placeholder: string, length: nat, charset: string, rng: Choices) {
    && charset != ""
    && NoRepeats(ExtractTags(content, length, charset))
    && LineCount(Split(content, NEWLINE), Quoted(placeholder)) > 0
    && GenerateTags(Elements(ExtractTags(content, length, charset)),
                    LineCount(Split(content, NEWLINE), Quoted(placeholder)), length, charset, rng).Some?
  }

  /** The tags of a run that reaches the replacement loop. */
  ghost function NewTags(content: string, placeholder: string, length: nat, charset: string, rng: Choices): (tags: seq<string>)
    requires TagsGenerated(content, placeholder, length, charset, rng)
    ensures |tags| == LineCount(Split(content, NEWLINE), Quoted(placeholder))
    ensures NoRepeats(tags)
    ensures forall t | t in tags :: IsTag(t, length, charset) && t !in ExtractTags(content, length, charset)
  {
    var existing := Elements(ExtractTags(content, length, charset));
    var n := LineCount(Split(content, NEWLINE), Quoted(placeholder));
    GeneratedTagsAreFresh(existing, n, length, charset, rng);
    GenerateTags(existing, n, length, charset, rng).value.tags
  }

  /** What the replacement loop does when it is reached, and when it is reached. */
  lemma RunByStages(content: string, placeholder: string, length: nat, charset: string, rng: Choices)
    ensures var outcome := Run(content, placeholder, length, charset, rng);
            if TagsGenerated(content, placeholder, length, charset, rng) then
              var text := ReplaceEach(content, Quoted(placeholder), NewTags(content, placeholder, length, charset, rng));
              && (outcome.Written? || outcome.PlaceholdersRemain?)
              && (outcome.Written? <==> !Contains(text, Quoted(placeholder)))
              && (outcome.Written? ==> outcome.text == text)
            else !outcome.Written? && !outcome.PlaceholdersRemain?
  {
    LineNumbersShift(Split(content, NEWLINE), Quoted(placeholder), 0, 1);
    if charset != "" {
      DuplicatesAreTheRepeats(ExtractTags(content, length, charset));
    }
  }

  /** Some line holds the quoted placeholder. */
  predicate HasPlaceholder(content: string, placeholder: string) {
    exists k | 0 <= k < |Split(content, NEWLINE)| :: Contains(Split(content, NEWLINE)[k], "\"" + placeholder + "\"")
  }

  /** Some tag is found twice. */
  predicate HasRepeats(tags: seq<string>) {
    exists i, j | 0 <= i < j < |tags| :: tags[i] == tags[j]
  }

  lemma HasPlaceholderIff(content: string, placeholder: string)
    ensures HasPlaceholder(content, placeholder) <==> LineCount(Split(content, NEWLINE), Quoted(placeholder)) > 0
  {
    NoLinesIff(Split(content, NEWLINE), Quoted(placeholder));
    assert Quoted(placeholder) == "\"" + placeholder + "\"";
  }

  /** Which outcome a file gets before anything is drawn: repeated tags are reported whether or not
      there are placeholders. */
  lemma EarlyOutcomes(content: string, placeholder: string, length: nat, charset: string, rng: Choices)
    ensures var outcome, tags := Run(content, placeholder, length, charset, rng), ExtractTags(content, length, charset);
            && (outcome.PatternError? <==> charset == "")
            && (outcome.DuplicateTags? <==> charset != "" && HasRepeats(tags))
            && (outcome.NothingToDo? <==> charset != "" && !HasRepeats(tags) && !HasPlaceholder(content, placeholder))
  {
    LineNumbersShift(Split(content, NEWLINE), Quoted(placeholder), 0, 1);
    HasPlaceholderIff(content, placeholder);
    DuplicatesAreTheRepeats(ExtractTags(content, length, charset));
  }

  /** The reported duplicates are exactly the tags found at two places, with their number of places. */
  lemma ReportedDuplicates(content: string, placeholder: string, length: nat, charset: string, rng: Choices, t: string)
    requires Run(content, placeholder, length, charset, rng).DuplicateTags?
    ensures var duplicates := Run(content, placeholder, length, charset, rng).duplicates;
            var tags := ExtractTags(content, length, charset);
            && (t in duplicates <==> exists i, j :: 0 <= i < j < |tags| && tags[i] == t && tags[j] == t)
            && (t in duplicates ==> duplicates[t] == multiset(tags)[t] == |Places(tags, t)|)
  {
    var tags := ExtractTags(content, length, charset);
    DuplicatesStandTwice(tags, t);
    PlacesAreCounted(tags, t);
  }

  /** Which outcome a file without repeated tags and with placeholder lines gets: the draws give out, or the
      file is written, or placeholders remain, as many as there are disjoint occurrences. */
  lemma LateOutcomes(content: string, placeholder: string, length: nat, charset: string, rng: Choices)
    ensures var outcome, tags := Run(content, placeholder, length, charset, rng), ExtractTags(content, length, charset);
            var n := LineCount(Split(content, NEWLINE), Quoted(placeholder));
            && (outcome.TagsExhausted? <==>
                  && charset != "" && !HasRepeats(tags) && HasPlaceholder(content, placeholder)
                  && exists m: nat | m < n :: CallFails(Elements(tags), m, length, charset, rng))
            && (outcome.PlaceholdersRemain? <==>
                  && TagsGenerated(content, placeholder, length, charset, rng)
                  && !AllSettled(Split(content, NEWLINE), Quoted(placeholder), NewTags(content, placeholder, length, charset, rng)))
            && (outcome.PlaceholdersRemain? ==>
                  outcome.count == Count(ReplaceEach(content, Quoted(placeholder), NewTags(content, placeholder, length, charset, rng)),
                                         Quoted(placeholder)) > 0)
  {
    var n := LineCount(Split(content, NEWLINE), Quoted(placeholder));
    EarlyOutcomes(content, placeholder, length, charset, rng);
    HasPlaceholderIff(content, placeholder);
    LineNumbersShift(Split(content, NEWLINE), Quoted(placeholder), 0, 1);
    RunByStages(content, placeholder, length, charset, rng);
    WrittenIff(content, placeholder, length, charset, rng);
    if charset != "" {
      SeriesFailsIff(Elements(ExtractTags(content, length, charset)), n, length, charset, rng);
    }
  }

  /** The loop over the text leaves no placeholder exactly when every line is settled by the tag
      meant for it, and then the text is the one in which each line got its tag. */
  lemma TextIsSettledIff(content: string, placeholder: string, tags: seq<string>)
    requires |tags| == LineCount(Split(content, NEWLINE), Quoted(placeholder)) > 0
    ensures var lines, quoted := Split(content, NEWLINE), Quoted(placeholder);
            && (!Contains(ReplaceEach(content, quoted, tags), quoted) <==> AllSettled(lines, quoted, tags))
            && (AllSettled(lines, quoted, tags) ==>
                  ReplaceEach(content, quoted, tags) == Join(Retagged(lines, quoted, tags), NEWLINE))
  {
    var lines, quoted := Split(content, NEWLINE), Quoted(placeholder);
    if '\n' in placeholder {
      PlaceholderWithBreakIsOnNoLine(content, placeholder);
      LineNumbersShift(lines, quoted, 0, 1);
    }
    JoinOfSplit(content, NEWLINE);
    ReplaceEachOfJoin(lines, quoted, tags);
    ContainsOfJoin(ReplaceEachInLines(lines, quoted, tags), quoted);
    NoLinesIff(ReplaceEachInLines(lines, quoted, tags), quoted);
    LoopSettlesAllIff(lines, quoted, tags);
  }

  /** The file is written exactly when the extracted tags have no repeats, some line holds the
      placeholder, tag generation succeeds, and every line is settled by the tag meant for it.
      This holds for every placeholder, character set and run of the generator. */
  lemma WrittenIff(content: string, placeholder: string, length: nat, charset: string, rng: Choices)
    ensures Run(content, placeholder, length, charset, rng).Written?
       <==> TagsGenerated(content, placeholder, length, charset, rng) &&
            AllSettled(Split(content, NEWLINE), Quoted(placeholder), NewTags(content, placeholder, length, charset, rng))
  {
    RunByStages(content, placeholder, length, charset, rng);
    if TagsGenerated(content, placeholder, length, charset, rng) {
      TextIsSettledIff(content, placeholder, NewTags(content, placeholder, length, charset, rng));
    }
  }

  /** All lines are settled exactly when none of them has two starts of the quoted placeholder and
      none of the tags holds it. */
  lemma AllSettledIff(lines: seq<string>, placeholder: string, tags: seq<string>)
    requires |tags| == LineCount(lines, Quoted(placeholder))
    requires '"' !in placeholder
    ensures AllSettled(lines, Quoted(placeholder), tags)
       <==> && (forall k | 0 <= k < |lines| :: AtMostOneStart(lines[k], Quoted(placeholder)))
            && (forall i | 0 <= i < |tags| :: !Holds(tags[i], placeholder))
  {
    var quoted := Quoted(placeholder);
    var numbers := PlaceholderLines(lines, quoted, 0);
    forall i | 0 <= i < |tags|
      ensures numbers[i] < |lines| && Contains(lines[numbers[i]], quoted)
      ensures !Contains(Retagged(lines, quoted, tags)[numbers[i]], quoted)
         <==> AtMostOneStart(lines[numbers[i]], quoted) && !Holds(tags[i], placeholder)
    {
      RecordedHolds(lines, quoted, 0, i);
      RecordedLineGetsItsTag(lines, quoted, tags, 0, i, numbers[i]);
      SettledIff(lines[numbers[i]], placeholder, tags[i]);
    }
    forall k | 0 <= k < |lines|
      ensures !Contains(lines[k], quoted) ==>
                AtMostOneStart(lines[k], quoted) && !Contains(Retagged(lines, quoted, tags)[k], quoted)
      ensures Contains(lines[k], quoted) ==> exists i :: 0 <= i < |tags| && numbers[i] == k
    {
      if Contains(lines[k], quoted) {
        HoldsIsRecorded(lines, quoted, 0, k);
      } else {
        OtherLinesStay(lines, quoted, tags, k);
      }
    }
  }

  /** For a placeholder without quotes: the file is written exactly when the extracted tags have no
      repeats, some line holds the placeholder, a tag is found for each such line, no line has two
      starts of the quoted placeholder (overlapping ones included), and no tag drawn holds the
      placeholder; without quotes in the character set, that is to say the placeholder was not drawn. */
  lemma WrittenIffSingleStarts(content: string, placeholder: string, length: nat, charset: string, rng: Choices)
    requires '"' !in placeholder
    ensures Run(content, placeholder, length, charset, rng).Written?
       <==> && TagsGenerated(content, placeholder, length, charset, rng)
            && (forall t | t in NewTags(content, placeholder, length, charset, rng) :: !Holds(t, placeholder))
            && SingleStarts(content, placeholder)
  {
    WrittenIff(content, placeholder, length, charset, rng);
    if TagsGenerated(content, placeholder, length, charset, rng) {
      var tags := NewTags(content, placeholder, length, charset, rng);
      AllSettledIff(Split(content, NEWLINE), placeholder, tags);
    }
  }

  /** A written text is the old lines with each placeholder line given its tag. */
  lemma WrittenText(content: string, placeholder: string, length: nat, charset: string, rng: Choices)
    requires Run(content, placeholder, length, charset, rng).Written?
    ensures TagsGenerated(content, placeholder, length, charset, rng)
    ensures var lines, quoted := Split(content, NEWLINE), Quoted(placeholder);
            var tags := NewTags(content, placeholder, length, charset, rng);
            var outcome := Run(content, placeholder, length, charset, rng);
            && |PlaceholderLines(lines, quoted, 1)| == |tags|
            && !Contains(outcome.text, quoted)
            && outcome.text == Join(Retagged(lines, quoted, tags), NEWLINE)
            && outcome.replacements == Report(PlaceholderLines(lines, quoted, 1), placeholder, tags)
  {
    LineNumbersShift(Split(content, NEWLINE), Quoted(placeholder), 0, 1);
    RunByStages(content, placeholder, length, charset, rng);
    TextIsSettledIff(content, placeholder, NewTags(content, placeholder, length, charset, rng));
  }

  /** If the file is written, the report is the whole difference: the new text is the old lines with
      the `i`-th reported tag on the `i`-th reported line in place of its first quoted placeholder,
      the reported lines are exactly the lines that held the placeholder, and no quoted placeholder
      is left. The lines are those of the new text unless a tag itself holds a line break. */
  lemma WrittenIsFaithful(content: string, placeholder: string, length: nat, charset: string, rng: Choices)
    returns (lines': seq<string>)
    requires Run(content, placeholder, length, charset, rng).Written?
    ensures var Written(text, report) := Run(content, placeholder, length, charset, rng);
            && !Contains(text, Quoted(placeholder))
            && text == Join(lines', NEWLINE)
            && ('\n' !in charset ==> lines' == Split(text, NEWLINE))
            && ReportedChange(Split(content, NEWLINE), lines', Quoted(placeholder), report)
  {
    WrittenText(content, placeholder, length, charset, rng);
    var lines, quoted := Split(content, NEWLINE), Quoted(placeholder);
    var tags := NewTags(content, placeholder, length, charset, rng);
    lines' := Retagged(lines, quoted, tags);
    RetaggedIsReported(lines, placeholder, tags);
    if '\n' !in charset {
      SplitIsLineFree(content);
      TagsAreLineFree(tags, length, charset);
      RetaggedIsLineFree(lines, quoted, tags);
      SplitOfJoin(lines');
    }
  }

  /** The report lists the new tags in order; they are drawable, all different and not in the old text. */
  lemma ReportedTagsAreNew(content: string, placeholder: string, length: nat, charset: string, rng: Choices)
    requires Run(content, placeholder, length, charset, rng).Written?
    ensures var report := Run(content, placeholder, length, charset, rng).replacements;
            && |report| == LineCount(Split(content, NEWLINE), Quoted(placeholder))
            && (forall i | 0 <= i < |report| :: report[i].placeholder == placeholder)
            && (forall i | 0 <= i < |report| :: IsTag(report[i].tag, length, charset))
            && (forall i | 0 <= i < |report| :: report[i].tag !in ExtractTags(content, length, charset))
            && (forall i, j | 0 <= i < j < |report| :: report[i].tag != report[j].tag)
  {
    WrittenText(content, placeholder, length, charset, rng);
    var tags := NewTags(content, placeholder, length, charset, rng);
    var numbers := PlaceholderLines(Split(content, NEWLINE), Quoted(placeholder), 1);
    var report := Report(numbers, placeholder, tags);
    ReportAt(numbers, placeholder, tags, 0);
    forall i | 0 <= i < |tags|
      ensures report[i] == Replacement(numbers[i], placeholder, tags[i]) && tags[i] in tags
    {
      ReportAt(numbers, placeholder, tags, i);
    }
  }

  lemma TagsAreLineFree(tags: seq<string>, length: nat, charset: string)
    requires '\n' !in charset && forall t | t in tags :: IsTag(t, length, charset)
    ensures LineFree(tags)
  {
    forall k | 0 <= k < |tags|
      ensures '\n' !in tags[k]
    {
      assert IsTag(tags[k], length, charset);
    }
  }

  predicate InOrder(report: seq<Replacement>) {
    forall i, j | 0 <= i < j < |report| :: report[i].line < report[j].line
  }

  /** A report entry names a line that held the placeholder, and the tag put there. */
  predicate Faithful(lines: seq<string>, lines': seq<string>, quoted: string, entry: Replacement) {
    && 1 <= entry.line <= |lines| == |lines'|
    && Contains(lines[entry.line - 1], quoted)
    && lines'[entry.line - 1] == ReplaceFirst(lines[entry.line - 1], quoted, Quoted(entry.tag))
  }

  predicate Mentions(report: seq<Replacement>, line: nat) {
    exists i | 0 <= i < |report| :: report[i].line == line
  }

  /** The lines of the new text differ from the old ones exactly as reported. */
  ghost predicate ReportedChange(lines: seq<string>, lines': seq<string>, quoted: string, report: seq<Replacement>) {
    && |lines'| == |lines|
    && InOrder(report)
    && (forall i | 0 <= i < |report| :: Faithful(lines, lines', quoted, report[i]))
    && (forall k: nat | k < |lines| :: Mentions(report, k + 1) || lines'[k] == lines[k])
    && (forall k: nat | k < |lines| :: Mentions(report, k + 1) <==> Contains(lines[k], quoted))
  }

  lemma ReportEntryIsFaithful(lines: seq<string>, placeholder: string, tags: seq<string>, i: nat)
    requires |tags| == LineCount(lines, Quoted(placeholder)) == |PlaceholderLines(lines, Quoted(placeholder), 1)|
    requires i < |tags|
    ensures var quoted := Quoted(placeholder);
            var report := Report(PlaceholderLines(lines, quoted, 1), placeholder, tags);
            && |report| == |tags|
            && report[i] == Replacement(PlaceholderLines(lines, quoted, 1)[i], placeholder, tags[i])
            && Faithful(lines, Retagged(lines, quoted, tags), quoted, report[i])
  {
    var quoted := Quoted(placeholder);
    var numbers := PlaceholderLines(lines, quoted, 1);
    ReportAt(numbers, placeholder, tags, i);
    RecordedHolds(lines, quoted, 1, i);
    RecordedLineGetsItsTag(lines, quoted, tags, 1, i, numbers[i] - 1);
  }

  lemma ReportMentionsPlaceholderLine(lines: seq<string>, placeholder: string, tags: seq<string>, k: nat)
    requires |tags| == LineCount(lines, Quoted(placeholder)) == |PlaceholderLines(lines, Quoted(placeholder), 1)|
    requires k < |lines|
    ensures var quoted := Quoted(placeholder);
            var report := Report(PlaceholderLines(lines, quoted, 1), placeholder, tags);
            && (Mentions(report, k + 1) <==> Contains(lines[k], quoted))
            && (Mentions(report, k + 1) || Retagged(lines, quoted, tags)[k] == lines[k])
  {
    var quoted := Quoted(placeholder);
    var numbers := PlaceholderLines(lines, quoted, 1);
    var report := Report(numbers, placeholder, tags);
    if Contains(lines[k], quoted) {
      HoldsIsRecorded(lines, quoted, 1, k);
      var i :| 0 <= i < |numbers| && numbers[i] == 1 + k;
      ReportEntryIsFaithful(lines, placeholder, tags, i);
      assert report[i].line == k + 1;
    } else {
      OtherLinesStay(lines, quoted, tags, k);
      if Mentions(report, k + 1) {
        if tags != [] {
          ReportEntryIsFaithful(lines, placeholder, tags, 0);
        }
        var i :| 0 <= i < |report| && report[i].line == k + 1;
        ReportEntryIsFaithful(lines, placeholder, tags, i);
      }
    }
  }

  lemma RetaggedIsReported(lines: seq<string>, placeholder: string, tags: seq<string>)
    requires |tags| == LineCount(lines, Quoted(placeholder)) == |PlaceholderLines(lines, Quoted(placeholder), 1)|
    ensures var quoted := Quoted(placeholder);
            ReportedChange(lines, Retagged(lines, quoted, tags), quoted,
                           Report(PlaceholderLines(lines, quoted, 1), placeholder, tags))
  {
    var quoted := Quoted(placeholder);
    var numbers := PlaceholderLines(lines, quoted, 1);
    var report := Report(numbers, placeholder, tags);
    var lines' := Retagged(lines, quoted, tags);
    PlaceholderLinesIncrease(lines, quoted, 1);
    if tags != [] {
      ReportAt(numbers, placeholder, tags, 0);
    }
    forall i | 0 <= i < |report|
      ensures Faithful(lines, lines', quoted, report[i]) && report[i].line == numbers[i]
    {
      ReportEntryIsFaithful(lines, placeholder, tags, i);
    }
    forall k: nat | k < |lines|
      ensures Mentions(report, k + 1) || lines'[k] == lines[k]
      ensures Mentions(report, k + 1) <==> Contains(lines[k], quoted)
    {
      ReportMentionsPlaceholderLine(lines, placeholder, tags, k);
    }
  }

  lemma {:induction false} RetaggedIsLineFree(lines: seq<string>, quoted: string, tags: seq<string>)
    requires |tags| == LineCount(lines, quoted)
    requires LineFree(lines) && LineFree(tags)
    ensures LineFree(Retagged(lines, quoted, tags))
    decreases |lines|
  {
    if lines != [] {
      LineCountStep(lines, quoted);
      assert LineFree(lines[1..]);
      if Contains(lines[0], quoted) {
        assert LineFree(tags[1..]);
        RetaggedIsLineFree(lines[1..], quoted, tags[1..]);
        assert '\n' !in ReplaceFirst(lines[0], quoted, Quoted(tags[0]));
      } else {
        RetaggedIsLineFree(lines[1..], quoted, tags);
      }
    }
  }
}
