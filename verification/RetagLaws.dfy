/** Laws of whole runs of `scripts/retag_untagged.py`. */
module RetagLaws {
  import opened Text
  import opened Tags
  import opened Capacity
  import opened Placeholders
  import opened Placement
  import opened Retag

  // ---------- running it again

  /** A text without the quoted placeholder has no placeholder line. */
  lemma NoPlaceholderNoLines(text: string, placeholder: string)
    requires '\n' !in placeholder && !Contains(text, Quoted(placeholder))
    ensures PlaceholderLines(Split(text, NEWLINE), Quoted(placeholder), 1) == []
  {
    var lines, quoted := Split(text, NEWLINE), Quoted(placeholder);
    JoinOfSplit(text, NEWLINE);
    ContainsOfJoin(lines, quoted);
    if PlaceholderLines(lines, quoted, 1) != [] {
      RecordedHolds(lines, quoted, 1, 0);
    }
  }

  /** A written file had a placeholder without line breaks. */
  lemma WrittenPlaceholderHasNoBreak(content: string, placeholder: string, length: nat, charset: string, rng: Choices)
    requires Run(content, placeholder, length, charset, rng).Written?
    ensures '\n' !in placeholder
  {
    if '\n' in placeholder {
      PlaceholderWithBreakIsOnNoLine(content, placeholder);
    }
  }

  /** A second run never changes a written file, whatever it draws: it finds nothing to do, or
      stops at the duplicate check. */
  lemma RerunKeepsFile(content: string, placeholder: string, length: nat, charset: string, rng: Choices, rng': Choices)
    requires Run(content, placeholder, length, charset, rng).Written?
    ensures var text := Run(content, placeholder, length, charset, rng).text;
            var again := Run(text, placeholder, length, charset, rng');
            && FileAfter(text, again) == text
            && (again == NothingToDo <==> NoRepeats(ExtractTags(text, length, charset)))
            && (again.DuplicateTags? <==> !NoRepeats(ExtractTags(text, length, charset)))
  {
    WrittenPlaceholderHasNoBreak(content, placeholder, length, charset, rng);
    WrittenText(content, placeholder, length, charset, rng);
    var text := Run(content, placeholder, length, charset, rng).text;
    NoPlaceholderNoLines(text, placeholder);
    DuplicatesAreTheRepeats(ExtractTags(text, length, charset));
  }

  /** With a safe character set, what is found in a written text are old tags and reported new tags,
      all different. */
  lemma WrittenTagsAreDistinct(content: string, placeholder: string, length: nat, charset: string, rng: Choices)
    requires SafeTags(length, charset)
    requires Run(content, placeholder, length, charset, rng).Written?
    ensures TagsGenerated(content, placeholder, length, charset, rng)
    ensures var text := Run(content, placeholder, length, charset, rng).text;
            var tags := NewTags(content, placeholder, length, charset, rng);
            && NoRepeats(ExtractTags(text, length, charset))
            && forall t | t in ExtractTags(text, length, charset) ::
                 t in tags || t in ExtractTags(content, length, charset)
  {
    RunByStages(content, placeholder, length, charset, rng);
    var tags := NewTags(content, placeholder, length, charset, rng);
    FoundAfterLoop(content, placeholder, tags, length, charset);
  }

  /** With a safe character set a second run on the written file is a no-op, whatever it draws. */
  lemma RerunDoesNothing(content: string, placeholder: string, length: nat, charset: string, rng: Choices, rng': Choices)
    requires SafeTags(length, charset)
    requires Run(content, placeholder, length, charset, rng).Written?
    ensures Run(Run(content, placeholder, length, charset, rng).text, placeholder, length, charset, rng') == NothingToDo
  {
    WrittenTagsAreDistinct(content, placeholder, length, charset, rng);
    RerunKeepsFile(content, placeholder, length, charset, rng, rng');
  }

  /** No tag is lost: when the placeholder cannot be mistaken for part of the pattern and matches cannot
      overlap, every tag found in the old text that does not hold the placeholder is found in the new one. */
  lemma OldTagsSurvive(content: string, placeholder: string, length: nat, charset: string, rng: Choices, t: string)
    requires MatchesApart(length, charset) && SafeWord(placeholder)
    requires Run(content, placeholder, length, charset, rng).Written?
    requires t in ExtractTags(content, length, charset) && !Holds(t, placeholder)
    ensures t in ExtractTags(Run(content, placeholder, length, charset, rng).text, length, charset)
  {
    RunByStages(content, placeholder, length, charset, rng);
    SurvivesLoop(content, placeholder, NewTags(content, placeholder, length, charset, rng), t, length, charset);
  }

  // ---------- capacity

  /** A run that needs more tags than the character set can still supply ends in the
      `generate_tag` error, for every sequence of draws, and the file is not touched. */
  lemma DemandBeyondCapacityFails(content: string, placeholder: string, length: nat, charset: string, rng: Choices)
    requires charset != "" && NoRepeats(ExtractTags(content, length, charset))
    requires LineCount(Split(content, NEWLINE), Quoted(placeholder)) > 0
    requires LineCount(Split(content, NEWLINE), Quoted(placeholder)) + |Elements(ExtractTags(content, length, charset))|
             > Power(|Letters(charset)|, length)
    ensures Run(content, placeholder, length, charset, rng) == TagsExhausted
    ensures FileAfter(content, Run(content, placeholder, length, charset, rng)) == content
  {
    var existing := ExtractTags(content, length, charset);
    var n := LineCount(Split(content, NEWLINE), Quoted(placeholder));
    LineNumbersShift(Split(content, NEWLINE), Quoted(placeholder), 0, 1);
    DuplicatesAreTheRepeats(existing);
    if GenerateTags(Elements(existing), n, length, charset, rng).Some? {
      GeneratedTagsFitCapacity(Elements(existing), n, length, charset, rng);
    }
  }

  /** Generation can succeed exactly when the placeholder lines and the tags in use together fit the
      number of strings of that length over the character set. */
  lemma CapacityIsExact(content: string, placeholder: string, length: nat, charset: string)
    requires charset != "" && NoRepeats(ExtractTags(content, length, charset))
    requires LineCount(Split(content, NEWLINE), Quoted(placeholder)) > 0
    ensures (exists rng :: Run(content, placeholder, length, charset, rng) != TagsExhausted)
       <==> LineCount(Split(content, NEWLINE), Quoted(placeholder)) + |ExtractTags(content, length, charset)|
            <= Power(|Letters(charset)|, length)
  {
    var existing := ExtractTags(content, length, charset);
    var n := LineCount(Split(content, NEWLINE), Quoted(placeholder));
    ElementsSize(existing);
    if n + |existing| <= Power(|Letters(charset)|, length) {
      var rng := DemandWithinCapacityCanBeMet(Elements(existing), n, length, charset);
      RunByStages(content, placeholder, length, charset, rng);
      assert Run(content, placeholder, length, charset, rng) != TagsExhausted;
    } else {
      forall rng
        ensures Run(content, placeholder, length, charset, rng) == TagsExhausted
      {
        DemandBeyondCapacityFails(content, placeholder, length, charset, rng);
      }
    }
  }
}
