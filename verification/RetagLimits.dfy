/** Exactly which character sets make a second run of `scripts/retag_untagged.py` a no-op. */
module RetagLimits {
  import opened Wrappers
  import opened Text
  import opened Tags
  import opened Capacity
  import opened Placeholders
  import opened Placement
  import opened Retag
  import opened RetagLaws

  /** Whatever the file and the draws are, a second run on a written file does nothing. */
  ghost predicate RerunIsSafe(length: nat, charset: string) {
    forall content: string, placeholder: string, rng: Choices, rng': Choices ::
      Run(content, placeholder, length, charset, rng).Written? ==>
        Run(Run(content, placeholder, length, charset, rng).text, placeholder, length, charset, rng') == NothingToDo
  }

  // ---------- a run whose result fails the duplicate check

  /** A run that replaces a single placeholder line by a chosen unused tag, and writes the file if that
      leaves no placeholder. */
  lemma RunWithTag(content: string, placeholder: string, tag: string, length: nat, charset: string) returns (rng: Choices)
    requires charset != "" && IsTag(tag, length, charset) && tag !in ExtractTags(content, length, charset)
    requires NoRepeats(ExtractTags(content, length, charset))
    requires LineCount(Split(content, NEWLINE), Quoted(placeholder)) == 1
    ensures TagsGenerated(content, placeholder, length, charset, rng)
    ensures NewTags(content, placeholder, length, charset, rng) == [tag]
    ensures var text := ReplaceFirst(content, Quoted(placeholder), Quoted(tag));
            var outcome := Run(content, placeholder, length, charset, rng);
            (outcome.Written? <==> !Contains(text, Quoted(placeholder))) && (outcome.Written? ==> outcome.text == text)
  {
    rng := FreshTagsCanBeDrawn(Elements(ExtractTags(content, length, charset)), [tag], length, charset);
    RunByStages(content, placeholder, length, charset, rng);
    OneReplacement(content, Quoted(placeholder), tag);
  }

  lemma OneReplacement(content: string, quoted: string, tag: string)
    ensures ReplaceEach(content, quoted, [tag]) == ReplaceFirst(content, quoted, Quoted(tag))
  {
    assert [tag][1..] == [];
  }

  /** A file with one old tag and one placeholder, whose new text repeats a tag. */
  lemma SecondRunFails(content: string, placeholder: string, oldTag: string, tag: string, length: nat, charset: string)
    requires charset != "" && IsTag(tag, length, charset) && tag != oldTag
    requires LineCount(Split(content, NEWLINE), Quoted(placeholder)) == 1 && ExtractTags(content, length, charset) == [oldTag]
    requires var text := ReplaceFirst(content, Quoted(placeholder), Quoted(tag));
             !Contains(text, Quoted(placeholder)) && !NoRepeats(ExtractTags(text, length, charset))
    ensures !RerunIsSafe(length, charset)
  {
    var rng := RunWithTag(content, placeholder, tag, length, charset);
    RerunKeepsFile(content, placeholder, length, charset, rng, rng);
  }

  /** The character of a placeholder that is nowhere else. */
  lemma LoneCharacter(head: string, tail: string, x: char, i: nat)
    requires x != '"' && x !in head && x !in tail
    requires i < |head + Quoted([x]) + tail| && (head + Quoted([x]) + tail)[i] == x
    ensures i == |head| + 1
  {
  }

  lemma PlaceholderHasCharacter(text: string, x: char)
    requires Contains(text, Quoted([x]))
    ensures x in text
  {
    var i := Find(text, Quoted([x])).value;
    QuotedShape(text, [x], i);
    assert text[i + 1] == x;
  }

  lemma LoneStart(head: string, tail: string, x: char)
    requires x != '"' && x !in head && x !in tail
    ensures Find(head + Quoted([x]) + tail, Quoted([x])) == Some(|head|)
    ensures AtMostOneStart(head + Quoted([x]) + tail, Quoted([x]))
  {
    var s := head + Quoted([x]) + tail;
    ReplaceBetween(head, Quoted([x]), tail, "");
    forall i: nat | OccursAt(s, Quoted([x]), i)
      ensures i == |head|
    {
      QuotedShape(s, [x], i);
      LoneCharacter(head, tail, x, i + 1);
    }
    FindIs(s, Quoted([x]), |head|);
  }

  lemma NoPlaceholderLeft(head: string, tail: string, tag: string, x: char)
    requires x != '"' && x !in head && x !in tail && x !in tag
    ensures !Contains(head + Quoted(tag) + tail, Quoted([x]))
  {
    if Contains(head + Quoted(tag) + tail, Quoted([x])) {
      PlaceholderHasCharacter(head + Quoted(tag) + tail, x);
    }
  }

  /** A placeholder of one character that is nowhere else in the text around it. */
  lemma LonePlaceholder(head: string, tail: string, tag: string, x: char)
    requires x != '"' && x != '\n' && x !in head && x !in tail && x !in tag
    ensures LineCount(Split(head + Quoted([x]) + tail, NEWLINE), Quoted([x])) == 1
    ensures ReplaceFirst(head + Quoted([x]) + tail, Quoted([x]), Quoted(tag)) == head + Quoted(tag) + tail
    ensures !Contains(head + Quoted(tag) + tail, Quoted([x]))
  {
    var s, text := head + Quoted([x]) + tail, head + Quoted(tag) + tail;
    LoneStart(head, tail, x);
    assert LineCount(Split(s, NEWLINE), Quoted([x])) == 1 by {
      SingleStartOneLine(s, Quoted([x]));
    }
    assert ReplaceFirst(s, Quoted([x]), Quoted(tag)) == text by {
      ReplaceBetween(head, Quoted([x]), tail, Quoted(tag));
    }
    NoPlaceholderLeft(head, tail, tag, x);
  }

  lemma EndsThere(head: string, a: string, b: string)
    ensures head + a + "" == head + a && head + b + "" == head + b
  {
  }

  /** Rewriting the middle of three parts. */
  lemma ReplaceBetween(head: string, middle: string, tail: string, sub: string)
    ensures OccursAt(head + middle + tail, middle, |head|)
    ensures ReplaceAt(head + middle + tail, middle, sub, |head|) == head + sub + tail
  {
  }

  lemma {:induction false} ScanSkips(s: string, i: nat, j: nat, length: nat, charset: string)
    requires i <= j
    requires forall k: nat | i <= k < j :: !MatchAt(s, k, length, charset)
    ensures MatchesFrom(s, i, length, charset) == MatchesFrom(s, j, length, charset)
    decreases j - i
  {
    if i < j {
      ScanSkips(s, i + 1, j, length, charset);
    }
  }

  lemma {:induction false} NothingFound(s: string, i: nat, length: nat, charset: string)
    requires forall k: nat | i <= k :: !MatchAt(s, k, length, charset)
    ensures MatchesFrom(s, i, length, charset) == []
    decreases |s| - i
  {
    if i + length + 11 <= |s| {
      NothingFound(s, i + 1, length, charset);
    }
  }

  lemma ScanReaches(s: string, m: nat, length: nat, charset: string)
    requires MatchAt(s, 0, length, charset) && MatchAt(s, m, length, charset)
    requires length + 11 <= m && forall k: nat | length + 11 <= k < m :: !MatchAt(s, k, length, charset)
    ensures [0, m] <= MatchesFrom(s, 0, length, charset)
  {
    ScanSkips(s, length + 11, m, length, charset);
    var rest := MatchesFrom(s, m + length + 11, length, charset);
    assert MatchesFrom(s, m, length, charset) == [m] + rest;
    assert MatchesFrom(s, 0, length, charset) == [0] + ([m] + rest);
  }

  /** Two matches the scan reaches, with the same tag. */
  lemma RepeatedTag(s: string, m: nat, length: nat, charset: string)
    requires MatchAt(s, 0, length, charset) && MatchAt(s, m, length, charset)
    requires length + 11 <= m && forall k: nat | length + 11 <= k < m :: !MatchAt(s, k, length, charset)
    requires TagAt(s, 0, length) == TagAt(s, m, length)
    ensures !NoRepeats(ExtractTags(s, length, charset))
  {
    ScanReaches(s, m, length, charset);
    var ms, tags := MatchesFrom(s, 0, length, charset), ExtractTags(s, length, charset);
    assert ms[0] == 0 && ms[1] == m;
    assert tags[0] == tags[1];
  }

  lemma SingleTag(s: string, length: nat, charset: string)
    requires MatchAt(s, 0, length, charset)
    requires MatchesFrom(s, length + 11, length, charset) == []
    ensures ExtractTags(s, length, charset) == [TagAt(s, 0, length)]
  {
  }

  // ---------- a tag that begins with `;`

  /** A tag, and right after it the opening and tag of a pattern that is not closed yet. */
  function OpenPattern(oldTag: string): string {
    OPENING + oldTag + CLOSING + OPENING + oldTag
  }

  lemma OpenPatternShape(oldTag: string, word: string)
    ensures var n, s := |oldTag|, OpenPattern(oldTag) + Quoted(word);
            && |s| == 2 * n + 22 + |word|
            && (forall j | 0 <= j < 9 :: s[j] == OPENING[j])
            && (forall j | 9 <= j < 9 + n :: s[j] == oldTag[j - 9])
            && s[9 + n] == '"' && s[10 + n] == ';'
            && (forall j | n + 11 <= j < n + 20 :: s[j] == OPENING[j - n - 11])
            && (forall j | n + 20 <= j < 2 * n + 20 :: s[j] == oldTag[j - n - 20])
            && s[2 * n + 20] == '"' && (forall j | 2 * n + 21 <= j < |s| - 1 :: s[j] == word[j - 2 * n - 21])
  {
  }

  lemma OpenPatternTagBefore(oldTag: string, x: char, length: nat, charset: string)
    requires IsTag(oldTag, length, charset) && x != ';'
    ensures ExtractTags(OpenPattern(oldTag) + Quoted([x]), length, charset) == [oldTag]
  {
    var content := OpenPattern(oldTag) + Quoted([x]);
    OpenPatternShape(oldTag, [x]);
    MatchFromPieces(content, 0, oldTag, length, charset);
    assert content[2 * length + 21] == x && content[length + 12] == 'e';
    forall k: nat | length + 11 <= k
      ensures !MatchAt(content, k, length, charset)
    {
      if MatchAt(content, k, length, charset) {
        MatchShape(content, k, length, charset);
      }
    }
    NothingFound(content, length + 11, length, charset);
    SingleTag(content, length, charset);
  }

  /** The `;` of the new tag closes the second pattern. */
  lemma OpenPatternSecondMatch(oldTag: string, tag: string, length: nat, charset: string)
    requires length > 0 && IsTag(oldTag, length, charset) && IsTag(tag, length, charset)
    requires tag[0] == ';'
    ensures var text := OpenPattern(oldTag) + Quoted(tag);
            MatchAt(text, length + 11, length, charset) && TagAt(text, length + 11, length) == oldTag
  {
    var text := OpenPattern(oldTag) + Quoted(tag);
    OpenPatternShape(oldTag, tag);
    MatchFromPieces(text, length + 11, oldTag, length, charset);
  }

  lemma OpenPatternRepeats(oldTag: string, tag: string, length: nat, charset: string)
    requires length > 0 && IsTag(oldTag, length, charset) && IsTag(tag, length, charset)
    requires tag[0] == ';'
    ensures !NoRepeats(ExtractTags(OpenPattern(oldTag) + Quoted(tag), length, charset))
  {
    var text := OpenPattern(oldTag) + Quoted(tag);
    OpenPatternShape(oldTag, tag);
    MatchFromPieces(text, 0, oldTag, length, charset);
    OpenPatternSecondMatch(oldTag, tag, length, charset);
    RepeatedTag(text, length + 11, length, charset);
  }

  lemma OpenPatternPlaced(oldTag: string, tag: string, x: char)
    requires x == 'P' || x == 'Q'
    requires x !in oldTag && x !in tag
    ensures LineCount(Split(OpenPattern(oldTag) + Quoted([x]), NEWLINE), Quoted([x])) == 1
    ensures ReplaceFirst(OpenPattern(oldTag) + Quoted([x]), Quoted([x]), Quoted(tag)) == OpenPattern(oldTag) + Quoted(tag)
    ensures !Contains(OpenPattern(oldTag) + Quoted(tag), Quoted([x]))
  {
    var head := OpenPattern(oldTag);
    assert x !in head;
    LonePlaceholder(head, "", tag, x);
    EndsThere(head, Quoted([x]), Quoted(tag));
  }

  /** If a tag can begin with `;`, a new tag can close the pattern to its left and repeat an old tag. */
  lemma SemicolonTagSpoilsRerun(length: nat, charset: string, c: char)
    requires length > 0 && ';' in charset && c in charset && c != ';'
    ensures !RerunIsSafe(length, charset)
  {
    var oldTag, tag := Filled(c, length), Filled(';', length);
    var x := if c == 'P' then 'Q' else 'P';
    assert tag[0] != oldTag[0];
    OpenPatternTagBefore(oldTag, x, length, charset);
    OpenPatternRepeats(oldTag, tag, length, charset);
    OpenPatternPlaced(oldTag, tag, x);
    SecondRunFails(OpenPattern(oldTag) + Quoted([x]), [x], oldTag, tag, length, charset);
  }

  // ---------- a tag that ends with the text before an opening quote

  /** A tag that ends with the text before an opening quote. */
  function OpeningTag(length: nat): string
    requires length >= 8
  {
    Filled('r', length - 8) + OPENING[..8]
  }

  lemma OpeningTagShape(length: nat, charset: string)
    requires CanHoldOpening(length, charset)
    ensures var tag := OpeningTag(length);
            && IsTag(tag, length, charset) && '"' !in tag && ';' !in tag && 'P' !in tag
            && tag[length - 8..] == OPENING[..8] && tag[0] == 'r' && tag != Filled('r', length)
  {
    var tag := OpeningTag(length);
    assert OPENING[0] == 'r';
    assert tag[length - 1] == OPENING[7] == '@';
  }

  /** A tag, then something quoted, then a tag whose closing quote is there and whose opening is not. */
  function ClosedPattern(oldTag: string, middle: string): string {
    OPENING + oldTag + CLOSING + middle + oldTag + CLOSING
  }

  lemma ClosedPatternShape(oldTag: string, middle: string)
    ensures var n, k, s := |oldTag|, |middle|, ClosedPattern(oldTag, middle);
            && |s| == 2 * n + 13 + k
            && (forall j | 0 <= j < 9 :: s[j] == OPENING[j])
            && (forall j | 9 <= j < 9 + n :: s[j] == oldTag[j - 9])
            && s[9 + n] == '"' && s[10 + n] == ';'
            && (forall j | n + 11 <= j < n + 11 + k :: s[j] == middle[j - n - 11])
            && (forall j | n + 11 + k <= j < 2 * n + 11 + k :: s[j] == oldTag[j - n - 11 - k])
            && s[2 * n + 11 + k] == '"' && s[2 * n + 12 + k] == ';'
  {
  }

  lemma ClosedPatternTagBefore(oldTag: string, x: char, length: nat, charset: string)
    requires length > 5 && IsTag(oldTag, length, charset)
    ensures ExtractTags(ClosedPattern(oldTag, Quoted([x])), length, charset) == [oldTag]
  {
    var content := ClosedPattern(oldTag, Quoted([x]));
    ClosedPatternShape(oldTag, Quoted([x]));
    MatchFromPieces(content, 0, oldTag, length, charset);
    assert MatchesFrom(content, length + 11, length, charset) == [];
    SingleTag(content, length, charset);
  }

  /** The last eight characters of the new tag and its closing quote open a second match. */
  lemma ClosedPatternSecondMatch(oldTag: string, tag: string, length: nat, charset: string)
    requires length >= 8 && IsTag(oldTag, length, charset) && IsTag(tag, length, charset)
    requires tag[length - 8..] == OPENING[..8]
    ensures var text := ClosedPattern(oldTag, Quoted(tag));
            MatchAt(text, 2 * length + 4, length, charset) && TagAt(text, 2 * length + 4, length) == oldTag
  {
  }

  lemma ClosedPatternNoMatchBetween(oldTag: string, tag: string, length: nat, charset: string, k: nat)
    requires '"' !in tag && |oldTag| == length && IsTag(tag, length, charset)
    requires length + 11 <= k < 2 * length + 4
    ensures !MatchAt(ClosedPattern(oldTag, Quoted(tag)), k, length, charset)
  {
    var text := ClosedPattern(oldTag, Quoted(tag));
    ClosedPatternShape(oldTag, Quoted(tag));
    assert text[k + 8] == Quoted(tag)[k - length - 3] == tag[k - length - 4];
    if MatchAt(text, k, length, charset) {
      MatchShape(text, k, length, charset);
    }
  }

  lemma ClosedPatternRepeats(oldTag: string, tag: string, length: nat, charset: string)
    requires length >= 8 && '"' !in tag && IsTag(oldTag, length, charset) && IsTag(tag, length, charset)
    requires tag[length - 8..] == OPENING[..8]
    ensures !NoRepeats(ExtractTags(ClosedPattern(oldTag, Quoted(tag)), length, charset))
  {
    var text := ClosedPattern(oldTag, Quoted(tag));
    ClosedPatternShape(oldTag, Quoted(tag));
    MatchFromPieces(text, 0, oldTag, length, charset);
    ClosedPatternSecondMatch(oldTag, tag, length, charset);
    forall k: nat | length + 11 <= k < 2 * length + 4
      ensures !MatchAt(text, k, length, charset)
    {
      ClosedPatternNoMatchBetween(oldTag, tag, length, charset, k);
    }
    RepeatedTag(text, 2 * length + 4, length, charset);
  }

  lemma Regroup4(a: string, b: string, c: string, d: string)
    ensures a + b + (c + d) == a + b + c + d
  {
  }

  lemma ClosedPatternPlaced(oldTag: string, tag: string)
    requires 'P' !in oldTag && 'P' !in tag
    ensures LineCount(Split(ClosedPattern(oldTag, Quoted("P")), NEWLINE), Quoted("P")) == 1
    ensures ReplaceFirst(ClosedPattern(oldTag, Quoted("P")), Quoted("P"), Quoted(tag)) == ClosedPattern(oldTag, Quoted(tag))
    ensures !Contains(ClosedPattern(oldTag, Quoted(tag)), Quoted("P"))
  {
    var head, tail := OPENING + oldTag + CLOSING, oldTag + CLOSING;
    assert 'P' !in head && 'P' !in tail;
    LonePlaceholder(head, tail, tag, 'P');
    Regroup4(head, Quoted("P"), oldTag, CLOSING);
    Regroup4(head, Quoted(tag), oldTag, CLOSING);
  }

  /** If a tag can hold the text before an opening quote, a new tag can open a pattern to its right and
      repeat an old tag. */
  lemma OpeningTagSpoilsRerun(length: nat, charset: string)
    requires CanHoldOpening(length, charset)
    ensures !RerunIsSafe(length, charset)
  {
    assert OPENING[0] == 'r';
    var oldTag, tag := Filled('r', length), OpeningTag(length);
    OpeningTagShape(length, charset);
    ClosedPatternTagBefore(oldTag, 'P', length, charset);
    ClosedPatternRepeats(oldTag, tag, length, charset);
    ClosedPatternPlaced(oldTag, tag);
    SecondRunFails(ClosedPattern(oldTag, Quoted("P")), "P", oldTag, tag, length, charset);
  }

  // ---------- only semicolons

  predicate OnlySemicolons(charset: string) {
    forall c | c in charset :: c == ';'
  }

  lemma OnlyOneTag(t: string, length: nat, charset: string)
    requires OnlySemicolons(charset) && IsTag(t, length, charset)
    ensures t == Filled(';', length)
  {
  }

  /** Placing a tag of semicolons in a text without matches makes at most one: the match the tag is in and
      the match it closes would need different characters before its opening quote. */
  lemma AtMostOneMatch(s: string, word: string, tag: string, p: nat, i: nat, j: nat, length: nat, charset: string)
    requires length > 0 && OnlySemicolons(charset) && !CanHoldOpening(length, charset) && IsTag(tag, length, charset)
    requires OccursAt(s, Quoted(word), p) && ExtractTags(s, length, charset) == []
    requires var s' := ReplaceAt(s, Quoted(word), Quoted(tag), p);
             MatchAt(s', i, length, charset) && MatchAt(s', j, length, charset)
    ensures i == j
  {
    var s' := ReplaceAt(s, Quoted(word), Quoted(tag), p);
    NearReplacement(s, word, tag, p, i, length, charset);
    NearReplacement(s, word, tag, p, j, length, charset);
    MatchShape(s', i, length, charset);
    MatchShape(s', j, length, charset);
  }

  lemma OneMatchAfterReplacement(s: string, word: string, tag: string, p: nat, length: nat, charset: string)
    requires length > 0 && OnlySemicolons(charset) && !CanHoldOpening(length, charset) && IsTag(tag, length, charset)
    requires OccursAt(s, Quoted(word), p) && ExtractTags(s, length, charset) == []
    ensures DistinctMatches(ReplaceAt(s, Quoted(word), Quoted(tag), p), length, charset)
  {
    var s' := ReplaceAt(s, Quoted(word), Quoted(tag), p);
    forall i: nat, j: nat | MatchAt(s', i, length, charset) && MatchAt(s', j, length, charset)
      ensures i == j
    {
      AtMostOneMatch(s, word, tag, p, i, j, length, charset);
    }
  }

  lemma NearReplacement(s: string, word: string, tag: string, p: nat, m: nat, length: nat, charset: string)
    requires '"' !in charset && !CanHoldOpening(length, charset) && IsTag(tag, length, charset)
    requires OccursAt(s, Quoted(word), p) && ExtractTags(s, length, charset) == []
    requires MatchAt(ReplaceAt(s, Quoted(word), Quoted(tag), p), m, length, charset)
    ensures m + 8 == p || m + 9 + length == p
  {
    var s' := ReplaceAt(s, Quoted(word), Quoted(tag), p);
    assert (m + 8 == p) || m + 9 + length == p || m + length + 11 <= p || m >= p + length + 2 by {
      ReplaceAtShape(s, word, tag, p);
      TagCannotOpen(tag, length, charset);
      QuotesTouchOrClose(s', tag, p, m, length, charset);
    }
    if m + length + 11 <= p || m >= p + length + 2 {
      ClearMatchIsOld(s, word, tag, p, m, length, charset);
      ScanFindsMatch(s, 0, if m < p then m else m - length + |word|, length, charset);
    }
  }

  /** With semicolons only there is one possible tag, and a second run does nothing. */
  lemma OnlySemicolonsAreSafe(content: string, placeholder: string, length: nat, charset: string, rng: Choices, rng': Choices)
    requires length > 0 && OnlySemicolons(charset)
    requires Run(content, placeholder, length, charset, rng).Written?
    ensures Run(Run(content, placeholder, length, charset, rng).text, placeholder, length, charset, rng') == NothingToDo
  {
    RunByStages(content, placeholder, length, charset, rng);
    var tags := NewTags(content, placeholder, length, charset, rng);
    var tag := tags[0];
    assert tag in tags;
    OnlyOneTag(tag, length, charset);
    if |tags| > 1 {
      assert tags[1] in tags && tags[0] != tags[1];
      OnlyOneTag(tags[1], length, charset);
    }
    var existing := ExtractTags(content, length, charset);
    if existing != [] {
      assert existing[0] in existing;
      OnlyOneTag(existing[0], length, charset);
    }
    assert tags == [tag] && [tag][1..] == [];
    assert OPENING[0] == 'r';
    var text := ReplaceFirst(content, Quoted(placeholder), Quoted(tag));
    assert ReplaceEach(content, Quoted(placeholder), [tag]) == ReplaceEach(text, Quoted(placeholder), []) == text;
    if Contains(content, Quoted(placeholder)) {
      OneMatchAfterReplacement(content, placeholder, tag, Find(content, Quoted(placeholder)).value, length, charset);
      NoRepeatsIffDistinctMatches(text, length, charset);
    }
    RerunKeepsFile(content, placeholder, length, charset, rng, rng');
  }

  // ---------- the exact condition

  /** For every length and character set: a second run does nothing for every file, placeholder and
      sequence of draws exactly when no tag can begin with `;` and no tag can hold the text before an
      opening quote, or the character set is only semicolons. */
  lemma RerunIsSafeIff(length: nat, charset: string)
    ensures RerunIsSafe(length, charset) <==> SafeTags(length, charset) || OnlySemicolons(charset)
  {
    if SafeTags(length, charset) || OnlySemicolons(charset) {
      forall content: string, placeholder: string, rng: Choices, rng': Choices
        | Run(content, placeholder, length, charset, rng).Written?
        ensures Run(Run(content, placeholder, length, charset, rng).text, placeholder, length, charset, rng') == NothingToDo
      {
        if SafeTags(length, charset) {
          RerunDoesNothing(content, placeholder, length, charset, rng, rng');
        } else {
          OnlySemicolonsAreSafe(content, placeholder, length, charset, rng, rng');
        }
      }
    } else if length > 0 && ';' in charset {
      var c :| c in charset && c != ';';
      SemicolonTagSpoilsRerun(length, charset, c);
    } else {
      OpeningTagSpoilsRerun(length, charset);
    }
  }

  /** The script's default character set and placeholder are safe. */
  lemma DefaultsAreSafe()
    ensures SafeTags(5, "abcdefghijklmnopqrstuvwxyz123456789")
    ensures SafeWord("UNTAGGED")
  {
  }
}
