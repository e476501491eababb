/** Exactly when a run of `scripts/retag_untagged.py` can lose an old tag. */
module KeptTags {
  import opened Wrappers
  import opened Text
  import opened Tags
  import opened Capacity
  import opened Placeholders
  import opened Placement
  import opened Retag
  import opened RetagLaws
  import opened RetagLimits
  import opened RetagArguments

  /** Whatever the file and the draws are, no tag other than the placeholder is lost. */
  ghost predicate KeepsOldTags(length: nat, charset: string, placeholder: string) {
    forall content: string, rng: Choices, t: string ::
      Run(content, placeholder, length, charset, rng).Written? && t in ExtractTags(content, length, charset) && t != placeholder
      ==> t in ExtractTags(Run(content, placeholder, length, charset, rng).text, length, charset)
  }

  /** A run on a file with one placeholder that loses its only tag. */
  lemma TagIsLost(content: string, placeholder: string, oldTag: string, tag: string, length: nat, charset: string)
    requires IsTag(tag, length, charset) && tag != oldTag && oldTag != placeholder && charset != ""
    requires '\n' !in placeholder && Contains(content, Quoted(placeholder)) && AtMostOneStart(content, Quoted(placeholder))
    requires ExtractTags(content, length, charset) == [oldTag]
    requires var text := ReplaceFirst(content, Quoted(placeholder), Quoted(tag));
             !Contains(text, Quoted(placeholder)) && oldTag !in ExtractTags(text, length, charset)
    ensures !KeepsOldTags(length, charset, placeholder)
  {
    SingleStartOneLine(content, Quoted(placeholder));
    var rng := RunWithTag(content, placeholder, tag, length, charset);
    assert oldTag in ExtractTags(content, length, charset);
  }

  lemma OnlyMatch(s: string, m: nat, length: nat, charset: string)
    requires MatchAt(s, m, length, charset) && forall k: nat | MatchAt(s, k, length, charset) :: k == m
    ensures ExtractTags(s, length, charset) == [TagAt(s, m, length)]
  {
    OnlyMatchIsScanned(s, m, length, charset);
  }

  lemma OnlyMatchIsScanned(s: string, m: nat, length: nat, charset: string)
    requires MatchAt(s, m, length, charset) && forall k: nat | MatchAt(s, k, length, charset) :: k == m
    ensures MatchesFrom(s, 0, length, charset) == [m]
  {
    ScanSkips(s, 0, m, length, charset);
    NothingFound(s, m + length + 11, length, charset);
  }

  /** With a single start, replacing at that start is replacing the first. */
  lemma ReplaceOnlyStart(s: string, word: string, tag: string, p: nat)
    requires '"' !in word && !Holds(tag, word)
    requires OccursAt(s, Quoted(word), p) && AtMostOneStart(s, Quoted(word))
    ensures ReplaceFirst(s, Quoted(word), Quoted(tag)) == ReplaceAt(s, Quoted(word), Quoted(tag), p)
    ensures Contains(s, Quoted(word)) && !Contains(ReplaceFirst(s, Quoted(word), Quoted(tag)), Quoted(word))
  {
    assert Find(s, Quoted(word)) == Some(p);
    SingleStartIsSettled(s, word, tag, p);
  }

  // ---------- a placeholder that closes a pattern

  /** The opening and tag of a pattern, closed by the quoted word if that begins with `;`. */
  function ClosedByWord(oldTag: string, word: string): string {
    OPENING + oldTag + Quoted(word)
  }

  lemma ClosedByWordShape(oldTag: string, word: string)
    ensures var n, s := |oldTag|, ClosedByWord(oldTag, word);
            && |s| == n + 11 + |word|
            && (forall j | 0 <= j < 9 :: s[j] == OPENING[j])
            && (forall j | 9 <= j < 9 + n :: s[j] == oldTag[j - 9])
            && s[9 + n] == '"' && s[10 + n + |word|] == '"'
            && (forall j | 10 + n <= j < 10 + n + |word| :: s[j] == word[j - n - 10])
  {
  }

  lemma ClosedByWordStarts(oldTag: string, word: string)
    requires '"' !in word && !Holds(oldTag, word)
    ensures OccursAt(ClosedByWord(oldTag, word), Quoted(word), 9 + |oldTag|)
    ensures AtMostOneStart(ClosedByWord(oldTag, word), Quoted(word))
  {
    var s := ClosedByWord(oldTag, word);
    ClosedByWordShape(oldTag, word);
    QuotedAt(s, word, 9 + |oldTag|);
    QuotedAt(s, oldTag, 8);
    forall i: nat | OccursAt(s, Quoted(word), i)
      ensures i == 9 + |oldTag|
    {
      QuotedShape(s, word, i);
      if i != 9 + |oldTag| {
        HeldInText(s, word, oldTag, 8, i);
      }
    }
  }

  /** The word closes the pattern iff it begins with `;`. */
  lemma ClosedByWordTags(oldTag: string, word: string, length: nat, charset: string)
    requires IsTag(oldTag, length, charset)
    requires if word != "" && word[0] == ';' then '"' !in word else |word| == length && ';' !in word
    ensures ExtractTags(ClosedByWord(oldTag, word), length, charset)
         == if word != "" && word[0] == ';' then [oldTag] else []
  {
    var s := ClosedByWord(oldTag, word);
    ClosedByWordShape(oldTag, word);
    if word != "" && word[0] == ';' {
      MatchFromPieces(s, 0, oldTag, length, charset);
      forall k: nat | length + 11 <= k
        ensures !MatchAt(s, k, length, charset)
      {
        if MatchAt(s, k, length, charset) {
          MatchShape(s, k, length, charset);
        }
      }
      NothingFound(s, length + 11, length, charset);
      SingleTag(s, length, charset);
    } else {
      forall k: nat
        ensures !MatchAt(s, k, length, charset)
      {
        if MatchAt(s, k, length, charset) {
          MatchShape(s, k, length, charset);
        }
      }
      NothingFound(s, 0, length, charset);
    }
  }

  lemma ClosedByWordReplaced(oldTag: string, word: string, tag: string)
    requires '"' !in word && !Holds(oldTag, word) && !Holds(tag, word)
    ensures Contains(ClosedByWord(oldTag, word), Quoted(word))
    ensures ReplaceFirst(ClosedByWord(oldTag, word), Quoted(word), Quoted(tag)) == ClosedByWord(oldTag, tag)
    ensures !Contains(ClosedByWord(oldTag, tag), Quoted(word))
  {
    ClosedByWordStarts(oldTag, word);
    ReplaceOnlyStart(ClosedByWord(oldTag, word), word, tag, 9 + |oldTag|);
    ReplaceBetween(OPENING + oldTag, Quoted(word), "", Quoted(tag));
    EndsThere(OPENING + oldTag, Quoted(word), Quoted(tag));
  }

  /** A placeholder that begins with `;` closes the pattern of the tag to its left, and its replacement
      does not. */
  lemma ClosingPlaceholderLosesTag(placeholder: string, oldTag: string, tag: string, length: nat, charset: string)
    requires IsTag(oldTag, length, charset) && IsTag(tag, length, charset) && tag != oldTag && charset != ""
    requires '"' !in placeholder && '\n' !in placeholder && !Holds(oldTag, placeholder) && !Holds(tag, placeholder)
    requires placeholder != "" && placeholder[0] == ';' && ';' !in tag
    ensures !KeepsOldTags(length, charset, placeholder)
  {
    HoldsItself(placeholder, placeholder);
    ClosedByWordTags(oldTag, placeholder, length, charset);
    ClosedByWordTags(oldTag, tag, length, charset);
    ClosedByWordReplaced(oldTag, placeholder, tag);
    ClosedByWordStarts(oldTag, placeholder);
    TagIsLost(ClosedByWord(oldTag, placeholder), placeholder, oldTag, tag, length, charset);
  }

  // ---------- a placeholder that opens a pattern

  /** A tag whose pattern is opened by the quoted word, if that ends with the text before an opening quote. */
  function OpenedByWord(word: string, oldTag: string): string {
    Quoted(word) + oldTag + CLOSING
  }

  lemma OpenedByWordShape(word: string, oldTag: string)
    ensures var n, k, s := |oldTag|, |word|, OpenedByWord(word, oldTag);
            && |s| == k + n + 4
            && s[0] == '"' && s[k + 1] == '"' && s[k + n + 2] == '"' && s[k + n + 3] == ';'
            && (forall j | 1 <= j < k + 1 :: s[j] == word[j - 1])
            && (forall j | k + 2 <= j < k + n + 2 :: s[j] == oldTag[j - k - 2])
  {
  }

  lemma OpenedByWordMatch(word: string, oldTag: string, length: nat, charset: string)
    requires IsTag(oldTag, length, charset) && |word| >= 8 && word[|word| - 8..] == OPENING[..8]
    ensures var s, m := OpenedByWord(word, oldTag), |word| - 7;
            MatchAt(s, m, length, charset) && TagAt(s, m, length) == oldTag
  {
    var s, m := OpenedByWord(word, oldTag), |word| - 7;
    OpenedByWordShape(word, oldTag);
    forall j | m <= j < m + 8
      ensures s[j] == OPENING[j - m]
    {
      assert s[j] == word[j - 1] == word[|word| - 8..][j - m];
    }
    MatchFromPieces(s, m, oldTag, length, charset);
  }

  lemma OpenedByWordStarts(word: string, oldTag: string)
    requires '"' !in word && !Holds(oldTag, word)
    ensures OccursAt(OpenedByWord(word, oldTag), Quoted(word), 0)
    ensures AtMostOneStart(OpenedByWord(word, oldTag), Quoted(word))
  {
    var s := OpenedByWord(word, oldTag);
    OpenedByWordShape(word, oldTag);
    QuotedAt(s, word, 0);
    QuotedAt(s, oldTag, |word| + 1);
    forall i: nat | OccursAt(s, Quoted(word), i)
      ensures i == 0
    {
      QuotedShape(s, word, i);
      if i != 0 {
        HeldInText(s, word, oldTag, |word| + 1, i);
      }
    }
  }

  /** A word that ends with the text before an opening quote opens the pattern. */
  lemma OpenedByWordTags(word: string, oldTag: string, length: nat, charset: string)
    requires IsTag(oldTag, length, charset) && '"' !in word && |word| >= 8 && word[|word| - 8..] == OPENING[..8]
    ensures ExtractTags(OpenedByWord(word, oldTag), length, charset) == [oldTag]
  {
    var s := OpenedByWord(word, oldTag);
    OpenedByWordShape(word, oldTag);
    forall k: nat | MatchAt(s, k, length, charset)
      ensures k + 7 == |word|
    {
      MatchShape(s, k, length, charset);
    }
    OpenedByWordMatch(word, oldTag, length, charset);
    OnlyMatch(s, |word| - 7, length, charset);
  }

  /** A word of one letter does not. */
  lemma OpenedByFilled(c: char, oldTag: string, length: nat, charset: string)
    requires |oldTag| == length
    ensures ExtractTags(OpenedByWord(Filled(c, length), oldTag), length, charset) == []
  {
    var s := OpenedByWord(Filled(c, length), oldTag);
    OpenedByWordShape(Filled(c, length), oldTag);
    assert OPENING[0] == 'r' && OPENING[1] == 'e';
    forall k: nat
      ensures !MatchAt(s, k, length, charset)
    {
      if MatchAt(s, k, length, charset) {
        MatchShape(s, k, length, charset);
      }
    }
    NothingFound(s, 0, length, charset);
  }

  lemma OpenedByWordReplaced(word: string, oldTag: string, tag: string)
    requires '"' !in word && !Holds(oldTag, word) && !Holds(tag, word)
    ensures Contains(OpenedByWord(word, oldTag), Quoted(word))
    ensures ReplaceFirst(OpenedByWord(word, oldTag), Quoted(word), Quoted(tag)) == OpenedByWord(tag, oldTag)
    ensures !Contains(OpenedByWord(tag, oldTag), Quoted(word))
  {
    OpenedByWordStarts(word, oldTag);
    ReplaceOnlyStart(OpenedByWord(word, oldTag), word, tag, 0);
    StartsThere(Quoted(word), Quoted(tag), oldTag, CLOSING);
    ReplaceBetween("", Quoted(word), oldTag + CLOSING, Quoted(tag));
  }

  lemma StartsThere(a: string, b: string, c: string, d: string)
    ensures "" + a + (c + d) == a + c + d && "" + b + (c + d) == b + c + d
  {
  }

  /** A placeholder that ends with the text before an opening quote opens the pattern of the tag to its
      right, and its replacement does not. */
  lemma OpeningPlaceholderLosesTag(placeholder: string, oldTag: string, c: char, length: nat, charset: string)
    requires IsTag(oldTag, length, charset) && c in charset && Filled(c, length) != oldTag
    requires '"' !in placeholder && '\n' !in placeholder && !Holds(oldTag, placeholder) && !Holds(Filled(c, length), placeholder)
    requires |placeholder| >= 8 && placeholder[|placeholder| - 8..] == OPENING[..8]
    ensures !KeepsOldTags(length, charset, placeholder)
  {
    var tag := Filled(c, length);
    HoldsItself(placeholder, placeholder);
    OpenedByWordTags(placeholder, oldTag, length, charset);
    OpenedByFilled(c, oldTag, length, charset);
    OpenedByWordReplaced(placeholder, oldTag, tag);
    OpenedByWordStarts(placeholder, oldTag);
    TagIsLost(OpenedByWord(placeholder, oldTag), placeholder, oldTag, tag, length, charset);
  }

  // ---------- a tag that opens a pattern

  /** A quoted word, and behind it a tag in its pattern: a word that is an `OpeningTag` opens a match that
      ends where the tag begins. */
  function BeforeTag(word: string, oldTag: string, length: nat): string
    requires length >= 8
  {
    Quoted(word) + (Filled('r', length - 8) + OPENING + oldTag + CLOSING)
  }

  lemma BeforeTagShape(word: string, oldTag: string, length: nat)
    requires length >= 8 && |oldTag| == length
    ensures var k, s := |word|, BeforeTag(word, oldTag, length);
            && |s| == k + 2 * length + 5
            && s[0] == '"' && s[k + 1] == '"'
            && (forall j | 1 <= j < k + 1 :: s[j] == word[j - 1])
            && (forall j | k + 2 <= j < k + length + 2 :: s[j] == OpeningTag(length)[j - k - 2])
            && s[k + length + 2] == '"'
            && (forall j | k + length + 3 <= j < k + 2 * length + 3 :: s[j] == oldTag[j - k - length - 3])
            && s[k + 2 * length + 3] == '"' && s[k + 2 * length + 4] == ';'
  {
  }

  lemma TagBehindWord(word: string, oldTag: string, length: nat, charset: string)
    requires CanHoldOpening(length, charset) && IsTag(oldTag, length, charset)
    ensures var s, m := BeforeTag(word, oldTag, length), |word| + length - 6;
            MatchAt(s, m, length, charset) && TagAt(s, m, length) == oldTag
  {
    var s, m := BeforeTag(word, oldTag, length), |word| + length - 6;
    BeforeTagShape(word, oldTag, length);
    OpeningTagShape(length, charset);
    forall j | m <= j < m + 8
      ensures s[j] == OPENING[j - m]
    {
      assert s[j] == OpeningTag(length)[length - 8 + (j - m)] == OpeningTag(length)[length - 8..][j - m];
    }
    MatchFromPieces(s, m, oldTag, length, charset);
  }

  /** The match that an `OpeningTag` opens. */
  lemma TagBetween(oldTag: string, length: nat, charset: string)
    requires CanHoldOpening(length, charset) && IsTag(oldTag, length, charset) && oldTag[0] == ';'
    ensures var s, m := BeforeTag(OpeningTag(length), oldTag, length), length - 7;
            MatchAt(s, m, length, charset) && TagAt(s, m, length) == OpeningTag(length)
  {
    var tag := OpeningTag(length);
    var s, m := BeforeTag(tag, oldTag, length), length - 7;
    BeforeTagShape(tag, oldTag, length);
    OpeningTagShape(length, charset);
    forall j | m <= j < m + 8
      ensures s[j] == OPENING[j - m]
    {
      assert s[j] == tag[j - 1] == tag[length - 8..][j - m];
    }
    MatchFromPieces(s, m, tag, length, charset);
  }

  /** The opening quotes of the only matches there can be. */
  lemma BeforeTagMatches(word: string, oldTag: string, m: nat, length: nat, charset: string)
    requires IsTag(oldTag, length, charset) && '"' !in oldTag && '"' !in word
    requires CanHoldOpening(length, charset) && MatchAt(BeforeTag(word, oldTag, length), m, length, charset)
    ensures m == |word| + length - 6 || (m + 7 == |word| >= 8 && word[|word| - 8..] == OPENING[..8])
  {
    var s := BeforeTag(word, oldTag, length);
    BeforeTagShape(word, oldTag, length);
    OpeningTagShape(length, charset);
    MatchShape(s, m, length, charset);
    assert m + 8 == |word| + 1 || m + 8 == |word| + length + 2;
    if m + 8 == |word| + 1 {
      OpeningEndsWord(s, word, 0, m, length, charset);
    }
  }

  lemma BeforeTagOtherStart(word: string, oldTag: string, i: nat, length: nat, charset: string)
    requires CanHoldOpening(length, charset) && |oldTag| == length && '"' !in oldTag && '"' !in word
    requires OccursAt(BeforeTag(word, oldTag, length), Quoted(word), i) && i != 0
    ensures word == OpeningTag(length) || word == oldTag
  {
    var s := BeforeTag(word, oldTag, length);
    BeforeTagShape(word, oldTag, length);
    OpeningTagShape(length, charset);
    QuotedShape(s, word, i);
    assert |word| == length && (i == |word| + 1 || i == |word| + length + 2);
    if i == |word| + 1 {
      assert forall j | 0 <= j < |word| :: word[j] == s[|word| + 2 + j] == OpeningTag(length)[j];
    } else {
      assert forall j | 0 <= j < |word| :: word[j] == s[|word| + length + 3 + j] == oldTag[j];
    }
  }

  lemma BeforeTagStarts(word: string, oldTag: string, length: nat, charset: string)
    requires CanHoldOpening(length, charset) && |oldTag| == length && '"' !in oldTag && '"' !in word
    requires word != OpeningTag(length) && word != oldTag
    ensures OccursAt(BeforeTag(word, oldTag, length), Quoted(word), 0)
    ensures AtMostOneStart(BeforeTag(word, oldTag, length), Quoted(word))
  {
    var s := BeforeTag(word, oldTag, length);
    BeforeTagShape(word, oldTag, length);
    QuotedAt(s, word, 0);
    forall i: nat | OccursAt(s, Quoted(word), i)
      ensures i == 0
    {
      if i != 0 {
        BeforeTagOtherStart(word, oldTag, i, length, charset);
      }
    }
  }

  /** Behind a safe word the tag is found. */
  lemma BeforeTagTags(word: string, oldTag: string, length: nat, charset: string)
    requires CanHoldOpening(length, charset) && IsTag(oldTag, length, charset) && '"' !in oldTag && SafeWord(word)
    ensures ExtractTags(BeforeTag(word, oldTag, length), length, charset) == [oldTag]
  {
    var s, m := BeforeTag(word, oldTag, length), |word| + length - 6;
    TagBehindWord(word, oldTag, length, charset);
    forall k: nat | MatchAt(s, k, length, charset)
      ensures k == m
    {
      BeforeTagMatches(word, oldTag, k, length, charset);
    }
    OnlyMatch(s, m, length, charset);
  }

  /** Behind an `OpeningTag` only the match opened by that is found, and it swallows the opening of the other. */
  lemma BeforeTagSwallows(oldTag: string, length: nat, charset: string)
    requires CanHoldOpening(length, charset) && IsTag(oldTag, length, charset) && '"' !in oldTag && oldTag[0] == ';'
    ensures ExtractTags(BeforeTag(OpeningTag(length), oldTag, length), length, charset) == [OpeningTag(length)]
  {
    var tag := OpeningTag(length);
    var s, m := BeforeTag(tag, oldTag, length), length - 7;
    OpeningTagShape(length, charset);
    TagBetween(oldTag, length, charset);
    forall k: nat | MatchAt(s, k, length, charset)
      ensures k == m || k == 2 * length - 6
    {
      BeforeTagMatches(tag, oldTag, k, length, charset);
    }
    ScanSkips(s, 0, m, length, charset);
    NothingFound(s, m + length + 11, length, charset);
  }

  lemma BeforeTagReplaced(placeholder: string, oldTag: string, tag: string, length: nat)
    requires length >= 8 && '"' !in placeholder && !Holds(tag, placeholder)
    requires OccursAt(BeforeTag(placeholder, oldTag, length), Quoted(placeholder), 0)
    requires AtMostOneStart(BeforeTag(placeholder, oldTag, length), Quoted(placeholder))
    ensures var content := BeforeTag(placeholder, oldTag, length);
            && Contains(content, Quoted(placeholder))
            && ReplaceFirst(content, Quoted(placeholder), Quoted(tag)) == BeforeTag(tag, oldTag, length)
            && !Contains(BeforeTag(tag, oldTag, length), Quoted(placeholder))
  {
    var rest := Filled('r', length - 8) + OPENING + oldTag + CLOSING;
    ReplaceOnlyStart(BeforeTag(placeholder, oldTag, length), placeholder, tag, 0);
    assert "" + Quoted(placeholder) + rest == Quoted(placeholder) + rest && "" + Quoted(tag) + rest == Quoted(tag) + rest;
    ReplaceBetween("", Quoted(placeholder), rest, Quoted(tag));
  }

  /** When matches can overlap, a new tag can open one that swallows the opening of an old tag, whatever
      the placeholder is. */
  lemma OverlapLosesTag(placeholder: string, length: nat, charset: string)
    requires !MatchesApart(length, charset)
    requires SafeWord(placeholder) && '\n' !in placeholder
    ensures !KeepsOldTags(length, charset, placeholder)
  {
    var oldTag, tag := Filled(';', length), OpeningTag(length);
    OpeningTagShape(length, charset);
    assert tag != placeholder && oldTag != placeholder && tag != oldTag;
    HoldsItself(tag, placeholder);
    BeforeTagTags(placeholder, oldTag, length, charset);
    BeforeTagSwallows(oldTag, length, charset);
    BeforeTagStarts(placeholder, oldTag, length, charset);
    BeforeTagReplaced(placeholder, oldTag, tag, length);
    TagIsLost(BeforeTag(placeholder, oldTag, length), placeholder, oldTag, tag, length, charset);
  }

  /** The default placeholder, with a character set of the pattern's own characters: the file
      `"UNTAGGED"return @";;;;;;;;";` loses its tag if `return @` is drawn. */
  lemma SafePlaceholderCanLoseTag()
    ensures SafeWord("UNTAGGED") && !KeepsOldTags(8, "return @;", "UNTAGGED")
  {
    OverlapLosesTag("UNTAGGED", 8, "return @;");
  }

  /** Matches never overlap, in any text, exactly when a tag cannot hold both the text before an opening
      quote and `;`. */
  lemma MatchesStayApartIff(length: nat, charset: string)
    ensures MatchesApart(length, charset) <==>
            forall s: string, i: nat, j: nat |
              MatchAt(s, i, length, charset) && MatchAt(s, j, length, charset) && i < j :: i + length + 11 <= j
  {
    if MatchesApart(length, charset) {
      forall s: string, i: nat, j: nat | MatchAt(s, i, length, charset) && MatchAt(s, j, length, charset) && i < j
        ensures i + length + 11 <= j
      {
        MatchesDoNotOverlap(s, i, j, length, charset);
      }
    } else {
      var oldTag := Filled(';', length);
      TagBetween(oldTag, length, charset);
      TagBehindWord(OpeningTag(length), oldTag, length, charset);
    }
  }

  // ---------- a placeholder within a tag

  /** A tag that ends with a quote and the placeholder, in its pattern: the quoted placeholder ends there. */
  function WordAtEnd(n: nat, word: string): string {
    OPENING + Filled('"', n) + Quoted(word) + ";"
  }

  lemma WordAtEndShape(n: nat, word: string)
    ensures var k, s := |word|, WordAtEnd(n, word);
            && |s| == n + k + 12
            && (forall j | 0 <= j < 9 :: s[j] == OPENING[j])
            && (forall j | 8 <= j < n + 10 :: s[j] == '"')
            && (forall j | n + 10 <= j < n + 10 + k :: s[j] == word[j - n - 10])
            && s[n + 10 + k] == '"' && s[n + 11 + k] == ';'
  {
  }

  lemma WordAtEndStarts(n: nat, word: string)
    requires word != "" && '"' !in word
    ensures OccursAt(WordAtEnd(n, word), Quoted(word), n + 9)
    ensures AtMostOneStart(WordAtEnd(n, word), Quoted(word))
  {
    var s := WordAtEnd(n, word);
    WordAtEndShape(n, word);
    QuotedAt(s, word, n + 9);
    forall i: nat | OccursAt(s, Quoted(word), i)
      ensures i == n + 9
    {
      QuotedShape(s, word, i);
      assert s[i + 1] == word[0];
    }
  }

  lemma WordAtEndTags(n: nat, word: string, length: nat, charset: string)
    requires n + 1 + |word| == length && '"' in charset && forall c | c in word :: c in charset
    ensures ExtractTags(WordAtEnd(n, word), length, charset) == [Filled('"', n + 1) + word]
  {
    var s, tag := WordAtEnd(n, word), Filled('"', n + 1) + word;
    WordAtEndShape(n, word);
    MatchFromPieces(s, 0, tag, length, charset);
    OnlyMatch(s, 0, length, charset);
  }

  lemma WordAtEndGone(n: nat, c: char, length: nat, charset: string)
    requires n < length && c != '"'
    ensures ExtractTags(WordAtEnd(n, Filled(c, length)), length, charset) == []
  {
    var s := WordAtEnd(n, Filled(c, length));
    WordAtEndShape(n, Filled(c, length));
    assert OPENING[0] == 'r' && OPENING[1] == 'e' && OPENING[4] == 'r' && OPENING[5] == 'n';
    forall k: nat
      ensures !MatchAt(s, k, length, charset)
    {
      if MatchAt(s, k, length, charset) {
        MatchShape(s, k, length, charset);
      }
    }
    NothingFound(s, 0, length, charset);
  }

  /** A placeholder that is not empty and fits in a tag: rewriting it there breaks the tag. */
  lemma FittingPlaceholderLosesTag(placeholder: string, length: nat, charset: string)
    requires '"' !in placeholder && '\n' !in placeholder && placeholder != ""
    requires FitsInTag(placeholder, length, charset)
    ensures !KeepsOldTags(length, charset, placeholder)
  {
    var n := length - |placeholder| - 1;
    var oldTag, tag := Filled('"', n + 1) + placeholder, Filled(placeholder[0], length);
    assert oldTag[0] == '"';
    HoldsItself(tag, placeholder);
    WordAtEndStarts(n, placeholder);
    WordAtEndTags(n, placeholder, length, charset);
    WordAtEndGone(n, placeholder[0], length, charset);
    ReplaceOnlyStart(WordAtEnd(n, placeholder), placeholder, tag, n + 9);
    ReplaceBetween(OPENING + Filled('"', n), Quoted(placeholder), ";", Quoted(tag));
    TagIsLost(WordAtEnd(n, placeholder), placeholder, oldTag, tag, length, charset);
  }

  /** A tag that begins with a quote, in its pattern: two quotes at its beginning. */
  function TwoQuotes(word: string, c: char, n: nat): string {
    OPENING[..8] + Quoted(word) + (Filled(c, n) + CLOSING)
  }

  lemma TwoQuotesShape(word: string, c: char, n: nat)
    ensures var k, s := |word|, TwoQuotes(word, c, n);
            && |s| == k + n + 12
            && (forall j | 0 <= j < 9 :: s[j] == OPENING[j])
            && (forall j | 9 <= j < 9 + k :: s[j] == word[j - 9])
            && s[9 + k] == '"'
            && (forall j | 10 + k <= j < 10 + k + n :: s[j] == c)
            && s[10 + k + n] == '"' && s[11 + k + n] == ';'
  {
  }

  lemma TwoQuotesTagBefore(c: char, length: nat, charset: string)
    requires length > 1 && '"' in charset && c in charset
    ensures ExtractTags(TwoQuotes("", c, length - 1), length, charset) == ["\"" + Filled(c, length - 1)]
  {
    var content := TwoQuotes("", c, length - 1);
    TwoQuotesShape("", c, length - 1);
    MatchFromPieces(content, 0, "\"" + Filled(c, length - 1), length, charset);
    OnlyMatch(content, 0, length, charset);
  }

  lemma TwoQuotesReplaced(c: char, n: nat, tag: string)
    requires n > 0 && c != '"' && !Holds(tag, "")
    ensures var content := TwoQuotes("", c, n);
            && Contains(content, Quoted("")) && AtMostOneStart(content, Quoted(""))
            && ReplaceFirst(content, Quoted(""), Quoted(tag)) == TwoQuotes(tag, c, n)
            && !Contains(TwoQuotes(tag, c, n), Quoted(""))
  {
    TwoQuotesStarts(c, n);
    ReplaceOnlyStart(TwoQuotes("", c, n), "", tag, 8);
    ReplaceBetween(OPENING[..8], Quoted(""), Filled(c, n) + CLOSING, Quoted(tag));
  }

  /** An empty placeholder, in tags of two characters or more. */
  lemma EmptyPlaceholderLosesTag(length: nat, charset: string, c: char)
    requires length > 1 && '"' in charset && c in charset && c != '"'
    ensures !KeepsOldTags(length, charset, "")
  {
    var oldTag, tag := "\"" + Filled(c, length - 1), Filled(c, length);
    assert oldTag[0] == '"';
    HoldsItself(tag, "");
    TwoQuotesTagBefore(c, length, charset);
    TwoQuotesReplaced(c, length - 1, tag);
    TwoQuotesTags(c, length, charset, oldTag);
    TagIsLost(TwoQuotes("", c, length - 1), "", oldTag, tag, length, charset);
  }

  lemma TwoQuotesStarts(c: char, n: nat)
    requires n > 0 && c != '"'
    ensures OccursAt(TwoQuotes("", c, n), Quoted(""), 8)
    ensures AtMostOneStart(TwoQuotes("", c, n), Quoted(""))
  {
    var s := TwoQuotes("", c, n);
    TwoQuotesShape("", c, n);
    QuotedAt(s, "", 8);
    forall i: nat | OccursAt(s, Quoted(""), i)
      ensures i == 8
    {
      QuotedShape(s, "", i);
    }
  }

  lemma TwoQuotesTags(c: char, length: nat, charset: string, t: string)
    requires length > 1 && c != '"' && t != "" && t[0] == '"'
    ensures t !in ExtractTags(TwoQuotes(Filled(c, length), c, length - 1), length, charset)
  {
    var s := TwoQuotes(Filled(c, length), c, length - 1);
    TwoQuotesShape(Filled(c, length), c, length - 1);
    var ms, tags := MatchesFrom(s, 0, length, charset), ExtractTags(s, length, charset);
    assert OPENING[0] == 'r' && OPENING[1] == 'e' && OPENING[4] == 'r' && OPENING[5] == 'n';
    forall k | 0 <= k < |tags|
      ensures tags[k] != t
    {
      MatchShape(s, ms[k], length, charset);
      assert ms[k] == 0;
      assert tags[k][0] == s[9] == c;
    }
  }

  /** Three quotes in a row are two starts of an empty placeholder. */
  lemma ThreeQuotesStayUnsettled(line: string, i: nat)
    requires OccursAt(line, "\"\"\"", i)
    ensures !AtMostOneStart(line, Quoted(""))
  {
    assert line[i..i + 3][0] == line[i] && line[i..i + 3][1] == line[i + 1] && line[i..i + 3][2] == line[i + 2];
    QuotedAt(line, "", i);
    QuotedAt(line, "", i + 1);
  }

  /** With tags of one character, a file with a quote as a tag is not written for an empty placeholder. */
  lemma QuoteTagIsNotLost(content: string, charset: string, rng: Choices)
    requires "\"" in ExtractTags(content, 1, charset)
    ensures !Run(content, "", 1, charset, rng).Written?
  {
    var ms, tags := MatchesFrom(content, 0, 1, charset), ExtractTags(content, 1, charset);
    var k :| 0 <= k < |tags| && tags[k] == "\"";
    var m := ms[k];
    MatchShape(content, m, 1, charset);
    assert content[m + 9] == TagAt(content, m, 1)[0];
    var three := "\"\"\"";
    assert content[m + 8..m + 11] == three;
    assert OccursAt(content, three, m + 8);
    JoinOfSplit(content, NEWLINE);
    ContainsOfJoin(Split(content, NEWLINE), three);
    var l :| 0 <= l < |Split(content, NEWLINE)| && Contains(Split(content, NEWLINE)[l], three);
    ThreeQuotesStayUnsettled(Split(content, NEWLINE)[l], Find(Split(content, NEWLINE)[l], three).value);
    WrittenIffSingleStarts(content, "", 1, charset, rng);
  }

  // ---------- the exact condition

  lemma {:induction false} PowerOfOne(base: nat, exponent: nat)
    requires base <= 1
    ensures Power(base, exponent) <= 1
  {
    if exponent > 0 {
      PowerOfOne(base, exponent - 1);
    }
  }

  /** The number of tags besides the placeholder. */
  function OtherTags(placeholder: string, length: nat, charset: string): int {
    Power(|Letters(charset)|, length) - (if IsTag(placeholder, length, charset) then 1 else 0)
  }

  /** With two tags there are two letters. */
  lemma TwoLetters(length: nat, charset: string, c: char) returns (d: char)
    requires Power(|Letters(charset)|, length) > 1
    ensures length > 0 && d in charset && d != c
  {
    var letters := Letters(charset);
    if |letters| <= 1 {
      PowerOfOne(|letters|, length);
    }
    var others := letters - {c};
    assert |others| >= |letters| - 1;
    d :| d in others;
  }

  /** A letter other than `;` whose tag does not hold the placeholder, and another tag that does not. */
  lemma TwoTags(placeholder: string, length: nat, charset: string) returns (oldTag: string, c: char)
    requires OtherTags(placeholder, length, charset) > 1
    requires !SafeWord(placeholder) && '"' !in placeholder && !FitsInTag(placeholder, length, charset)
    ensures length > 0 && c in charset && c != ';' && IsTag(oldTag, length, charset) && Filled(c, length) != oldTag
    ensures !Holds(oldTag, placeholder) && !Holds(Filled(c, length), placeholder)
  {
    c := TwoLetters(length, charset, ';');
    var tag := Filled(c, length);
    if c != '"' {
      FilledIsSafe(c, length);
    } else {
      assert tag[0] == '"';
    }
    var used := {tag} + (if IsTag(placeholder, length, charset) then {placeholder} else {});
    var tags := UnusedTags(used, 1, length, charset);
    oldTag := tags[0];
    if Holds(oldTag, placeholder) {
      HeldMeansFits(oldTag, placeholder, length, charset);
    }
    if Holds(tag, placeholder) {
      HeldMeansFits(tag, placeholder, length, charset);
    }
  }

  lemma FilledIsSafe(c: char, n: nat)
    requires c != ';' && c != '"'
    ensures SafeWord(Filled(c, n))
  {
    var s := Filled(c, n);
    assert OPENING[0] == 'r' && OPENING[7] == '@';
    if n >= 8 {
      assert s[n - 8..][0] == s[n - 8] == s[n - 1] == s[n - 8..][7];
    }
  }

  /** A file with an old tag only gets new ones if there are tags besides the old one and the placeholder. */
  lemma WrittenNeedsTwoTags(content: string, placeholder: string, length: nat, charset: string, rng: Choices, t: string)
    requires '"' !in placeholder
    requires Run(content, placeholder, length, charset, rng).Written?
    requires t in ExtractTags(content, length, charset) && t != placeholder
    ensures OtherTags(placeholder, length, charset) > 1
  {
    WrittenIffSingleStarts(content, placeholder, length, charset, rng);
    HoldsItself(placeholder, placeholder);
    var tags := NewTags(content, placeholder, length, charset, rng);
    var used := {t} + (if IsTag(placeholder, length, charset) then {placeholder} else {});
    assert forall i | 0 <= i < |tags| :: tags[i] in tags;
    FreshTagsFitCapacity(used, tags, length, charset);
  }

  /** No tag can be mistaken for part of another pattern, and the placeholder not for part of a tag or its
      pattern. A placeholder that fits in a tag of one character is empty and the tag is a quote; such a tag is
      not lost, because `QuoteTagIsNotLost`. */
  predicate NothingToTear(placeholder: string, length: nat, charset: string) {
    && SafeWord(placeholder)
    && MatchesApart(length, charset)
    && (FitsInTag(placeholder, length, charset) ==> length == 1)
  }

  lemma NothingIsTorn(content: string, placeholder: string, length: nat, charset: string, rng: Choices, t: string)
    requires NothingToTear(placeholder, length, charset)
    requires Run(content, placeholder, length, charset, rng).Written?
    requires t in ExtractTags(content, length, charset) && t != placeholder
    ensures t in ExtractTags(Run(content, placeholder, length, charset, rng).text, length, charset)
  {
    if Holds(t, placeholder) {
      HeldMeansFits(t, placeholder, length, charset);
      OneCharacterHolds(t);
      QuoteTagIsNotLost(content, charset, rng);
    } else {
      OldTagsSurvive(content, placeholder, length, charset, rng, t);
    }
  }

  lemma OneCharacterHolds(t: string)
    requires |t| == 1 && Holds(t, "")
    ensures t == "\""
  {
    if '"' !in t {
      HoldsItself(t, "");
    }
  }

  lemma SomethingIsTorn(placeholder: string, length: nat, charset: string)
    requires '"' !in placeholder && '\n' !in placeholder && OtherTags(placeholder, length, charset) > 1
    requires !NothingToTear(placeholder, length, charset)
    ensures !KeepsOldTags(length, charset, placeholder)
  {
    if FitsInTag(placeholder, length, charset) && placeholder != "" {
      FittingPlaceholderLosesTag(placeholder, length, charset);
    } else if FitsInTag(placeholder, length, charset) && length > 1 {
      var c := TwoLetters(length, charset, '"');
      EmptyPlaceholderLosesTag(length, charset, c);
    } else if SafeWord(placeholder) {
      OverlapLosesTag(placeholder, length, charset);
    } else {
      var oldTag, c := TwoTags(placeholder, length, charset);
      if placeholder != "" && placeholder[0] == ';' {
        ClosingPlaceholderLosesTag(placeholder, oldTag, Filled(c, length), length, charset);
      } else {
        OpeningPlaceholderLosesTag(placeholder, oldTag, c, length, charset);
      }
    }
  }

  /** For every length, character set and placeholder without quotes: no run loses a tag other than the
      placeholder, exactly when the placeholder does not begin with `;`, does not end with the text before an
      opening quote and does not fit in a tag together with a quote, and matches cannot overlap; or there is
      nothing to lose: the placeholder holds a line break, so nothing is ever replaced, or at most one tag
      besides the placeholder exists, so a file with an old tag gets no new one. */
  lemma OldTagsAreKeptIff(length: nat, charset: string, placeholder: string)
    requires '"' !in placeholder
    ensures KeepsOldTags(length, charset, placeholder)
       <==> || NothingToTear(placeholder, length, charset)
            || '\n' in placeholder
            || OtherTags(placeholder, length, charset) <= 1
  {
    if '\n' in placeholder || OtherTags(placeholder, length, charset) <= 1 {
      forall content: string, rng: Choices, t: string
        | Run(content, placeholder, length, charset, rng).Written? && t in ExtractTags(content, length, charset)
        ensures t == placeholder
      {
        WrittenPlaceholderHasNoBreak(content, placeholder, length, charset, rng);
        if t != placeholder {
          WrittenNeedsTwoTags(content, placeholder, length, charset, rng, t);
        }
      }
    } else if NothingToTear(placeholder, length, charset) {
      forall content: string, rng: Choices, t: string
        | Run(content, placeholder, length, charset, rng).Written? && t in ExtractTags(content, length, charset) && t != placeholder
        ensures t in ExtractTags(Run(content, placeholder, length, charset, rng).text, length, charset)
      {
        NothingIsTorn(content, placeholder, length, charset, rng, t);
      }
    } else {
      SomethingIsTorn(placeholder, length, charset);
    }
  }
}
