/** What placing new tags does to the tags found in a text: nothing is recognised that was not
    there before or placed now, and nothing but the placeholder is lost. */
module Placement {
  import opened Text
  import opened Tags
  import opened Placeholders

  /** A match in the text after one replacement is the placed tag, or an old match to the left or to
      the right of it. */
  lemma MatchAfterReplacement(s: string, word: string, tag: string, p: nat, m: nat, length: nat, charset: string)
    requires SafeTags(length, charset) && IsTag(tag, length, charset)
    requires OccursAt(s, Quoted(word), p)
    requires MatchAt(ReplaceAt(s, Quoted(word), Quoted(tag), p), m, length, charset)
    ensures var s' := ReplaceAt(s, Quoted(word), Quoted(tag), p);
            || (m + 8 == p && TagAt(s', m, length) == tag)
            || (m + length + 11 <= p && SameMatch(s', m, s, m, length, charset))
            || (m >= p + length + 2 && SameMatch(s', m, s, m - length + |word|, length, charset))
  {
    var s' := ReplaceAt(s, Quoted(word), Quoted(tag), p);
    ReplaceAtShape(s, word, tag, p);
    MatchShape(s', m, length, charset);
    MatchNearTag(s', tag, p, m, length, charset);
    if m + 8 == p {
      TagIsWord(s', tag, p, length);
    } else {
      ClearMatchIsOld(s, word, tag, p, m, length, charset);
    }
  }

  /** Around a quoted tag of a safe character set, a match starts right before it, with the same opening
      quote, or is clear of it: the opening of a match does not fit into the tag, nor does its end. */
  lemma MatchNearTag(s: string, tag: string, p: nat, m: nat, length: nat, charset: string)
    requires SafeTags(length, charset) && IsTag(tag, length, charset)
    requires p + length + 2 <= |s| && s[p] == '"' && s[p + length + 1] == '"'
    requires forall j | p < j <= p + length :: s[j] == tag[j - p - 1]
    requires MatchAt(s, m, length, charset)
    ensures m + 8 == p || m + length + 11 <= p || m >= p + length + 2
  {
    MatchShape(s, m, length, charset);
    if p < m + 8 && m < p + length + 2 {
      assert p < m && m + 8 <= p + length + 1;
      OpeningInTag(s, tag, p, m, length, charset);
    }
  }

  lemma OpeningInTag(s: string, tag: string, p: nat, m: nat, length: nat, charset: string)
    requires IsTag(tag, length, charset) && p < m && m + 8 <= p + length + 1 <= |s|
    requires forall j | p < j <= p + length :: s[j] == tag[j - p - 1]
    requires MatchAt(s, m, length, charset)
    ensures CanHoldOpening(length, charset)
  {
    MatchShape(s, m, length, charset);
    forall k | 0 <= k < 8
      ensures OPENING[k] in charset
    {
      assert s[m + k] == OPENING[k];
    }
  }

  /** A match clear of the rewritten part was there before. */
  lemma ClearMatchIsOld(s: string, word: string, tag: string, p: nat, m: nat, length: nat, charset: string)
    requires OccursAt(s, Quoted(word), p)
    requires MatchAt(ReplaceAt(s, Quoted(word), Quoted(tag), p), m, length, charset)
    requires m + length + 11 <= p || m >= p + |tag| + 2
    ensures SameMatch(ReplaceAt(s, Quoted(word), Quoted(tag), p), m,
                      s, if m < p then m else m - |tag| + |word|, length, charset)
  {
    var s' := ReplaceAt(s, Quoted(word), Quoted(tag), p);
    var m' := if m < p then m else m - |tag| + |word|;
    ClearOfReplacement(s, word, tag, p, m', length + 11);
    SliceMatches(s', m, s, m', length, charset);
  }

  lemma TagIsWord(s: string, word: string, p: nat, length: nat)
    requires |word| == length && 8 <= p && p + length + 3 <= |s|
    requires forall j | p < j <= p + |word| :: s[j] == word[j - p - 1]
    ensures TagAt(s, p - 8, length) == word
  {
  }

  /** Both texts have a match, at `i` and at `j`, with the same tag. */
  predicate SameMatch(s: string, i: nat, t: string, j: nat, length: nat, charset: string) {
    MatchAt(s, i, length, charset) && MatchAt(t, j, length, charset) && TagAt(s, i, length) == TagAt(t, j, length)
  }

  lemma SliceMatches(s: string, i: nat, t: string, j: nat, length: nat, charset: string)
    requires MatchAt(s, i, length, charset)
    requires j + length + 11 <= |t|
    requires s[i..i + length + 11] == t[j..j + length + 11]
    ensures SameMatch(s, i, t, j, length, charset)
  {
    SubSlice(s, i, t, j, length + 11, 0, 9);
    SubSlice(s, i, t, j, length + 11, 9, 9 + length);
    SubSlice(s, i, t, j, length + 11, 9 + length, 11 + length);
  }

  /** A replacement leaves the text to the left and to the right of it as it was. */
  lemma ClearOfReplacement(s: string, word: string, tag: string, p: nat, m: nat, n: nat)
    requires OccursAt(s, Quoted(word), p)
    ensures var s' := ReplaceAt(s, Quoted(word), Quoted(tag), p);
            && |s'| == |s| + |tag| - |word|
            && (m + n <= p ==> s'[m..m + n] == s[m..m + n])
            && (m >= p + |word| + 2 && m + n <= |s| ==>
                  s'[m + |tag| - |word|..m + |tag| - |word| + n] == s[m..m + n])
  {
  }

  /** A word that cannot be mistaken for part of the pattern around it. */
  predicate SafeWord(word: string) {
    && '"' !in word
    && (word == "" || word[0] != ';')
    && (|word| < 8 || word[|word| - 8..] != OPENING[..8])
  }

  lemma TagCannotOpen(tag: string, length: nat, charset: string)
    requires '"' !in charset && !CanHoldOpening(length, charset) && IsTag(tag, length, charset)
    ensures '"' !in tag && (|tag| < 8 || tag[|tag| - 8..] != OPENING[..8])
  {
    if |tag| >= 8 && tag[|tag| - 8..] == OPENING[..8] {
      TailLetters(tag);
    }
  }

  lemma TailLetters(tag: string)
    requires |tag| >= 8 && tag[|tag| - 8..] == OPENING[..8]
    ensures forall j | 0 <= j < 8 :: OPENING[j] in tag
  {
    forall j | 0 <= j < 8
      ensures OPENING[j] in tag
    {
      assert tag[|tag| - 8..][j] == tag[|tag| - 8 + j];
    }
  }

  /** If the opening quote of a match is the closing quote of a word, the word ends with the text before
      an opening quote. */
  lemma OpeningEndsWord(s: string, word: string, p: nat, m: nat, length: nat, charset: string)
    requires p < m && m + 8 == p + |word| + 1 < |s|
    requires forall j | p < j <= p + |word| :: s[j] == word[j - p - 1]
    requires MatchAt(s, m, length, charset)
    ensures |word| >= 8 && word[|word| - 8..] == OPENING[..8]
  {
  }

  /** Around a quoted word that cannot open a pattern, a match starts right before it, with the same
      opening quote, or ends in its opening quote, or is clear of it. */
  lemma QuotesTouchOrClose(s: string, word: string, p: nat, m: nat, length: nat, charset: string)
    requires '"' !in charset && '"' !in word
    requires |word| < 8 || word[|word| - 8..] != OPENING[..8]
    requires p + |word| + 2 <= |s|
    requires s[p] == '"' && s[p + |word| + 1] == '"'
    requires forall j | p < j <= p + |word| :: s[j] == word[j - p - 1]
    requires MatchAt(s, m, length, charset)
    ensures (m + 8 == p && |word| == length) || m + 9 + length == p || m + length + 11 <= p || m >= p + |word| + 2
  {
    MatchShape(s, m, length, charset);
    if m <= p < m + length + 11 {
      // the opening quote of the word is one of the match's two quotes
      assert p == m + 8 || p == m + 9 + length;
    } else if p < m && m + 8 == p + |word| + 1 {
      OpeningEndsWord(s, word, p, m, length, charset);
    }
  }

  /** A safe quoted word that is not within the quoted tag of a match is clear of the match. */
  lemma ClearOfMatch(s: string, word: string, p: nat, m: nat, length: nat, charset: string)
    requires SafeWord(word) && OccursAt(s, Quoted(word), p)
    requires MatchAt(s, m, length, charset) && !Holds(TagAt(s, m, length), word)
    ensures m + length + 11 <= p || m >= p + |word| + 2
  {
    var tag := TagAt(s, m, length);
    MatchShape(s, m, length, charset);
    QuotedShape(s, word, p);
    if m + 8 <= p && p + |word| <= m + 8 + length {
      QuotedAt(s, tag, m + 8);
      HeldInText(s, word, tag, m + 8, p);
    } else if p < m && m + 8 == p + |word| + 1 {
      OpeningEndsWord(s, word, p, m, length, charset);
    }
  }

  /** After one replacement, every tag found is the placed one or was found before. */
  lemma FoundAfterReplacement(s: string, word: string, tag: string, p: nat, t: string, length: nat, charset: string)
    requires SafeTags(length, charset) && IsTag(tag, length, charset)
    requires OccursAt(s, Quoted(word), p)
    requires t in ExtractTags(ReplaceAt(s, Quoted(word), Quoted(tag), p), length, charset)
    ensures t == tag || t in ExtractTags(s, length, charset)
  {
    var s' := ReplaceAt(s, Quoted(word), Quoted(tag), p);
    ExtractedTagsAreTheMatches(s', length, charset, t);
    ExtractedTagsAreTheMatches(s, length, charset, t);
    var m: nat :| MatchAt(s', m, length, charset) && TagAt(s', m, length) == t;
    MatchAfterReplacement(s, word, tag, p, m, length, charset);
  }

  /** Placing a new tag keeps the tags of different matches different. */
  lemma DistinctAfterReplacement(s: string, word: string, tag: string, p: nat, length: nat, charset: string)
    requires SafeTags(length, charset) && IsTag(tag, length, charset)
    requires OccursAt(s, Quoted(word), p)
    requires DistinctMatches(s, length, charset) && tag !in ExtractTags(s, length, charset)
    ensures DistinctMatches(ReplaceAt(s, Quoted(word), Quoted(tag), p), length, charset)
  {
    var s' := ReplaceAt(s, Quoted(word), Quoted(tag), p);
    ExtractedTagsAreTheMatches(s, length, charset, tag);
    forall i: nat, j: nat | MatchAt(s', i, length, charset) && MatchAt(s', j, length, charset) && i != j
      ensures TagAt(s', i, length) != TagAt(s', j, length)
    {
      MatchAfterReplacement(s, word, tag, p, i, length, charset);
      MatchAfterReplacement(s, word, tag, p, j, length, charset);
    }
  }

  /** A tag that does not hold the placeholder is still found after one replacement. */
  lemma SurvivesReplacement(s: string, word: string, tag: string, p: nat, t: string, length: nat, charset: string)
    requires MatchesApart(length, charset) && SafeWord(word)
    requires OccursAt(s, Quoted(word), p)
    requires t in ExtractTags(s, length, charset) && !Holds(t, word)
    ensures t in ExtractTags(ReplaceAt(s, Quoted(word), Quoted(tag), p), length, charset)
  {
    var s' := ReplaceAt(s, Quoted(word), Quoted(tag), p);
    ExtractedTagsAreTheMatches(s, length, charset, t);
    ExtractedTagsAreTheMatches(s', length, charset, t);
    var m: nat :| MatchAt(s, m, length, charset) && TagAt(s, m, length) == t;
    MatchSurvivesReplacement(s, word, tag, p, m, length, charset);
  }

  lemma MatchSurvivesReplacement(s: string, word: string, tag: string, p: nat, m: nat, length: nat, charset: string)
    requires SafeWord(word)
    requires OccursAt(s, Quoted(word), p)
    requires MatchAt(s, m, length, charset) && !Holds(TagAt(s, m, length), word)
    ensures var s' := ReplaceAt(s, Quoted(word), Quoted(tag), p);
            || SameMatch(s, m, s', m, length, charset)
            || (m + |tag| >= |word| && SameMatch(s, m, s', m + |tag| - |word|, length, charset))
  {
    var s' := ReplaceAt(s, Quoted(word), Quoted(tag), p);
    ClearOfMatch(s, word, p, m, length, charset);
    ClearOfReplacement(s, word, tag, p, m, length + 11);
    SliceMatches(s, m, s', if m < p then m else m - |word| + |tag|, length, charset);
  }

  // ---------- the whole replacement loop

  /** New, pairwise distinct tags keep the extracted list free of repeats, and only they are added. */
  lemma {:induction false} FoundAfterLoop(text: string, word: string, tags: seq<string>, length: nat, charset: string)
    requires SafeTags(length, charset)
    requires NoRepeats(tags)
    requires forall t | t in tags :: IsTag(t, length, charset) && t !in ExtractTags(text, length, charset)
    requires NoRepeats(ExtractTags(text, length, charset))
    ensures var text' := ReplaceEach(text, Quoted(word), tags);
            && NoRepeats(ExtractTags(text', length, charset))
            && forall t | t in ExtractTags(text', length, charset) :: t in tags || t in ExtractTags(text, length, charset)
    decreases |tags|
  {
    if tags != [] {
      var tag := tags[0];
      var next := ReplaceFirst(text, Quoted(word), Quoted(tag));
      NoRepeatsIffDistinctMatches(text, length, charset);
      NoRepeatsIffDistinctMatches(next, length, charset);
      if Contains(text, Quoted(word)) {
        var p := Find(text, Quoted(word)).value;
        DistinctAfterReplacement(text, word, tag, p, length, charset);
        forall t | t in ExtractTags(next, length, charset)
          ensures t == tag || t in ExtractTags(text, length, charset)
        {
          FoundAfterReplacement(text, word, tag, p, t, length, charset);
        }
      }
      assert forall i | 0 <= i < |tags| - 1 :: tags[1..][i] == tags[i + 1];
      FoundAfterLoop(next, word, tags[1..], length, charset);
    }
  }

  /** Every tag that does not hold the placeholder is still found after the loop. */
  lemma {:induction false} SurvivesLoop(text: string, word: string, tags: seq<string>, t: string, length: nat, charset: string)
    requires MatchesApart(length, charset) && SafeWord(word)
    requires t in ExtractTags(text, length, charset) && !Holds(t, word)
    ensures t in ExtractTags(ReplaceEach(text, Quoted(word), tags), length, charset)
    decreases |tags|
  {
    if tags != [] {
      var next := ReplaceFirst(text, Quoted(word), Quoted(tags[0]));
      if Contains(text, Quoted(word)) {
        SurvivesReplacement(text, word, tags[0], Find(text, Quoted(word)).value, t, length, charset);
      }
      SurvivesLoop(next, word, tags[1..], t, length, charset);
    }
  }
}
