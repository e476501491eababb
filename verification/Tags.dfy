/** Tags of `scripts/retag_untagged.py`: how they are drawn, recognised in a text
    and checked for duplicates. */
module Tags {
  import opened Wrappers
  import opened Text

  // ---------- drawing tags

  /** The random choices of a run: `rng(k, j)` picks the character at position `j` of the
      `k`-th tag drawn. Any function is a possible run of the generator. */
  type Choices = (nat, nat) -> nat

  /** A string the generator can draw: `length` characters of the character set. */
  predicate IsTag(t: string, length: nat, charset: string) {
    |t| == length && forall j | 0 <= j < |t| :: t[j] in charset
  }

  /** `random.choice(charset)`: every number is a choice, and every character can be chosen. */
  function Choice(charset: string, r: nat): (c: char)
    requires charset != ""
    ensures c in charset
    ensures r < |charset| ==> c == charset[r]
  {
    charset[r % |charset|]
  }

  /** `''.join(random.choice(charset) for _ in range(length))`, the `k`-th such draw. */
  function Draw(rng: Choices, k: nat, length: nat, charset: string): string
    requires charset != ""
  {
    if length == 0 then ""
    else Draw(rng, k, length - 1, charset) + [Choice(charset, rng(k, length - 1))]
  }

  lemma {:induction false} DrawIsTag(rng: Choices, k: nat, length: nat, charset: string)
    requires charset != ""
    ensures IsTag(Draw(rng, k, length, charset), length, charset)
  {
    if length > 0 {
      DrawIsTag(rng, k, length - 1, charset);
    }
  }

  /** The characters of a draw are chosen one by one. */
  lemma {:induction false} DrawAt(rng: Choices, k: nat, length: nat, charset: string, j: nat)
    requires charset != "" && j < length
    ensures |Draw(rng, k, length, charset)| == length
    ensures Draw(rng, k, length, charset)[j] == Choice(charset, rng(k, j))
  {
    DrawIsTag(rng, k, length, charset);
    if j < length - 1 {
      DrawAt(rng, k, length - 1, charset, j);
    } else {
      DrawIsTag(rng, k, length - 1, charset);
    }
  }

  const MAX_ATTEMPTS: nat := 10000

  /** The first of the draws `from`, `from + 1`, .., up to but not including `end`, that is not in use. */
  function FirstFresh(used: set<string>, from: nat, end: nat, length: nat, charset: string, rng: Choices)
    : (r: Option<nat>)
    requires charset != ""
    ensures r.Some? ==> from <= r.value < end && Draw(rng, r.value, length, charset) !in used
    decreases end as int - from
  {
    if from >= end then None
    else if Draw(rng, from, length, charset) !in used then Some(from)
    else FirstFresh(used, from + 1, end, length, charset, rng)
  }

  /** All draws before the fresh one were in use; without a fresh one, all attempts were. */
  lemma {:induction false} DrawsBeforeFreshAreUsed(used: set<string>, from: nat, end: nat,
                                                   length: nat, charset: string, rng: Choices, k: nat)
    requires charset != ""
    requires var r := FirstFresh(used, from, end, length, charset, rng);
             from <= k < (if r.Some? then r.value else end)
    ensures Draw(rng, k, length, charset) in used
    decreases end as int - from
  {
    if k > from {
      DrawsBeforeFreshAreUsed(used, from + 1, end, length, charset, rng, k);
    }
  }

  /** The draws from `from` up to but not including `end` are all in use. */
  ghost predicate AllInUse(used: set<string>, from: nat, end: nat, length: nat, charset: string, rng: Choices)
    requires charset != ""
  {
    forall k: nat | from <= k < end :: Draw(rng, k, length, charset) in used
  }

  /** A call fails exactly when 10000 draws in a row are in use. */
  lemma GenerationGivesUpIff(used: set<string>, from: nat, length: nat, charset: string, rng: Choices)
    requires charset != ""
    ensures FirstFresh(used, from, from + MAX_ATTEMPTS, length, charset, rng).None?
       <==> AllInUse(used, from, from + 10000, length, charset, rng)
  {
    NoneIsFreshIff(used, from, from + MAX_ATTEMPTS, length, charset, rng);
  }

  lemma NoneIsFreshIff(used: set<string>, from: nat, end: nat, length: nat, charset: string, rng: Choices)
    requires charset != ""
    ensures FirstFresh(used, from, end, length, charset, rng).None? <==> AllInUse(used, from, end, length, charset, rng)
  {
    var r := FirstFresh(used, from, end, length, charset, rng);
    if r.None? {
      DrawsBeforeFreshAreInUse(used, from, end, length, charset, rng);
    } else {
      assert Draw(rng, r.value, length, charset) !in used;
    }
  }

  lemma DrawsBeforeFreshAreInUse(used: set<string>, from: nat, end: nat, length: nat, charset: string, rng: Choices)
    requires charset != ""
    ensures var r := FirstFresh(used, from, end, length, charset, rng);
            AllInUse(used, from, if r.Some? then r.value else end, length, charset, rng)
  {
    var r := FirstFresh(used, from, end, length, charset, rng);
    forall k: nat | from <= k < (if r.Some? then r.value else end)
      ensures Draw(rng, k, length, charset) in used
    {
      DrawsBeforeFreshAreUsed(used, from, end, length, charset, rng, k);
    }
  }

  /** `generate_tag`: the retry loop. `next` is the number of draws made so far in the run. */
  method GenerateTag(used: set<string>, length: nat, charset: string, rng: Choices, next: nat)
    returns (tag: Option<string>, next': nat)
    requires charset != ""
    ensures match FirstFresh(used, next, next + MAX_ATTEMPTS, length, charset, rng)
            case None => tag == None
            case Some(k) => tag == Some(Draw(rng, k, length, charset)) && next' == k + 1
    ensures tag.Some? ==> tag.value !in used
    ensures tag.None? <==> AllInUse(used, next, next + 10000, length, charset, rng)
  {
    GenerationGivesUpIff(used, next, length, charset, rng);
    for i := 0 to MAX_ATTEMPTS
      invariant FirstFresh(used, next, next + MAX_ATTEMPTS, length, charset, rng)
             == FirstFresh(used, next + i, next + MAX_ATTEMPTS, length, charset, rng)
    {
      var candidate := Draw(rng, next + i, length, charset);
      if candidate !in used {
        return Some(candidate), next + i + 1;
      }
    }
    return None, next + MAX_ATTEMPTS;
  }

  /** The elements of a sequence as a set. */
  function Elements(tags: seq<string>): (s: set<string>) {
    set t | t in tags
  }

  /** The tags and the number of draws of a successful series of `generate_tag` calls. */
  datatype Series = Series(tags: seq<string>, next: nat)

  /** `n` calls of `generate_tag`, each avoiding the tags in use and the ones before it. */
  function GenerateTags(used: set<string>, n: nat, length: nat, charset: string, rng: Choices): (r: Option<Series>)
    requires charset != ""
  {
    if n == 0 then Some(Series([], 0))
    else
      match GenerateTags(used, n - 1, length, charset, rng)
      case None => None
      case Some(before) =>
        match FirstFresh(used + Elements(before.tags), before.next, before.next + MAX_ATTEMPTS, length, charset, rng)
        case None => None
        case Some(k) => Some(Series(before.tags + [Draw(rng, k, length, charset)], k + 1))
  }

  /** One more call after a successful series. */
  lemma OneMoreCall(used: set<string>, n: nat, series: Series, tag: Option<string>, next: nat,
                    length: nat, charset: string, rng: Choices)
    requires charset != "" && GenerateTags(used, n, length, charset, rng) == Some(series)
    requires match FirstFresh(used + Elements(series.tags), series.next, series.next + MAX_ATTEMPTS, length, charset, rng)
             case None => tag == None
             case Some(k) => tag == Some(Draw(rng, k, length, charset)) && next == k + 1
    ensures GenerateTags(used, n + 1, length, charset, rng)
         == if tag.None? then None else Some(Series(series.tags + [tag.value], next))
  {
  }

  /** A series that failed stays failed. */
  lemma {:induction false} FailureIsFinal(used: set<string>, m: nat, n: nat, length: nat, charset: string, rng: Choices)
    requires charset != "" && m <= n
    requires GenerateTags(used, m, length, charset, rng).None?
    ensures GenerateTags(used, n, length, charset, rng).None?
  {
    if m < n {
      FailureIsFinal(used, m, n - 1, length, charset, rng);
    }
  }

  /** `m` calls succeed, and the next one does not. */
  ghost predicate CallFails(used: set<string>, m: nat, length: nat, charset: string, rng: Choices)
    requires charset != ""
  {
    && GenerateTags(used, m, length, charset, rng).Some?
    && var Series(tags, next) := GenerateTags(used, m, length, charset, rng).value;
       AllInUse(used + Elements(tags), next, next + 10000, length, charset, rng)
  }

  lemma NextCallFailsIff(used: set<string>, m: nat, before: Series, length: nat, charset: string, rng: Choices)
    requires charset != "" && GenerateTags(used, m, length, charset, rng) == Some(before)
    ensures GenerateTags(used, m + 1, length, charset, rng).None? <==> CallFails(used, m, length, charset, rng)
  {
    var now := used + Elements(before.tags);
    GenerationGivesUpIff(now, before.next, length, charset, rng);
    var r := FirstFresh(now, before.next, before.next + MAX_ATTEMPTS, length, charset, rng);
    var tag := if r.None? then None else Some(Draw(rng, r.value, length, charset));
    OneMoreCall(used, m, before, tag, if r.None? then 0 else r.value + 1, length, charset, rng);
  }

  /** A series fails exactly when one of its calls, after those before it, meets 10000 draws in use. */
  lemma {:induction false} SeriesFailsIff(used: set<string>, n: nat, length: nat, charset: string, rng: Choices)
    requires charset != ""
    ensures GenerateTags(used, n, length, charset, rng).None?
       <==> exists m: nat | m < n :: CallFails(used, m, length, charset, rng)
  {
    if n > 0 {
      var m := n - 1;
      SeriesFailsIff(used, m, length, charset, rng);
      var last := GenerateTags(used, m, length, charset, rng);
      assert GenerateTags(used, n, length, charset, rng).None? <==> last.None? || CallFails(used, m, length, charset, rng) by {
        if last.Some? {
          NextCallFailsIff(used, m, last.value, length, charset, rng);
        } else {
          FailureIsFinal(used, m, n, length, charset, rng);
        }
      }
    }
  }

  /** The draws before a chosen one are in use after it was chosen. */
  lemma UsedAfterCall(used: set<string>, before: Series, last: nat, length: nat, charset: string, rng: Choices)
    requires charset != "" && AllInUse(used + Elements(before.tags), 0, before.next, length, charset, rng)
    requires AllInUse(used + Elements(before.tags), before.next, last, length, charset, rng)
    ensures AllInUse(used + Elements(before.tags + [Draw(rng, last, length, charset)]), 0, last + 1, length, charset, rng)
  {
  }

  lemma UsedAfterNextCall(used: set<string>, m: nat, before: Series, after: Series, length: nat, charset: string, rng: Choices)
    requires charset != "" && AllInUse(used + Elements(before.tags), 0, before.next, length, charset, rng)
    requires GenerateTags(used, m, length, charset, rng) == Some(before)
    requires GenerateTags(used, m + 1, length, charset, rng) == Some(after)
    ensures AllInUse(used + Elements(after.tags), 0, after.next, length, charset, rng)
    ensures before.next < after.next <= before.next + 10000
  {
    var now := used + Elements(before.tags);
    var r := FirstFresh(now, before.next, before.next + MAX_ATTEMPTS, length, charset, rng);
    var tag := if r.None? then None else Some(Draw(rng, r.value, length, charset));
    OneMoreCall(used, m, before, tag, if r.None? then 0 else r.value + 1, length, charset, rng);
    DrawsBeforeFreshAreInUse(now, before.next, before.next + MAX_ATTEMPTS, length, charset, rng);
    UsedAfterCall(used, before, r.value, length, charset, rng);
  }

  /** Every draw of a series became a tag or was in use; there are at most 10000 for each tag. */
  lemma {:induction false} EveryDrawIsUsed(used: set<string>, n: nat, series: Series, length: nat, charset: string, rng: Choices)
    requires charset != ""
    requires GenerateTags(used, n, length, charset, rng) == Some(series)
    ensures n <= series.next <= n * 10000
    ensures AllInUse(used + Elements(series.tags), 0, series.next, length, charset, rng)
  {
    if n > 0 {
      var m := n - 1;
      var before := SeriesBefore(used, m, length, charset, rng);
      EveryDrawIsUsed(used, m, before, length, charset, rng);
      UsedAfterNextCall(used, m, before, series, length, charset, rng);
    }
  }

  lemma SeriesBefore(used: set<string>, m: nat, length: nat, charset: string, rng: Choices) returns (before: Series)
    requires charset != "" && GenerateTags(used, m + 1, length, charset, rng).Some?
    ensures GenerateTags(used, m, length, charset, rng) == Some(before)
  {
    before := GenerateTags(used, m, length, charset, rng).value;
  }

  /** No element occurs twice. */
  predicate NoRepeats(tags: seq<string>) {
    forall i, j | 0 <= i < j < |tags| :: tags[i] != tags[j]
  }

  /** Generated tags are drawable, pairwise distinct and new. */
  lemma {:induction false} GeneratedTagsAreFresh(used: set<string>, n: nat, length: nat, charset: string, rng: Choices)
    requires charset != ""
    requires GenerateTags(used, n, length, charset, rng).Some?
    ensures var tags := GenerateTags(used, n, length, charset, rng).value.tags;
            && |tags| == n
            && NoRepeats(tags)
            && forall i | 0 <= i < n :: IsTag(tags[i], length, charset) && tags[i] !in used
  {
    if n > 0 {
      GeneratedTagsAreFresh(used, n - 1, length, charset, rng);
      var before := GenerateTags(used, n - 1, length, charset, rng).value;
      var k := FirstFresh(used + Elements(before.tags), before.next, before.next + MAX_ATTEMPTS, length, charset, rng).value;
      DrawIsTag(rng, k, length, charset);
      OneMoreTag(used, before.tags, Draw(rng, k, length, charset), length, charset);
    }
  }

  /** The tags of a series are drawable, pairwise distinct and new. */
  predicate FreshTags(used: set<string>, tags: seq<string>, length: nat, charset: string) {
    NoRepeats(tags) && forall i | 0 <= i < |tags| :: IsTag(tags[i], length, charset) && tags[i] !in used
  }

  lemma OneMoreTag(used: set<string>, tags: seq<string>, tag: string, length: nat, charset: string)
    requires FreshTags(used, tags, length, charset)
    requires IsTag(tag, length, charset) && tag !in used + Elements(tags)
    ensures FreshTags(used, tags + [tag], length, charset)
  {
    assert forall i | 0 <= i < |tags| :: tags[i] in Elements(tags);
  }

  // ---------- tags in a text

  const OPENING: string := "return @\""
  const CLOSING: string := "\";"

  /** The pattern `return @"c..c";` with `length` characters of the set matches at `i`. */
  predicate MatchAt(s: string, i: nat, length: nat, charset: string) {
    && i + length + 11 <= |s|
    && s[i..i + 9] == OPENING
    && IsTag(TagAt(s, i, length), length, charset)
    && s[i + 9 + length..i + 11 + length] == CLOSING
  }

  /** The captured group of a match at `i`. */
  function TagAt(s: string, i: nat, length: nat): string
    requires i + length + 11 <= |s|
  {
    s[i + 9..i + 9 + length]
  }

  /** The starts of the matches `re.findall` reports from `i` on: it scans to the right and
      continues after a match at its end. */
  function MatchesFrom(s: string, i: nat, length: nat, charset: string): (ms: seq<nat>)
    ensures forall k | 0 <= k < |ms| :: i <= ms[k] && MatchAt(s, ms[k], length, charset)
    decreases |s| - i
  {
    if i + length + 11 > |s| then []
    else if MatchAt(s, i, length, charset) then [i] + MatchesFrom(s, i + length + 11, length, charset)
    else MatchesFrom(s, i + 1, length, charset)
  }

  /** `extract_existing_tags` */
  function ExtractTags(s: string, length: nat, charset: string): (tags: seq<string>)
    ensures forall t | t in tags :: IsTag(t, length, charset)
  {
    var ms := MatchesFrom(s, 0, length, charset);
    seq(|ms|, k requires 0 <= k < |ms| => TagAt(s, ms[k], length))
  }

  /** A tag can hold the eight characters before an opening quote. */
  predicate CanHoldOpening(length: nat, charset: string) {
    length >= 8 && forall k | 0 <= k < 8 :: OPENING[k] in charset
  }

  /** Matches of the pattern cannot overlap: `MatchesStayApartIff` shows that this is the exact condition. */
  predicate MatchesApart(length: nat, charset: string) {
    !CanHoldOpening(length, charset) || ';' !in charset
  }

  /** The tags of a character set cannot be mistaken for part of the surrounding pattern: they cannot
      hold the text before an opening quote and cannot begin with `;`. */
  predicate SafeTags(length: nat, charset: string) {
    !CanHoldOpening(length, charset) && (length == 0 || ';' !in charset)
  }

  /** The characters of a match: the two quotes, the ones next to them, and no other quote. */
  lemma MatchShape(s: string, i: nat, length: nat, charset: string)
    requires MatchAt(s, i, length, charset)
    ensures i + length + 11 <= |s|
    ensures forall j | i <= j < i + 9 :: s[j] == OPENING[j - i]
    ensures s[i] == 'r' && s[i + 7] == '@' && s[i + 8] == '"' && s[i + 9 + length] == '"' && s[i + 10 + length] == ';'
    ensures forall j | i <= j < i + 8 :: s[j] != '"' && s[j] != ';'
    ensures forall j | i + 9 <= j < i + 9 + length :: s[j] in charset
  {
  }

  lemma MatchFromPieces(s: string, i: nat, tag: string, length: nat, charset: string)
    requires IsTag(tag, length, charset) && i + length + 11 <= |s|
    requires forall j | i <= j < i + 9 :: s[j] == OPENING[j - i]
    requires forall j | i + 9 <= j < i + 9 + length :: s[j] == tag[j - i - 9]
    requires s[i + 9 + length] == '"' && s[i + 10 + length] == ';'
    ensures MatchAt(s, i, length, charset) && TagAt(s, i, length) == tag
  {
  }

  /** Two matches can overlap only if a tag can hold all of the text before an opening quote, and `;`. */
  lemma OverlapNeedsUnsafeTags(s: string, i: nat, j: nat, length: nat, charset: string)
    requires MatchAt(s, i, length, charset) && MatchAt(s, j, length, charset)
    requires i < j < i + length + 11
    ensures CanHoldOpening(length, charset) && ';' in charset
  {
    MatchShape(s, i, length, charset);
    MatchShape(s, j, length, charset);
    // the second match opens inside the tag of the first, and its own tag holds the end of the first
    assert j != i + 4;
    assert i + 9 <= j && j + 8 <= i + 9 + length;
    assert s[i + 10 + length] == ';';
    forall k | 0 <= k < 8
      ensures OPENING[k] in charset
    {
      assert s[j + k] == OPENING[k];
    }
  }

  /** Two matches of the pattern never overlap. */
  lemma MatchesDoNotOverlap(s: string, i: nat, j: nat, length: nat, charset: string)
    requires MatchesApart(length, charset)
    requires MatchAt(s, i, length, charset) && MatchAt(s, j, length, charset)
    requires i < j
    ensures i + length + 11 <= j
  {
    if j < i + length + 11 {
      OverlapNeedsUnsafeTags(s, i, j, length, charset);
    }
  }

  /** The scan reports matches in increasing order, for every character set. */
  lemma {:induction false} ScanIsIncreasing(s: string, i: nat, length: nat, charset: string)
    ensures Increasing(MatchesFrom(s, i, length, charset))
    decreases |s| - i
  {
    if i + length + 11 > |s| {
    } else if MatchAt(s, i, length, charset) {
      var rest := MatchesFrom(s, i + length + 11, length, charset);
      assert MatchesFrom(s, i, length, charset) == [i] + rest;
      ScanIsIncreasing(s, i + length + 11, length, charset);
      assert forall l | 0 <= l < |rest| :: i < rest[l];
    } else {
      ScanIsIncreasing(s, i + 1, length, charset);
    }
  }

  /** The scan misses no match. */
  lemma {:induction false} ScanFindsMatch(s: string, i: nat, j: nat, length: nat, charset: string)
    requires MatchesApart(length, charset)
    requires i <= j && MatchAt(s, j, length, charset)
    ensures j in MatchesFrom(s, i, length, charset)
    decreases |s| - i
  {
    if MatchAt(s, i, length, charset) {
      var rest := MatchesFrom(s, i + length + 11, length, charset);
      assert MatchesFrom(s, i, length, charset) == [i] + rest;
      if i < j {
        MatchesDoNotOverlap(s, i, j, length, charset);
        ScanFindsMatch(s, i + length + 11, j, length, charset);
        assert j in rest;
      }
    } else {
      ScanFindsMatch(s, i + 1, j, length, charset);
    }
  }

  /** Extraction is exactly the set of tags of all matches in the text. */
  lemma ExtractedTagsAreTheMatches(s: string, length: nat, charset: string, t: string)
    requires MatchesApart(length, charset)
    ensures t in ExtractTags(s, length, charset) <==>
            exists i: nat :: MatchAt(s, i, length, charset) && TagAt(s, i, length) == t
  {
    var ms := MatchesFrom(s, 0, length, charset);
    var tags := ExtractTags(s, length, charset);
    if t in tags {
      var k :| 0 <= k < |tags| && tags[k] == t;
      assert MatchAt(s, ms[k], length, charset) && TagAt(s, ms[k], length) == t;
    }
    if i: nat :| MatchAt(s, i, length, charset) && TagAt(s, i, length) == t {
      ScanFindsMatch(s, 0, i, length, charset);
      var k :| 0 <= k < |ms| && ms[k] == i;
      assert tags[k] == t;
    }
  }

  /** So a tag is found exactly when it stands in a `return` statement somewhere in the text. */
  lemma FoundIffReturned(s: string, length: nat, charset: string, t: string)
    requires MatchesApart(length, charset)
    ensures t in ExtractTags(s, length, charset) <==>
            IsTag(t, length, charset) && Contains(s, "return @\"" + t + "\";")
  {
    var statement := "return @\"" + t + "\";";
    ExtractedTagsAreTheMatches(s, length, charset, t);
    if i: nat :| MatchAt(s, i, length, charset) && TagAt(s, i, length) == t {
      MatchIsStatement(s, i, length, charset);
      assert OccursAt(s, statement, i);
    }
    if IsTag(t, length, charset) && Contains(s, statement) {
      StatementIsMatch(s, Find(s, statement).value, t, length, charset);
    }
  }

  lemma StatementIsMatch(s: string, i: nat, t: string, length: nat, charset: string)
    requires IsTag(t, length, charset) && OccursAt(s, "return @\"" + t + "\";", i)
    ensures MatchAt(s, i, length, charset) && TagAt(s, i, length) == t
  {
    var statement := "return @\"" + t + "\";";
    SubSlice(s, i, statement, 0, length + 11, 0, 9);
    SubSlice(s, i, statement, 0, length + 11, 9, 9 + length);
    SubSlice(s, i, statement, 0, length + 11, 9 + length, 11 + length);
  }

  lemma MatchIsStatement(s: string, i: nat, length: nat, charset: string)
    requires MatchAt(s, i, length, charset)
    ensures OccursAt(s, "return @\"" + TagAt(s, i, length) + "\";", i)
  {
    assert s[i..i + length + 11] == s[i..i + 9] + s[i + 9..i + 9 + length] + s[i + 9 + length..i + 11 + length];
  }

  /** No two different matches in the text carry the same tag. */
  predicate DistinctMatches(s: string, length: nat, charset: string) {
    forall i: nat, j: nat | i < |s| && j < |s| && MatchAt(s, i, length, charset) && MatchAt(s, j, length, charset) && i != j ::
      TagAt(s, i, length) != TagAt(s, j, length)
  }

  /** The extracted list has no repeats iff different matches carry different tags. */
  lemma NoRepeatsIffDistinctMatches(s: string, length: nat, charset: string)
    requires MatchesApart(length, charset)
    ensures NoRepeats(ExtractTags(s, length, charset)) <==> DistinctMatches(s, length, charset)
  {
    var ms := MatchesFrom(s, 0, length, charset);
    var tags := ExtractTags(s, length, charset);
    ScanIsIncreasing(s, 0, length, charset);
    if DistinctMatches(s, length, charset) {
      forall k, l | 0 <= k < l < |tags|
        ensures tags[k] != tags[l]
      {
        assert ms[k] < ms[l];
        assert MatchAt(s, ms[k], length, charset) && MatchAt(s, ms[l], length, charset);
      }
    }
    if NoRepeats(tags) {
      forall i: nat, j: nat | MatchAt(s, i, length, charset) && MatchAt(s, j, length, charset) && i != j
        ensures TagAt(s, i, length) != TagAt(s, j, length)
      {
        var k := PlaceOfMatch(s, i, length, charset);
        var l := PlaceOfMatch(s, j, length, charset);
      }
    }
  }

  /** Where the tag of a match stands in the extracted list. */
  lemma PlaceOfMatch(s: string, i: nat, length: nat, charset: string) returns (k: nat)
    requires MatchesApart(length, charset) && MatchAt(s, i, length, charset)
    ensures k < |ExtractTags(s, length, charset)| == |MatchesFrom(s, 0, length, charset)|
    ensures MatchesFrom(s, 0, length, charset)[k] == i
    ensures ExtractTags(s, length, charset)[k] == TagAt(s, i, length)
  {
    ScanFindsMatch(s, 0, i, length, charset);
    var ms := MatchesFrom(s, 0, length, charset);
    k :| 0 <= k < |ms| && ms[k] == i;
  }

  // ---------- duplicates

  /** The tags that occur at least twice, with how often they occur. */
  function Duplicates(tags: seq<string>): map<string, nat> {
    map t | t in tags && multiset(tags)[t] > 1 :: multiset(tags)[t]
  }

  /** How often each tag of a list occurs. */
  function Counts(tags: seq<string>): map<string, nat> {
    map t | t in tags :: multiset(tags)[t]
  }

  lemma CountsOfOneMore(tags: seq<string>, tag: string)
    ensures Counts(tags + [tag]) == Counts(tags)[tag := (if tag in Counts(tags) then Counts(tags)[tag] else 0) + 1]
  {
  }

  /** The sum of the values of a dictionary. */
  ghost function Total(counts: map<string, nat>): nat
    decreases |counts|
  {
    if counts == map[] then 0
    else
      var t :| t in counts;
      counts[t] + Total(counts - {t})
  }

  lemma {:induction false} TotalWithout(counts: map<string, nat>, t: string)
    requires t in counts
    ensures Total(counts) == counts[t] + Total(counts - {t})
    decreases |counts|
  {
    var u :| u in counts && Total(counts) == counts[u] + Total(counts - {u});
    if u != t {
      TotalWithout(counts - {u}, t);
      TotalWithout(counts - {t}, u);
      assert counts - {u} - {t} == counts - {t} - {u};
    }
  }

  /** The counts of a list sum to its length: no tag is left out or counted twice. */
  lemma {:induction false} CountsSumToLength(tags: seq<string>)
    ensures Total(Counts(tags)) == |tags|
  {
    if tags != [] {
      var n := |tags| - 1;
      var before, counts := Counts(tags[..n]), Counts(tags);
      CountsSumToLength(tags[..n]);
      CountsOfOneMore(tags[..n], tags[n]);
      assert tags[..n] + [tags[n]] == tags;
      TotalWithout(counts, tags[n]);
      assert counts - {tags[n]} == before - {tags[n]};
      if tags[n] in before {
        TotalWithout(before, tags[n]);
      } else {
        assert before - {tags[n]} == before;
      }
    }
  }

  /** `check_for_duplicates`: counts in a dictionary, keeps the counts above one. */
  method CheckForDuplicates(tags: seq<string>) returns (duplicates: map<string, nat>)
    ensures duplicates == Duplicates(tags)
  {
    var counts: map<string, nat> := map[];
    for i := 0 to |tags|
      invariant counts == Counts(tags[..i])
    {
      var tag := tags[i];
      CountsOfOneMore(tags[..i], tag);
      counts := counts[tag := (if tag in counts then counts[tag] else 0) + 1];
      assert tags[..i + 1] == tags[..i] + [tag];
    }
    assert tags[..|tags|] == tags;
    duplicates := map t | t in counts && counts[t] > 1 :: counts[t];
  }

  /** The duplicate report names exactly the tags that stand at two positions or more. */
  lemma DuplicatesStandTwice(tags: seq<string>, t: string)
    ensures t in Duplicates(tags) <==> exists i, j :: 0 <= i < j < |tags| && tags[i] == t && tags[j] == t
    ensures t in Duplicates(tags) ==> Duplicates(tags)[t] == multiset(tags)[t] > 1
  {
    OccursTwice(tags, t);
  }

  /** A multiplicity above one means two positions. */
  lemma {:induction false} OccursTwice(tags: seq<string>, t: string)
    ensures multiset(tags)[t] > 1 <==> exists i, j :: 0 <= i < j < |tags| && tags[i] == t && tags[j] == t
  {
    if tags != [] {
      var n := |tags| - 1;
      var init := tags[..n];
      assert tags == init + [tags[n]];
      OccursTwice(init, t);
      if multiset(tags)[t] > 1 && multiset(init)[t] <= 1 {
        assert t in init;
        var i :| 0 <= i < n && init[i] == t;
        assert tags[i] == t && tags[n] == t;
      }
      if i, j :| 0 <= i < j < |tags| && tags[i] == t && tags[j] == t {
        assert init[i] == t;
        if j < n {
          assert init[j] == t;
        }
      }
    }
  }

  /** Where a tag stands. */
  function Places(tags: seq<string>, t: string): set<nat> {
    set k | 0 <= k < |tags| && tags[k] == t
  }

  /** Its multiplicity is its number of places. */
  lemma {:induction false} PlacesAreCounted(tags: seq<string>, t: string)
    ensures |Places(tags, t)| == multiset(tags)[t]
  {
    if tags != [] {
      var n := |tags| - 1;
      PlacesAreCounted(tags[..n], t);
      assert tags == tags[..n] + [tags[n]];
      assert Places(tags, t) == Places(tags[..n], t) + (if tags[n] == t then {n} else {});
    }
  }

  /** The duplicate report is empty iff the list has no repeats. */
  lemma DuplicatesAreTheRepeats(tags: seq<string>)
    ensures Duplicates(tags) == map[] <==> NoRepeats(tags)
  {
    forall t
      ensures multiset(tags)[t] > 1 <==> exists i, j :: 0 <= i < j < |tags| && tags[i] == t && tags[j] == t
    {
      OccursTwice(tags, t);
    }
    if NoRepeats(tags) {
      assert forall t :: t !in Duplicates(tags);
    } else {
      var i, j :| 0 <= i < j < |tags| && tags[i] == tags[j];
      assert tags[i] in Duplicates(tags);
    }
  }
}
