/** Rewriting quoted placeholders in `scripts/retag_untagged.py`: what repeated leftmost
    replacement over a whole text does to its lines. */
module Placeholders {
  import opened Wrappers
  import opened Text

  /** `f'"{word}"'` */
  function Quoted(word: string): string {
    "\"" + word + "\""
  }

  /** The replacement loop: each tag in turn replaces the leftmost quoted placeholder. */
  function ReplaceEach(text: string, quoted: string, tags: seq<string>): string
    decreases |tags|
  {
    if tags == [] then text
    else ReplaceEach(ReplaceFirst(text, quoted, Quoted(tags[0])), quoted, tags[1..])
  }

  /** The numbers of the lines that hold the placeholder, for lines numbered from `first`. */
  function PlaceholderLines(lines: seq<string>, quoted: string, first: nat): seq<nat> {
    if lines == [] then []
    else if Contains(lines[0], quoted) then [first] + PlaceholderLines(lines[1..], quoted, first + 1)
    else PlaceholderLines(lines[1..], quoted, first + 1)
  }

  /** A recorded number is the number of a line that holds the placeholder. */
  lemma {:induction false} RecordedHolds(lines: seq<string>, quoted: string, first: nat, i: nat)
    requires i < |PlaceholderLines(lines, quoted, first)|
    ensures var n := PlaceholderLines(lines, quoted, first)[i];
            first <= n < first + |lines| && Contains(lines[n - first], quoted)
    decreases |lines|
  {
    var d := if Contains(lines[0], quoted) then 1 else 0;
    if d <= i {
      RecordedHolds(lines[1..], quoted, first + 1, i - d);
    }
  }

  /** The recorded numbers are increasing. */
  lemma {:induction false} PlaceholderLinesIncrease(lines: seq<string>, quoted: string, first: nat)
    ensures Increasing(PlaceholderLines(lines, quoted, first))
    decreases |lines|
  {
    if lines != [] {
      PlaceholderLinesIncrease(lines[1..], quoted, first + 1);
      var rest := PlaceholderLines(lines[1..], quoted, first + 1);
      forall l | 0 <= l < |rest|
        ensures first < rest[l]
      {
        RecordedHolds(lines[1..], quoted, first + 1, l);
      }
    }
  }

  /** Every placeholder line is recorded. */
  lemma {:induction false} HoldsIsRecorded(lines: seq<string>, quoted: string, first: nat, k: nat)
    requires k < |lines| && Contains(lines[k], quoted)
    ensures first + k in PlaceholderLines(lines, quoted, first)
    decreases |lines|
  {
    if k > 0 {
      HoldsIsRecorded(lines[1..], quoted, first + 1, k - 1);
    }
  }

  /** One replacement, seen on lines: the first line that holds the placeholder changes. */
  function ReplaceInLines(lines: seq<string>, quoted: string, sub: string): (lines': seq<string>)
    ensures |lines'| == |lines|
  {
    if lines == [] then []
    else if Contains(lines[0], quoted) then [ReplaceFirst(lines[0], quoted, sub)] + lines[1..]
    else [lines[0]] + ReplaceInLines(lines[1..], quoted, sub)
  }

  /** The loop, seen on lines. */
  function ReplaceEachInLines(lines: seq<string>, quoted: string, tags: seq<string>): (lines': seq<string>)
    ensures |lines'| == |lines|
    decreases |tags|
  {
    if tags == [] then lines
    else ReplaceEachInLines(ReplaceInLines(lines, quoted, Quoted(tags[0])), quoted, tags[1..])
  }

  /** The result the report promises: the `i`-th placeholder line receives the `i`-th tag,
      every other line stays. */
  function Retagged(lines: seq<string>, quoted: string, tags: seq<string>): (lines': seq<string>)
    requires |tags| == |PlaceholderLines(lines, quoted, 0)|
    ensures |lines'| == |lines|
    decreases |lines|
  {
    if lines == [] then []
    else
      LineNumbersShift(lines[1..], quoted, 0, 1);
      if Contains(lines[0], quoted) then
        [ReplaceFirst(lines[0], quoted, Quoted(tags[0]))] + Retagged(lines[1..], quoted, tags[1..])
      else [lines[0]] + Retagged(lines[1..], quoted, tags)
  }

  lemma {:induction false} LineNumbersShift(lines: seq<string>, quoted: string, a: nat, b: nat)
    ensures |PlaceholderLines(lines, quoted, a)| == |PlaceholderLines(lines, quoted, b)|
    decreases |lines|
  {
    if lines != [] {
      LineNumbersShift(lines[1..], quoted, a + 1, b + 1);
    }
  }

  /** How many lines hold the placeholder. */
  function LineCount(lines: seq<string>, quoted: string): nat {
    |PlaceholderLines(lines, quoted, 0)|
  }

  lemma LineCountStep(lines: seq<string>, quoted: string)
    requires lines != []
    ensures LineCount(lines, quoted)
         == (if Contains(lines[0], quoted) then 1 else 0) + LineCount(lines[1..], quoted)
  {
    LineNumbersShift(lines[1..], quoted, 0, 1);
  }

  /** There is no placeholder line iff no line holds the placeholder. */
  lemma NoLinesIff(lines: seq<string>, quoted: string)
    ensures LineCount(lines, quoted) == 0 <==> forall k | 0 <= k < |lines| :: !Contains(lines[k], quoted)
  {
    var numbers := PlaceholderLines(lines, quoted, 0);
    if LineCount(lines, quoted) > 0 {
      RecordedHolds(lines, quoted, 0, 0);
    }
    forall k | 0 <= k < |lines| && Contains(lines[k], quoted)
      ensures LineCount(lines, quoted) > 0
    {
      HoldsIsRecorded(lines, quoted, 0, k);
    }
  }

  // ---------- text and lines agree

  /** Replacing the leftmost placeholder of a text is replacing it in the first line that has one. */
  lemma {:induction false} ReplaceFirstOfJoin(lines: seq<string>, quoted: string, sub: string)
    requires lines != [] && quoted != "" && '\n' !in quoted
    ensures ReplaceFirst(Join(lines, NEWLINE), quoted, sub) == Join(ReplaceInLines(lines, quoted, sub), NEWLINE)
    decreases |lines|
  {
    var lines' := ReplaceInLines(lines, quoted, sub);
    if |lines| == 1 {
      assert Join(lines, NEWLINE) == lines[0];
      assert Join(lines', NEWLINE) == lines'[0];
    } else {
      var a, b := lines[0], Join(lines[1..], NEWLINE);
      assert Join(lines, NEWLINE) == a + NEWLINE + b;
      FindInParts(a, b, quoted);
      if Contains(a, quoted) {
        ReplaceInFirstPart(a, b, quoted, sub);
        assert lines'[1..] == lines[1..];
      } else {
        ReplaceFirstOfJoin(lines[1..], quoted, sub);
        ReplaceInSecondPart(a + NEWLINE + b, a, b, quoted, sub);
        assert lines' == [a] + ReplaceInLines(lines[1..], quoted, sub);
        assert lines'[1..] == ReplaceInLines(lines[1..], quoted, sub);
      }
    }
  }

  /** The two slices around a place in the first part. */
  lemma FirstPartSlices(a: string, b: string, q: nat)
    requires q <= |a|
    ensures (a + NEWLINE + b)[..q] == a[..q]
    ensures (a + NEWLINE + b)[q..] == a[q..] + NEWLINE + b
  {
  }

  lemma ReplaceInFirstPart(a: string, b: string, quoted: string, sub: string)
    requires Contains(a, quoted) && Find(a + NEWLINE + b, quoted) == Find(a, quoted)
    ensures ReplaceFirst(a + NEWLINE + b, quoted, sub) == ReplaceFirst(a, quoted, sub) + NEWLINE + b
  {
    var p := Find(a, quoted).value;
    FirstPartSlices(a, b, p);
    FirstPartSlices(a, b, p + |quoted|);
  }

  /** The two slices around a place in the second part. */
  lemma SecondPartSlices(a: string, b: string, q: nat)
    requires q <= |b|
    ensures (a + NEWLINE + b)[..|a| + 1 + q] == a + NEWLINE + b[..q]
    ensures (a + NEWLINE + b)[|a| + 1 + q..] == b[q..]
  {
  }

  lemma ReplaceAtInSecondPart(a: string, b: string, quoted: string, sub: string, q: nat)
    requires OccursAt(b, quoted, q) && OccursAt(a + NEWLINE + b, quoted, |a| + 1 + q)
    ensures ReplaceAt(a + NEWLINE + b, quoted, sub, |a| + 1 + q) == a + NEWLINE + ReplaceAt(b, quoted, sub, q)
  {
    SecondPartSlices(a, b, q);
    SecondPartSlices(a, b, q + |quoted|);
    var head, tail := b[..q], b[q + |quoted|..];
    assert a + NEWLINE + head + sub + tail == a + NEWLINE + (head + sub + tail);
  }

  lemma ReplaceInSecondPart(s: string, a: string, b: string, quoted: string, sub: string)
    requires s == a + NEWLINE + b
    requires Find(s, quoted) == if Contains(b, quoted) then Some(|a| + 1 + Find(b, quoted).value) else None
    ensures ReplaceFirst(s, quoted, sub) == a + NEWLINE + ReplaceFirst(b, quoted, sub)
  {
    if Contains(b, quoted) {
      var q := Find(b, quoted).value;
      assert ReplaceFirst(s, quoted, sub) == ReplaceAt(s, quoted, sub, |a| + 1 + q);
      assert ReplaceFirst(b, quoted, sub) == ReplaceAt(b, quoted, sub, q);
      ReplaceAtInSecondPart(a, b, quoted, sub, q);
    }
  }

  lemma {:induction false} ReplaceEachOfJoin(lines: seq<string>, quoted: string, tags: seq<string>)
    requires lines != [] && quoted != "" && '\n' !in quoted
    ensures ReplaceEach(Join(lines, NEWLINE), quoted, tags) == Join(ReplaceEachInLines(lines, quoted, tags), NEWLINE)
    decreases |tags|
  {
    if tags != [] {
      ReplaceFirstOfJoin(lines, quoted, Quoted(tags[0]));
      ReplaceEachOfJoin(ReplaceInLines(lines, quoted, Quoted(tags[0])), quoted, tags[1..]);
    }
  }

  // ---------- the pigeonhole argument

  /** A replacement settles at most one line. */
  lemma {:induction false} OneLinePerReplacement(lines: seq<string>, quoted: string, sub: string)
    ensures LineCount(ReplaceInLines(lines, quoted, sub), quoted) >= LineCount(lines, quoted) - 1
    decreases |lines|
  {
    if lines != [] {
      var lines' := ReplaceInLines(lines, quoted, sub);
      LineCountStep(lines, quoted);
      LineCountStep(lines', quoted);
      if Contains(lines[0], quoted) {
        assert lines'[1..] == lines[1..];
      } else {
        assert lines'[1..] == ReplaceInLines(lines[1..], quoted, sub);
        OneLinePerReplacement(lines[1..], quoted, sub);
      }
    }
  }

  /** `n` replacements settle at most `n` lines. */
  lemma {:induction false} AtMostOneLineEach(lines: seq<string>, quoted: string, tags: seq<string>)
    ensures LineCount(ReplaceEachInLines(lines, quoted, tags), quoted) >= LineCount(lines, quoted) - |tags|
    decreases |tags|
  {
    if tags != [] {
      OneLinePerReplacement(lines, quoted, Quoted(tags[0]));
      AtMostOneLineEach(ReplaceInLines(lines, quoted, Quoted(tags[0])), quoted, tags[1..]);
    }
  }

  /** The first placeholder line after `tags[0]` is placed no longer holds the placeholder. */
  predicate FirstSettled(lines: seq<string>, quoted: string, tag: string) {
    LineCount(ReplaceInLines(lines, quoted, Quoted(tag)), quoted) == LineCount(lines, quoted) - 1
  }

  /** Every placeholder line is settled by the tag meant for it. */
  predicate AllSettled(lines: seq<string>, quoted: string, tags: seq<string>)
    requires |tags| == LineCount(lines, quoted)
  {
    var lines' := Retagged(lines, quoted, tags);
    forall k | 0 <= k < |lines'| :: !Contains(lines'[k], quoted)
  }

  /** Settling the first placeholder line leaves the same task with the remaining tags. */
  lemma {:induction false} SettleFirst(lines: seq<string>, quoted: string, tags: seq<string>)
    requires |tags| == LineCount(lines, quoted) > 0
    requires FirstSettled(lines, quoted, tags[0])
    ensures Retagged(ReplaceInLines(lines, quoted, Quoted(tags[0])), quoted, tags[1..]) == Retagged(lines, quoted, tags)
    decreases |lines|
  {
    var lines' := ReplaceInLines(lines, quoted, Quoted(tags[0]));
    LineCountStep(lines, quoted);
    LineCountStep(lines', quoted);
    if Contains(lines[0], quoted) {
      assert lines'[1..] == lines[1..];
    } else {
      assert lines'[1..] == ReplaceInLines(lines[1..], quoted, Quoted(tags[0]));
      SettleFirst(lines[1..], quoted, tags);
    }
  }

  /** If every line is settled by its own tag, so is the first one by the first tag. */
  lemma {:induction false} AllSettledSettlesFirst(lines: seq<string>, quoted: string, tags: seq<string>)
    requires |tags| == LineCount(lines, quoted) > 0
    requires AllSettled(lines, quoted, tags)
    ensures FirstSettled(lines, quoted, tags[0])
    decreases |lines|
  {
    var lines' := ReplaceInLines(lines, quoted, Quoted(tags[0]));
    var result := Retagged(lines, quoted, tags);
    LineCountStep(lines, quoted);
    LineCountStep(lines', quoted);
    if Contains(lines[0], quoted) {
      assert lines'[1..] == lines[1..];
      assert !Contains(result[0], quoted);
    } else {
      assert lines'[1..] == ReplaceInLines(lines[1..], quoted, Quoted(tags[0]));
      assert forall k | 0 <= k < |lines| - 1 :: Retagged(lines[1..], quoted, tags)[k] == result[k + 1];
      AllSettledSettlesFirst(lines[1..], quoted, tags);
    }
  }

  /** With one tag per placeholder line, the loop leaves no placeholder exactly when every line
      is settled by its own tag, and then its result is the one the report promises. */
  lemma {:induction false} LoopSettlesAllIff(lines: seq<string>, quoted: string, tags: seq<string>)
    requires |tags| == LineCount(lines, quoted)
    ensures LineCount(ReplaceEachInLines(lines, quoted, tags), quoted) == 0 <==> AllSettled(lines, quoted, tags)
    ensures AllSettled(lines, quoted, tags) ==> ReplaceEachInLines(lines, quoted, tags) == Retagged(lines, quoted, tags)
    decreases |tags|
  {
    if tags == [] {
      NoLinesIff(lines, quoted);
      NothingToRetag(lines, quoted);
    } else {
      var lines' := ReplaceInLines(lines, quoted, Quoted(tags[0]));
      OneLinePerReplacement(lines, quoted, Quoted(tags[0]));
      AtMostOneLineEach(lines', quoted, tags[1..]);
      if FirstSettled(lines, quoted, tags[0]) {
        SettleFirst(lines, quoted, tags);
        LoopSettlesAllIff(lines', quoted, tags[1..]);
      } else {
        ReplacementAddsNoLine(lines, quoted, Quoted(tags[0]));
        if AllSettled(lines, quoted, tags) {
          AllSettledSettlesFirst(lines, quoted, tags);
        }
      }
    }
  }

  lemma {:induction false} NothingToRetag(lines: seq<string>, quoted: string)
    requires LineCount(lines, quoted) == 0
    ensures Retagged(lines, quoted, []) == lines
    decreases |lines|
  {
    if lines != [] {
      LineCountStep(lines, quoted);
      NothingToRetag(lines[1..], quoted);
    }
  }

  /** A replacement never adds a placeholder line. */
  lemma {:induction false} ReplacementAddsNoLine(lines: seq<string>, quoted: string, sub: string)
    ensures LineCount(ReplaceInLines(lines, quoted, sub), quoted) <= LineCount(lines, quoted)
    decreases |lines|
  {
    if lines != [] {
      var lines' := ReplaceInLines(lines, quoted, sub);
      LineCountStep(lines, quoted);
      LineCountStep(lines', quoted);
      if Contains(lines[0], quoted) {
        assert lines'[1..] == lines[1..];
      } else {
        assert lines'[1..] == ReplaceInLines(lines[1..], quoted, sub);
        ReplacementAddsNoLine(lines[1..], quoted, sub);
      }
    }
  }

  /** The tags left after the first line. */
  function TagsAfterFirst(lines: seq<string>, quoted: string, tags: seq<string>): seq<string>
    requires |tags| == LineCount(lines, quoted) && lines != []
  {
    if Contains(lines[0], quoted) then tags[1..] else tags
  }

  /** The result past the first line is the result for the remaining lines and tags. */
  lemma RetaggedInRest(lines: seq<string>, quoted: string, tags: seq<string>, k: nat)
    requires |tags| == LineCount(lines, quoted) && 0 < k < |lines|
    ensures |TagsAfterFirst(lines, quoted, tags)| == LineCount(lines[1..], quoted)
    ensures Retagged(lines, quoted, tags)[k] == Retagged(lines[1..], quoted, TagsAfterFirst(lines, quoted, tags))[k - 1]
  {
    LineCountStep(lines, quoted);
  }

  /** Past the first line, the recorded numbers are those of the remaining lines. */
  lemma RecordedInRest(lines: seq<string>, quoted: string, first: nat, i: nat)
    requires i < |PlaceholderLines(lines, quoted, first)|
    ensures var rest := PlaceholderLines(lines[1..], quoted, first + 1);
            if Contains(lines[0], quoted) then
              |rest| == |PlaceholderLines(lines, quoted, first)| - 1 &&
              PlaceholderLines(lines, quoted, first)[i] == if i == 0 then first else rest[i - 1]
            else rest == PlaceholderLines(lines, quoted, first)
  {
  }

  /** The `i`-th recorded line holds the `i`-th tag where its first placeholder was. */
  lemma {:induction false} RecordedLineGetsItsTag(lines: seq<string>, quoted: string, tags: seq<string>,
                                                  first: nat, i: nat, k: nat)
    requires |tags| == LineCount(lines, quoted) == |PlaceholderLines(lines, quoted, first)|
    requires i < |tags| && k < |lines| && PlaceholderLines(lines, quoted, first)[i] == first + k
    ensures Retagged(lines, quoted, tags)[k] == ReplaceFirst(lines[k], quoted, Quoted(tags[i]))
    decreases |lines|
  {
    RecordedInRest(lines, quoted, first, i);
    if Contains(lines[0], quoted) && i == 0 {
      FirstLineGetsFirstTag(lines, quoted, tags);
    } else {
      LineCountStep(lines, quoted);
      var i' := if Contains(lines[0], quoted) then i - 1 else i;
      RecordedHolds(lines[1..], quoted, first + 1, i');
      RecordedLineGetsItsTag(lines[1..], quoted, TagsAfterFirst(lines, quoted, tags), first + 1, i', k - 1);
      LaterLineGetsItsTag(lines, quoted, tags, i, i', k);
    }
  }

  lemma LaterLineGetsItsTag(lines: seq<string>, quoted: string, tags: seq<string>, i: nat, i': nat, k: nat)
    requires |tags| == LineCount(lines, quoted) && 0 < k < |lines| && i < |tags|
    requires i == if Contains(lines[0], quoted) then i' + 1 else i'
    requires |TagsAfterFirst(lines, quoted, tags)| == LineCount(lines[1..], quoted)
    requires Retagged(lines[1..], quoted, TagsAfterFirst(lines, quoted, tags))[k - 1]
          == ReplaceFirst(lines[1..][k - 1], quoted, Quoted(TagsAfterFirst(lines, quoted, tags)[i']))
    ensures Retagged(lines, quoted, tags)[k] == ReplaceFirst(lines[k], quoted, Quoted(tags[i]))
  {
    RetaggedInRest(lines, quoted, tags, k);
    assert lines[1..][k - 1] == lines[k] && TagsAfterFirst(lines, quoted, tags)[i'] == tags[i];
  }

  lemma FirstLineGetsFirstTag(lines: seq<string>, quoted: string, tags: seq<string>)
    requires |tags| == LineCount(lines, quoted) > 0 && Contains(lines[0], quoted)
    ensures Retagged(lines, quoted, tags)[0] == ReplaceFirst(lines[0], quoted, Quoted(tags[0]))
  {
  }

  /** A line that is not recorded is unchanged. */
  lemma {:induction false} OtherLinesStay(lines: seq<string>, quoted: string, tags: seq<string>, k: nat)
    requires |tags| == LineCount(lines, quoted)
    requires k < |lines| && !Contains(lines[k], quoted)
    ensures Retagged(lines, quoted, tags)[k] == lines[k]
    decreases |lines|
  {
    if k > 0 {
      RetaggedInRest(lines, quoted, tags, k);
      OtherLinesStay(lines[1..], quoted, TagsAfterFirst(lines, quoted, tags), k - 1);
    }
  }

  // ---------- what settles a line

  /** No two different starts of the pattern, overlapping ones included. */
  ghost predicate AtMostOneStart(line: string, pat: string) {
    forall i: nat, j: nat | OccursAt(line, pat, i) && OccursAt(line, pat, j) :: i == j
  }

  /** A text with a single start of the pattern has a single line with it. */
  lemma SingleStartOneLine(text: string, quoted: string)
    requires quoted != "" && '\n' !in quoted
    requires Contains(text, quoted) && AtMostOneStart(text, quoted)
    ensures LineCount(Split(text, NEWLINE), quoted) == 1
  {
    JoinOfSplit(text, NEWLINE);
    SingleStartOneOfLines(Split(text, NEWLINE), quoted);
  }

  lemma {:induction false} SingleStartOneOfLines(lines: seq<string>, quoted: string)
    requires quoted != "" && '\n' !in quoted && lines != []
    requires Contains(Join(lines, NEWLINE), quoted) && AtMostOneStart(Join(lines, NEWLINE), quoted)
    ensures LineCount(lines, quoted) == 1
    decreases |lines|
  {
    LineCountStep(lines, quoted);
    if |lines| > 1 {
      var a, b := lines[0], Join(lines[1..], NEWLINE);
      assert Join(lines, NEWLINE) == a + NEWLINE + b;
      FindInParts(a, b, quoted);
      SingleStartInParts(a, b, quoted);
      if Contains(a, quoted) {
        ContainsOfJoin(lines[1..], quoted);
        NoLinesIff(lines[1..], quoted);
      } else {
        SingleStartOneOfLines(lines[1..], quoted);
      }
    }
  }

  lemma SingleStartInParts(a: string, b: string, quoted: string)
    requires quoted != "" && '\n' !in quoted && AtMostOneStart(a + NEWLINE + b, quoted)
    ensures AtMostOneStart(b, quoted) && (!Contains(a, quoted) || !Contains(b, quoted))
  {
    if Contains(a, quoted) && Contains(b, quoted) {
      StartInBothParts(a, b, quoted);
    }
    forall i: nat | OccursAt(b, quoted, i)
      ensures OccursAt(a + NEWLINE + b, quoted, |a| + 1 + i)
    {
      OccursInParts(a, b, quoted, |a| + 1 + i);
    }
  }

  lemma StartInBothParts(a: string, b: string, quoted: string)
    requires quoted != "" && '\n' !in quoted && Contains(a, quoted) && Contains(b, quoted)
    ensures !AtMostOneStart(a + NEWLINE + b, quoted)
  {
    var p, q := Find(a, quoted).value, |a| + 1 + Find(b, quoted).value;
    OccursInParts(a, b, quoted, p);
    OccursInParts(a, b, quoted, q);
    assert OccursAt(a + NEWLINE + b, quoted, p) && OccursAt(a + NEWLINE + b, quoted, q);
  }

  /** An occurrence of a quoted word: its two quotes and no quote between them. */
  lemma QuotedShape(s: string, word: string, i: nat)
    requires OccursAt(s, Quoted(word), i)
    ensures s[i] == '"' && s[i + |word| + 1] == '"'
    ensures forall j | i < j <= i + |word| :: s[j] == word[j - i - 1]
  {
  }

  lemma QuotedAt(s: string, word: string, i: nat)
    requires i + |word| + 2 <= |s|
    requires s[i] == '"' && s[i + |word| + 1] == '"'
    requires forall j | i < j <= i + |word| :: s[j] == word[j - i - 1]
    ensures OccursAt(s, Quoted(word), i)
  {
  }

  /** The quoted tag holds the quoted placeholder: it is the placeholder, or has quotes of its own. */
  predicate Holds(tag: string, word: string) {
    Contains(Quoted(tag), Quoted(word))
  }

  /** A tag without quotes holds only itself. */
  lemma HoldsItself(tag: string, word: string)
    requires '"' !in tag
    ensures Holds(tag, word) && '"' !in word ==> tag == word
    ensures tag == word ==> Holds(tag, word)
  {
    if tag == word {
      assert OccursAt(Quoted(tag), Quoted(word), 0);
    } else if Holds(tag, word) && '"' !in word {
      var i := Find(Quoted(tag), Quoted(word)).value;
      QuotedShape(Quoted(tag), word, i);
      assert i == 0 && |word| == |tag|;
      assert forall j | 0 <= j < |word| :: word[j] == Quoted(tag)[j + 1] == tag[j];
    }
  }

  /** A quoted word that stands inside a quoted tag in a text. */
  lemma HeldInText(s: string, word: string, tag: string, p: nat, i: nat)
    requires OccursAt(s, Quoted(tag), p) && OccursAt(s, Quoted(word), i)
    requires p <= i && i + |word| <= p + |tag|
    ensures Holds(tag, word)
  {
    SubSlice(s, p, Quoted(tag), 0, |tag| + 2, i - p, i - p + |word| + 2);
    assert OccursAt(Quoted(tag), Quoted(word), i - p);
  }

  /** Where the placeholder can be after one of its occurrences became a quoted tag: at another
      place where it already was, or within the quoted tag. */
  lemma OccurrenceAfterReplacement(s: string, word: string, tag: string, p: nat, i: nat)
    requires '"' !in word
    requires OccursAt(s, Quoted(word), p)
    requires OccursAt(ReplaceAt(s, Quoted(word), Quoted(tag), p), Quoted(word), i)
    ensures Holds(tag, word)
         || (i + |word| + 1 <= p && OccursAt(s, Quoted(word), i))
         || (i >= p + |tag| + 1 && OccursAt(s, Quoted(word), i - |tag| + |word|))
  {
    var s' := ReplaceAt(s, Quoted(word), Quoted(tag), p);
    QuotedShape(s, word, p);
    QuotedShape(s', word, i);
    ReplaceAtShape(s, word, tag, p);
    if i + |word| + 1 <= p {
      QuotedAt(s, word, i);
    } else if i >= p + |tag| + 1 {
      var i' := i - |tag| + |word|;
      forall j | i' < j <= i' + |word|
        ensures s[j] == word[j - i' - 1]
      {
        assert s[j] == s'[j - |word| + |tag|];
      }
      QuotedAt(s, word, i');
    } else {
      // the word has no quote, so it does not reach beyond the quotes of the tag
      QuotedAt(s', tag, p);
      HeldInText(s', word, tag, p, i);
    }
  }

  /** The characters of a text after one replacement. */
  lemma ReplaceAtShape(s: string, word: string, tag: string, p: nat)
    requires OccursAt(s, Quoted(word), p)
    ensures var s' := ReplaceAt(s, Quoted(word), Quoted(tag), p);
            && |s'| == |s| + |tag| - |word|
            && (forall j | 0 <= j < p :: s'[j] == s[j])
            && s'[p] == '"' && s'[p + |tag| + 1] == '"'
            && (forall j | p < j <= p + |tag| :: s'[j] == tag[j - p - 1])
            && (forall j | p + |tag| + 2 <= j < |s'| :: s'[j] == s[j - |tag| + |word|])
  {
  }

  /** With a single start and a tag that does not hold the placeholder, one replacement settles the line. */
  lemma SingleStartIsSettled(line: string, word: string, tag: string, p: nat)
    requires '"' !in word && !Holds(tag, word)
    requires OccursAt(line, Quoted(word), p) && AtMostOneStart(line, Quoted(word))
    ensures !Contains(ReplaceAt(line, Quoted(word), Quoted(tag), p), Quoted(word))
  {
    var line' := ReplaceAt(line, Quoted(word), Quoted(tag), p);
    if Contains(line', Quoted(word)) {
      var i := Find(line', Quoted(word)).value;
      OccurrenceAfterReplacement(line, word, tag, p, i);
    }
  }

  /** A tag that holds the placeholder does not settle the line. */
  lemma HeldPlaceholderStays(line: string, word: string, tag: string, p: nat)
    requires OccursAt(line, Quoted(word), p) && Holds(tag, word)
    ensures Contains(ReplaceAt(line, Quoted(word), Quoted(tag), p), Quoted(word))
  {
    var line' := ReplaceAt(line, Quoted(word), Quoted(tag), p);
    var i := Find(Quoted(tag), Quoted(word)).value;
    assert line'[p..p + |tag| + 2] == Quoted(tag);
    SubSlice(line', p, Quoted(tag), 0, |tag| + 2, i, i + |word| + 2);
    assert OccursAt(line', Quoted(word), p + i);
  }

  /** One replacement settles a line exactly when the line has a single start of the quoted
      placeholder and the quoted tag does not hold the placeholder. */
  lemma SettledIff(line: string, word: string, tag: string)
    requires '"' !in word
    requires Contains(line, Quoted(word))
    ensures !Contains(ReplaceFirst(line, Quoted(word), Quoted(tag)), Quoted(word))
       <==> AtMostOneStart(line, Quoted(word)) && !Holds(tag, word)
  {
    var p := Find(line, Quoted(word)).value;
    if Holds(tag, word) {
      HeldPlaceholderStays(line, word, tag, p);
    } else if AtMostOneStart(line, Quoted(word)) {
      SingleStartIsSettled(line, word, tag, p);
    } else {
      var i: nat, j: nat :| OccursAt(line, Quoted(word), i) && OccursAt(line, Quoted(word), j) && i != j;
      LaterStartSurvives(line, word, tag, p, if i == p then j else i);
    }
  }

  /** A start to the right of the rewritten one is still there after the replacement. */
  lemma LaterStartSurvives(line: string, word: string, tag: string, p: nat, i: nat)
    requires '"' !in word
    requires OccursAt(line, Quoted(word), p) && OccursAt(line, Quoted(word), i) && p < i
    ensures Contains(ReplaceAt(line, Quoted(word), Quoted(tag), p), Quoted(word))
  {
    var line' := ReplaceAt(line, Quoted(word), Quoted(tag), p);
    ReplaceAtShape(line, word, tag, p);
    QuotedShape(line, word, p);
    QuotedShape(line, word, i);
    assert i > p + |word|;
    var i' := i - |word| + |tag|;
    forall j | i' < j <= i' + |word|
      ensures line'[j] == word[j - i' - 1]
    {
      assert line'[j] == line[j - |tag| + |word|];
    }
    QuotedAt(line', word, i');
  }
}
