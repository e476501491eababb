/** How many lines a text has, and what a run of `scripts/retag_untagged.py` does to that number. */
module LineBreaks {
  import opened Text
  import opened Tags
  import opened Placeholders
  import opened Retag

  /** The number of line breaks in a text. */
  function Breaks(s: string): nat {
    if s == "" then 0 else (if s[0] == '\n' then 1 else 0) + Breaks(s[1..])
  }

  /** The number of line breaks in several texts. */
  function TotalBreaks(parts: seq<string>): nat {
    if parts == [] then 0 else Breaks(parts[0]) + TotalBreaks(parts[1..])
  }

  lemma {:induction false} BreaksOfConcat(a: string, b: string)
    ensures Breaks(a + b) == Breaks(a) + Breaks(b)
  {
    if a == "" {
      assert a + b == b;
    } else {
      BreaksOfConcat(a[1..], b);
      assert (a + b)[1..] == a[1..] + b;
    }
  }

  lemma {:induction false} NoBreaksIff(s: string)
    ensures Breaks(s) == 0 <==> '\n' !in s
  {
    if s != "" {
      NoBreaksIff(s[1..]);
      assert s == [s[0]] + s[1..];
    }
  }

  lemma {:induction false} NoTotalBreaksIff(parts: seq<string>)
    ensures TotalBreaks(parts) == 0 <==> LineFree(parts)
  {
    if parts != [] {
      NoBreaksIff(parts[0]);
      NoTotalBreaksIff(parts[1..]);
      assert LineFree(parts) <==> '\n' !in parts[0] && LineFree(parts[1..]) by {
        assert forall k | 1 <= k < |parts| :: parts[k] == parts[1..][k - 1];
        assert forall k | 0 <= k < |parts| - 1 :: parts[1..][k] == parts[k + 1];
      }
    }
  }

  /** Joining adds one line break between neighbours. */
  lemma {:induction false} BreaksOfJoin(lines: seq<string>)
    requires lines != []
    ensures Breaks(Join(lines, NEWLINE)) == TotalBreaks(lines) + |lines| - 1
    decreases |lines|
  {
    if |lines| == 1 {
      assert Join(lines, NEWLINE) == lines[0] && lines[1..] == [];
    } else {
      var rest := Join(lines[1..], NEWLINE);
      assert Join(lines, NEWLINE) == lines[0] + NEWLINE + rest;
      BreaksOfConcat(lines[0] + NEWLINE, rest);
      BreaksOfConcat(lines[0], NEWLINE);
      BreaksOfJoin(lines[1..]);
    }
  }

  /** A text has one line more than it has line breaks. */
  lemma LinesOfText(s: string)
    ensures |Split(s, NEWLINE)| == Breaks(s) + 1
  {
    SplitIsLineFree(s);
    NoTotalBreaksIff(Split(s, NEWLINE));
    JoinOfSplit(s, NEWLINE);
    BreaksOfJoin(Split(s, NEWLINE));
  }

  lemma BreaksOfQuoted(word: string)
    ensures Breaks(Quoted(word)) == Breaks(word)
  {
    BreaksOfConcat("\"" + word, "\"");
    BreaksOfConcat("\"", word);
  }

  lemma BreaksOfReplacement(line: string, word: string, tag: string)
    requires Contains(line, Quoted(word)) && '\n' !in word
    ensures Breaks(ReplaceFirst(line, Quoted(word), Quoted(tag))) == Breaks(line) + Breaks(tag)
  {
    var p := Find(line, Quoted(word)).value;
    var head, tail := line[..p], line[p + |Quoted(word)|..];
    assert line == head + Quoted(word) + tail;
    BreaksOfConcat(head + Quoted(word), tail);
    BreaksOfConcat(head, Quoted(word));
    BreaksOfConcat(head + Quoted(tag), tail);
    BreaksOfConcat(head, Quoted(tag));
    BreaksOfQuoted(word);
    BreaksOfQuoted(tag);
    NoBreaksIff(word);
  }

  lemma {:induction false} BreaksOfRetagged(lines: seq<string>, word: string, tags: seq<string>)
    requires |tags| == LineCount(lines, Quoted(word)) && '\n' !in word
    ensures TotalBreaks(Retagged(lines, Quoted(word), tags)) == TotalBreaks(lines) + TotalBreaks(tags)
    decreases |lines|
  {
    if lines != [] {
      LineCountStep(lines, Quoted(word));
      var lines' := Retagged(lines, Quoted(word), tags);
      if Contains(lines[0], Quoted(word)) {
        BreaksOfRetagged(lines[1..], word, tags[1..]);
        BreaksOfReplacement(lines[0], word, tags[0]);
        assert lines'[1..] == Retagged(lines[1..], Quoted(word), tags[1..]);
      } else {
        BreaksOfRetagged(lines[1..], word, tags);
        assert lines'[1..] == Retagged(lines[1..], Quoted(word), tags);
      }
    }
  }

  /** A written file gains exactly the line breaks of its new tags; so its line count is unchanged
      iff no new tag holds a line break. */
  lemma WrittenLineCount(content: string, placeholder: string, length: nat, charset: string, rng: Choices)
    requires Run(content, placeholder, length, charset, rng).Written?
    ensures TagsGenerated(content, placeholder, length, charset, rng)
    ensures var text := Run(content, placeholder, length, charset, rng).text;
            var tags := NewTags(content, placeholder, length, charset, rng);
            && |Split(text, NEWLINE)| == |Split(content, NEWLINE)| + TotalBreaks(tags)
            && (|Split(text, NEWLINE)| == |Split(content, NEWLINE)| <==> LineFree(tags))
  {
    if '\n' in placeholder {
      PlaceholderWithBreakIsOnNoLine(content, placeholder);
    }
    WrittenText(content, placeholder, length, charset, rng);
    var lines := Split(content, NEWLINE);
    var tags := NewTags(content, placeholder, length, charset, rng);
    var lines' := Retagged(lines, Quoted(placeholder), tags);
    BreaksOfRetagged(lines, placeholder, tags);
    BreaksOfJoin(lines');
    LinesOfText(Join(lines', NEWLINE));
    SplitIsLineFree(content);
    NoTotalBreaksIff(lines);
    NoTotalBreaksIff(tags);
  }
}
