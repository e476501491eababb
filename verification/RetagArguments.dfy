/** What a caller of `scripts/retag_untagged.py` can tell from the arguments and the file, before
    anything is drawn. */
module RetagArguments {
  import opened Text
  import opened Tags
  import opened Capacity
  import opened Placeholders
  import opened Retag
  import opened RetagLimits
  import opened LineBreaks

  // ---------- the number of lines

  /** Whatever the file and the draws are, a written file has as many lines as before. */
  ghost predicate KeepsLineCount(length: nat, charset: string) {
    forall content: string, placeholder: string, rng: Choices ::
      Run(content, placeholder, length, charset, rng).Written? ==>
        |Split(Run(content, placeholder, length, charset, rng).text, NEWLINE)| == |Split(content, NEWLINE)|
  }

  /** The tag of line breaks only, on a file that is just a placeholder. */
  lemma BreakTagChangesLineCount(length: nat, charset: string)
    requires length > 0 && '\n' in charset
    ensures !KeepsLineCount(length, charset)
  {
    var content, tag := Quoted("P"), Filled('\n', length);
    assert "" + content + "" == content && "" + Quoted(tag) + "" == Quoted(tag);
    LonePlaceholder("", "", tag, 'P');
    assert ExtractTags(content, length, charset) == [];
    var rng := RunWithTag(content, "P", tag, length, charset);
    WrittenLineCount(content, "P", length, charset, rng);
    assert [tag][0] == tag && tag[0] == '\n';
  }

  /** For every file, placeholder and draws the line count is kept, exactly when no tag can hold a line
      break. */
  lemma LineCountIsKeptIff(length: nat, charset: string)
    ensures KeepsLineCount(length, charset) <==> length == 0 || '\n' !in charset
  {
    if length == 0 || '\n' !in charset {
      forall content: string, placeholder: string, rng: Choices | Run(content, placeholder, length, charset, rng).Written?
        ensures |Split(Run(content, placeholder, length, charset, rng).text, NEWLINE)| == |Split(content, NEWLINE)|
      {
        WrittenLineCount(content, placeholder, length, charset, rng);
        var tags := NewTags(content, placeholder, length, charset, rng);
        forall k | 0 <= k < |tags|
          ensures '\n' !in tags[k]
        {
          assert tags[k] in tags;
        }
      }
    } else {
      BreakTagChangesLineCount(length, charset);
    }
  }

  // ---------- whether the file is written

  /** The tags that hold the placeholder. */
  function Holding(placeholder: string, length: nat, charset: string): set<string> {
    set t | t in AllTags(length, charset) && Holds(t, placeholder)
  }

  lemma HoldingAre(t: string, placeholder: string, length: nat, charset: string)
    ensures t in Holding(placeholder, length, charset) <==> IsTag(t, length, charset) && Holds(t, placeholder)
  {
    AllTagsAreTheTags(t, length, charset);
  }

  /** With room for a quote besides the characters of the placeholder, a tag can hold it without being it. */
  predicate FitsInTag(placeholder: string, length: nat, charset: string) {
    '"' in charset && |placeholder| < length && forall c | c in placeholder :: c in charset
  }

  /** A tag other than the placeholder holds it only if the placeholder fits. */
  lemma HeldMeansFits(t: string, placeholder: string, length: nat, charset: string)
    requires IsTag(t, length, charset) && '"' !in placeholder && Holds(t, placeholder) && t != placeholder
    ensures FitsInTag(placeholder, length, charset)
  {
    var i := Find(Quoted(t), Quoted(placeholder)).value;
    QuotedShape(Quoted(t), placeholder, i);
    assert forall j | 0 <= j < |placeholder| :: placeholder[j] == Quoted(t)[i + 1 + j] == t[i + j];
    if |placeholder| < length {
      var q := if i > 0 then i else |placeholder| + 1;
      assert Quoted(t)[q] == '"' == t[q - 1];
    }
  }

  /** Some tag holds the placeholder exactly when the placeholder is a tag or fits in one. */
  lemma HoldingIsEmptyIff(placeholder: string, length: nat, charset: string)
    requires '"' !in placeholder
    ensures Holding(placeholder, length, charset) == {} <==>
            !IsTag(placeholder, length, charset) && !FitsInTag(placeholder, length, charset)
  {
    if IsTag(placeholder, length, charset) {
      HoldsItself(placeholder, placeholder);
      HoldingAre(placeholder, placeholder, length, charset);
    } else if FitsInTag(placeholder, length, charset) {
      var t := placeholder + Filled('"', length - |placeholder|);
      assert OccursAt(Quoted(t), Quoted(placeholder), 0);
      HoldingAre(t, placeholder, length, charset);
    } else if t :| t in Holding(placeholder, length, charset) {
      HoldingAre(t, placeholder, length, charset);
      HeldMeansFits(t, placeholder, length, charset);
    }
  }

  /** Without quotes in the character set, only the placeholder itself can hold it. */
  lemma HoldingWithoutQuotes(placeholder: string, length: nat, charset: string)
    requires '"' !in placeholder && '"' !in charset
    ensures Holding(placeholder, length, charset) == if IsTag(placeholder, length, charset) then {placeholder} else {}
  {
    forall t
      ensures t in Holding(placeholder, length, charset) <==> t == placeholder && IsTag(t, length, charset)
    {
      HoldingAre(t, placeholder, length, charset);
      HoldsItself(placeholder, placeholder);
      if t in Holding(placeholder, length, charset) && t != placeholder {
        HeldMeansFits(t, placeholder, length, charset);
      }
    }
  }

  /** Every run that gets its tags writes the file. */
  ghost predicate EveryRunWrites(content: string, placeholder: string, length: nat, charset: string) {
    forall rng: Choices | TagsGenerated(content, placeholder, length, charset, rng) ::
      Run(content, placeholder, length, charset, rng).Written?
  }

  ghost predicate SomeRunWrites(content: string, placeholder: string, length: nat, charset: string) {
    exists rng: Choices :: Run(content, placeholder, length, charset, rng).Written?
  }

  /** A file past the duplicate check, with placeholder lines. */
  predicate Ready(content: string, placeholder: string, length: nat, charset: string) {
    && charset != "" && '"' !in placeholder
    && NoRepeats(ExtractTags(content, length, charset))
    && LineCount(Split(content, NEWLINE), Quoted(placeholder)) > 0
  }

  /** Drawing given fresh tags: the run writes iff the lines have single starts and none of the tags
      holds the placeholder. */
  lemma RunWithTags(content: string, placeholder: string, tags: seq<string>, length: nat, charset: string) returns (rng: Choices)
    requires Ready(content, placeholder, length, charset)
    requires |tags| == LineCount(Split(content, NEWLINE), Quoted(placeholder))
    requires FreshTags(Elements(ExtractTags(content, length, charset)), tags, length, charset)
    ensures TagsGenerated(content, placeholder, length, charset, rng)
    ensures Run(content, placeholder, length, charset, rng).Written?
       <==> SingleStarts(content, placeholder) && forall t | t in tags :: !Holds(t, placeholder)
  {
    rng := FreshTagsCanBeDrawn(Elements(ExtractTags(content, length, charset)), tags, length, charset);
    WrittenIffSingleStarts(content, placeholder, length, charset, rng);
  }

  /** Some draws lead to a written file exactly when no line has two starts and the character set can
      supply a tag for every placeholder line besides those in use and those that hold the placeholder. */
  lemma SomeRunWritesIff(content: string, placeholder: string, length: nat, charset: string)
    requires Ready(content, placeholder, length, charset)
    ensures SomeRunWrites(content, placeholder, length, charset)
       <==> SingleStarts(content, placeholder) &&
            LineCount(Split(content, NEWLINE), Quoted(placeholder))
            + |Elements(ExtractTags(content, length, charset)) + Holding(placeholder, length, charset)|
            <= Power(|Letters(charset)|, length)
  {
    var existing := ExtractTags(content, length, charset);
    var n := LineCount(Split(content, NEWLINE), Quoted(placeholder));
    var avoid := Elements(existing) + Holding(placeholder, length, charset);
    forall t
      ensures t in Holding(placeholder, length, charset) <==> IsTag(t, length, charset) && Holds(t, placeholder)
    {
      HoldingAre(t, placeholder, length, charset);
    }
    if SingleStarts(content, placeholder) && n + |avoid| <= Power(|Letters(charset)|, length) {
      var tags := UnusedTags(avoid, n, length, charset);
      var rng := RunWithTags(content, placeholder, tags, length, charset);
    }
    if rng :| Run(content, placeholder, length, charset, rng).Written? {
      WrittenIffSingleStarts(content, placeholder, length, charset, rng);
      var tags := NewTags(content, placeholder, length, charset, rng);
      assert forall i | 0 <= i < |tags| :: tags[i] in tags;
      FreshTagsFitCapacity(avoid, tags, length, charset);
    }
  }

  /** Within the capacity, any unused tag can be among those drawn. */
  lemma TagsWith(tag: string, existing: seq<string>, n: nat, length: nat, charset: string) returns (tags: seq<string>)
    requires IsTag(tag, length, charset) && tag !in existing && NoRepeats(existing)
    requires forall t | t in existing :: IsTag(t, length, charset)
    requires n > 0 && n + |existing| <= Power(|Letters(charset)|, length)
    ensures |tags| == n && FreshTags(Elements(existing), tags, length, charset) && tag in tags
  {
    var used := Elements(existing);
    ElementsSize(existing);
    assert |used + {tag}| == |used| + 1;
    var others := UnusedTags(used + {tag}, n - 1, length, charset);
    assert forall i | 0 <= i < |others| :: others[i] !in used && others[i] != tag;
    OneMoreTag(used, others, tag, length, charset);
    tags := others + [tag];
    assert tags[n - 1] == tag;
  }

  /** When the demand is within the capacity, every run that gets its tags writes the file exactly when no
      line has two starts and every tag that holds the placeholder is in use. */
  lemma EveryRunWritesIff(content: string, placeholder: string, length: nat, charset: string)
    requires Ready(content, placeholder, length, charset)
    requires LineCount(Split(content, NEWLINE), Quoted(placeholder)) + |ExtractTags(content, length, charset)|
             <= Power(|Letters(charset)|, length)
    ensures EveryRunWrites(content, placeholder, length, charset)
       <==> SingleStarts(content, placeholder) &&
            Holding(placeholder, length, charset) <= Elements(ExtractTags(content, length, charset))
  {
    var existing := ExtractTags(content, length, charset);
    var n := LineCount(Split(content, NEWLINE), Quoted(placeholder));
    ElementsSize(existing);
    if t :| t in Holding(placeholder, length, charset) && t !in existing {
      HoldingAre(t, placeholder, length, charset);
      var tags := TagsWith(t, existing, n, length, charset);
      var rng := RunWithTags(content, placeholder, tags, length, charset);
    } else if SingleStarts(content, placeholder) {
      forall rng | TagsGenerated(content, placeholder, length, charset, rng)
        ensures Run(content, placeholder, length, charset, rng).Written?
      {
        WrittenIffSingleStarts(content, placeholder, length, charset, rng);
        forall t | t in NewTags(content, placeholder, length, charset, rng)
          ensures !Holds(t, placeholder)
        {
          HoldingAre(t, placeholder, length, charset);
        }
      }
    } else {
      var tags := UnusedTags(Elements(existing), n, length, charset);
      var rng := RunWithTags(content, placeholder, tags, length, charset);
    }
  }
}
