/** How many tags a character set can supply, and that the generator meets that bound exactly. */
module Capacity {
  import opened Wrappers
  import opened Tags

  function Power(base: nat, exponent: nat): nat {
    if exponent == 0 then 1 else base * Power(base, exponent - 1)
  }

  /** The different characters of a character set. */
  function Letters(charset: string): set<char> {
    set c | c in charset
  }

  /** All strings of one letter followed by one of `tails`. */
  function Product(letters: set<char>, tails: set<string>): set<string> {
    set c, t | c in letters && t in tails :: [c] + t
  }

  /** All strings the generator can draw. */
  function AllTags(length: nat, charset: string): set<string> {
    if length == 0 then {""} else Product(Letters(charset), AllTags(length - 1, charset))
  }

  lemma {:induction false} AllTagsAreTheTags(t: string, length: nat, charset: string)
    ensures t in AllTags(length, charset) <==> IsTag(t, length, charset)
  {
    if length > 0 {
      if IsTag(t, length, charset) {
        assert t == [t[0]] + t[1..];
        AllTagsAreTheTags(t[1..], length - 1, charset);
        assert t[0] in Letters(charset);
      }
      if t in AllTags(length, charset) {
        var c, tail :| c in Letters(charset) && tail in AllTags(length - 1, charset) && t == [c] + tail;
        AllTagsAreTheTags(tail, length - 1, charset);
      }
    }
  }

  function Prefixed(c: char, tails: set<string>): set<string> {
    set t | t in tails :: [c] + t
  }

  lemma {:induction false} PrefixedSize(c: char, tails: set<string>)
    ensures |Prefixed(c, tails)| == |tails|
    decreases tails
  {
    if tails != {} {
      var t :| t in tails;
      var fewer := Prefixed(c, tails - {t});
      PrefixedSize(c, tails - {t});
      forall u | u in tails - {t}
        ensures [c] + u != [c] + t
      {
        assert ([c] + u)[1..] == u && ([c] + t)[1..] == t;
      }
      assert Prefixed(c, tails) == fewer + {[c] + t};
    }
  }

  /** Splitting off one letter splits the product in two disjoint parts. */
  lemma ProductSplit(letters: set<char>, c: char, tails: set<string>)
    requires c in letters
    ensures Product(letters, tails) == Prefixed(c, tails) + Product(letters - {c}, tails)
    ensures Prefixed(c, tails) !! Product(letters - {c}, tails)
  {
    forall s | s in Prefixed(c, tails)
      ensures s in Product(letters, tails) && s[0] == c
    {
    }
    forall s | s in Product(letters, tails)
      ensures s in Prefixed(c, tails) || s in Product(letters - {c}, tails)
    {
    }
    forall s | s in Product(letters - {c}, tails)
      ensures s in Product(letters, tails) && s[0] != c
    {
    }
  }

  lemma {:induction false} ProductSize(letters: set<char>, tails: set<string>)
    ensures |Product(letters, tails)| == |letters| * |tails|
    decreases letters
  {
    if letters != {} {
      var c :| c in letters;
      ProductStep(letters, c, tails);
      ProductSize(letters - {c}, tails);
      Distribute(|letters - {c}|, |tails|);
    }
  }

  lemma ProductStep(letters: set<char>, c: char, tails: set<string>)
    requires c in letters
    ensures |Product(letters, tails)| == |tails| + |Product(letters - {c}, tails)|
    ensures |letters| == |letters - {c}| + 1
  {
    PrefixedSize(c, tails);
    ProductSplit(letters, c, tails);
  }

  lemma Distribute(a: nat, b: nat)
    ensures (a + 1) * b == b + a * b
  {
  }

  lemma {:induction false} AllTagsSize(length: nat, charset: string)
    ensures |AllTags(length, charset)| == Power(|Letters(charset)|, length)
  {
    if length > 0 {
      AllTagsSize(length - 1, charset);
      ProductSize(Letters(charset), AllTags(length - 1, charset));
    }
  }

  lemma {:induction false} ElementsSize(tags: seq<string>)
    requires NoRepeats(tags)
    ensures |Elements(tags)| == |tags|
  {
    if tags != [] {
      var n := |tags| - 1;
      ElementsSize(tags[..n]);
      assert Elements(tags) == Elements(tags[..n]) + {tags[n]};
      assert tags[n] !in Elements(tags[..n]);
    }
  }

  lemma {:induction false} SubsetSize(small: set<string>, large: set<string>)
    requires small <= large
    ensures |small| <= |large|
  {
    if small != {} {
      var x :| x in small;
      SubsetSize(small - {x}, large - {x});
    }
  }

  function IndexIn(charset: string, c: char): (i: nat)
    requires c in charset
    ensures i < |charset| && charset[i] == c
  {
    if charset[0] == c then 0 else 1 + IndexIn(charset[1..], c)
  }

  lemma {:induction false} PickDistinct(from: set<string>, n: nat) returns (picked: seq<string>)
    requires n <= |from|
    ensures |picked| == n && NoRepeats(picked) && forall t | t in picked :: t in from
  {
    if n == 0 {
      picked := [];
    } else {
      var t :| t in from;
      var rest := PickDistinct(from - {t}, n - 1);
      picked := rest + [t];
    }
  }

  /** The choices that draw the given tags one after the other. */
  function ChoicesFor(tags: seq<string>, charset: string): Choices {
    (k: nat, j: nat) => if k < |tags| && j < |tags[k]| && tags[k][j] in charset then IndexIn(charset, tags[k][j]) else 0
  }

  lemma {:induction false} ChoicesForDraw(tags: seq<string>, k: nat, length: nat, charset: string)
    requires charset != "" && k < |tags| && length <= |tags[k]|
    requires forall j | 0 <= j < |tags[k]| :: tags[k][j] in charset
    ensures Draw(ChoicesFor(tags, charset), k, length, charset) == tags[k][..length]
  {
    if length > 0 {
      ChoicesForDraw(tags, k, length - 1, charset);
      assert ChoicesFor(tags, charset)(k, length - 1) == IndexIn(charset, tags[k][length - 1]);
      assert tags[k][..length] == tags[k][..length - 1] + [tags[k][length - 1]];
    }
  }

  /** When the next draw is not in use, `generate_tag` takes it. */
  lemma FreshDrawIsTaken(used: set<string>, n: nat, before: Series, length: nat, charset: string, rng: Choices)
    requires charset != "" && GenerateTags(used, n, length, charset, rng) == Some(before)
    requires Draw(rng, before.next, length, charset) !in used + Elements(before.tags)
    ensures GenerateTags(used, n + 1, length, charset, rng)
         == Some(Series(before.tags + [Draw(rng, before.next, length, charset)], before.next + 1))
  {
    OneMoreCall(used, n, before, Some(Draw(rng, before.next, length, charset)), before.next + 1, length, charset, rng);
  }

  /** A run that draws different unused tags takes every one of them. */
  lemma {:induction false} FreshDrawsAreTaken(used: set<string>, tags: seq<string>, n: nat,
                                              length: nat, charset: string, rng: Choices)
    requires charset != "" && n <= |tags| && NoRepeats(tags)
    requires forall k: nat | k < |tags| :: Draw(rng, k, length, charset) == tags[k] && tags[k] !in used
    ensures GenerateTags(used, n, length, charset, rng) == Some(Series(tags[..n], n))
  {
    if n > 0 {
      FreshDrawsAreTaken(used, tags, n - 1, length, charset, rng);
      NewTagIsNotAmong(tags, n - 1);
      assert Draw(rng, n - 1, length, charset) == tags[n - 1];
      FreshDrawIsTaken(used, n - 1, Series(tags[..n - 1], n - 1), length, charset, rng);
      TakeOneMore(tags, n - 1);
    }
  }

  lemma TakeOneMore(tags: seq<string>, n: nat)
    requires n < |tags|
    ensures tags[..n + 1] == tags[..n] + [tags[n]]
  {
  }

  lemma NewTagIsNotAmong(tags: seq<string>, n: nat)
    requires n < |tags| && NoRepeats(tags)
    ensures tags[n] !in Elements(tags[..n])
  {
  }

  /** Any series of different unused tags is drawn by some run of the generator. */
  lemma FreshTagsCanBeDrawn(used: set<string>, tags: seq<string>, length: nat, charset: string) returns (rng: Choices)
    requires charset != "" && FreshTags(used, tags, length, charset)
    ensures GenerateTags(used, |tags|, length, charset, rng) == Some(Series(tags, |tags|))
  {
    rng := ChoicesFor(tags, charset);
    forall k: nat | k < |tags|
      ensures Draw(rng, k, length, charset) == tags[k] && tags[k] !in used
    {
      ChoicesForDraw(tags, k, length, charset);
      assert tags[k][..length] == tags[k];
    }
    FreshDrawsAreTaken(used, tags, |tags|, length, charset, rng);
    assert tags[..|tags|] == tags;
  }

  /** While the capacity is not used up there are unused tags. */
  lemma UnusedTags(used: set<string>, n: nat, length: nat, charset: string) returns (tags: seq<string>)
    requires forall t | t in used :: IsTag(t, length, charset)
    requires n + |used| <= Power(|Letters(charset)|, length)
    ensures |tags| == n && FreshTags(used, tags, length, charset)
  {
    forall t: string
      ensures t in AllTags(length, charset) <==> IsTag(t, length, charset)
    {
      AllTagsAreTheTags(t, length, charset);
    }
    AllTagsSize(length, charset);
    var free := AllTags(length, charset) - used;
    assert AllTags(length, charset) == used + free;
    assert |used + free| == |used| + |free|;
    tags := PickDistinct(free, n);
    assert forall i | 0 <= i < |tags| :: tags[i] in tags;
  }

  /** A demand within the capacity can be met: some run of the generator succeeds. */
  lemma DemandWithinCapacityCanBeMet(used: set<string>, n: nat, length: nat, charset: string) returns (rng: Choices)
    requires charset != ""
    requires forall t | t in used :: IsTag(t, length, charset)
    requires n + |used| <= Power(|Letters(charset)|, length)
    ensures GenerateTags(used, n, length, charset, rng).Some?
  {
    var tags := UnusedTags(used, n, length, charset);
    rng := FreshTagsCanBeDrawn(used, tags, length, charset);
  }

  /** Different unused tags and the tags in use together fit the capacity. */
  lemma FreshTagsFitCapacity(used: set<string>, tags: seq<string>, length: nat, charset: string)
    requires forall t | t in used :: IsTag(t, length, charset)
    requires FreshTags(used, tags, length, charset)
    ensures |tags| + |used| <= Power(|Letters(charset)|, length)
  {
    ElementsSize(tags);
    assert used !! Elements(tags);
    forall t | t in used + Elements(tags)
      ensures t in AllTags(length, charset)
    {
      AllTagsAreTheTags(t, length, charset);
    }
    SubsetSize(used + Elements(tags), AllTags(length, charset));
    AllTagsSize(length, charset);
  }

  /** Tags in use and tags generated are different drawable strings, so together they fit the capacity. */
  lemma GeneratedTagsFitCapacity(used: set<string>, n: nat, length: nat, charset: string, rng: Choices)
    requires charset != ""
    requires forall t | t in used :: IsTag(t, length, charset)
    requires GenerateTags(used, n, length, charset, rng).Some?
    ensures n + |used| <= Power(|Letters(charset)|, length)
  {
    GeneratedTagsAreFresh(used, n, length, charset, rng);
    FreshTagsFitCapacity(used, GenerateTags(used, n, length, charset, rng).value.tags, length, charset);
  }
}
