/** The Python string operations the scripts rely on: `in`, `replace(.., 1)`,
    `count`, `split` and `join`, with the laws that connect them. */
module Text {
  import opened Wrappers

  /** `n * c` */
  function Filled(c: char, n: nat): (s: string)
    ensures |s| == n && forall j | 0 <= j < n :: s[j] == c
  {
    seq(n, j => c)
  }

  /** `pat` starts at index `i` of `s`. */
  predicate OccursAt(s: string, pat: string, i: nat) {
    i + |pat| <= |s| && s[i..i + |pat|] == pat
  }

  function FindFrom(s: string, pat: string, i: nat): (r: Option<nat>)
    requires i <= |s|
    ensures r.Some? ==> i <= r.value && OccursAt(s, pat, r.value)
    ensures forall j: nat | i <= j && (r.Some? ==> j < r.value) :: !OccursAt(s, pat, j)
    decreases |s| - i
  {
    if OccursAt(s, pat, i) then Some(i)
    else if i == |s| then None
    else FindFrom(s, pat, i + 1)
  }

  /** The leftmost start of `pat` in `s`, if there is one. */
  function Find(s: string, pat: string): (r: Option<nat>)
    ensures r.Some? ==> OccursAt(s, pat, r.value)
    ensures forall j: nat | r.Some? ==> j < r.value :: !OccursAt(s, pat, j)
  {
    FindFrom(s, pat, 0)
  }

  /** Equal slices have equal parts. */
  lemma SubSlice(s: string, i: nat, t: string, j: nat, n: nat, a: nat, b: nat)
    requires i + n <= |s| && j + n <= |t| && s[i..i + n] == t[j..j + n]
    requires a <= b <= n
    ensures s[i + a..i + b] == t[j + a..j + b]
  {
    var u, v := s[i + a..i + b], t[j + a..j + b];
    forall k | 0 <= k < b - a
      ensures u[k] == v[k]
    {
      assert s[i..i + n][a + k] == s[i + a + k];
      assert t[j..j + n][a + k] == t[j + a + k];
    }
  }

  lemma FindIs(s: string, pat: string, p: nat)
    requires OccursAt(s, pat, p) && forall j: nat | j < p :: !OccursAt(s, pat, j)
    ensures Find(s, pat) == Some(p)
  {
  }

  /** `pat in s` */
  predicate Contains(s: string, pat: string) {
    Find(s, pat).Some?
  }

  /** `s[..p] + new + s[p + |old|..]`: one occurrence rewritten. */
  function ReplaceAt(s: string, pat: string, sub: string, p: nat): string
    requires OccursAt(s, pat, p)
  {
    s[..p] + sub + s[p + |pat|..]
  }

  /** `s.replace(old, new, 1)` */
  function ReplaceFirst(s: string, pat: string, sub: string): string {
    match Find(s, pat)
    case None => s
    case Some(p) => ReplaceAt(s, pat, sub, p)
  }

  /** `s.count(pat)`: non-overlapping occurrences, scanning from the left. */
  function Count(s: string, pat: string): (n: nat)
    requires pat != ""
    ensures n == 0 <==> !Contains(s, pat)
    decreases |s|
  {
    match Find(s, pat)
    case None => 0
    case Some(p) => 1 + Count(s[p + |pat|..], pat)
  }

  /** Starts of the pattern, from left to right and without overlap. */
  predicate Disjoint(s: string, pat: string, starts: seq<nat>) {
    && (forall i | 0 <= i < |starts| :: OccursAt(s, pat, starts[i]))
    && (forall i, j | 0 <= i < j < |starts| :: starts[i] + |pat| <= starts[j])
  }

  /** What is found in the rest of a text is found in the text. */
  lemma OccursInRest(s: string, pat: string, p: nat, i: nat)
    requires p <= |s|
    ensures OccursAt(s[p..], pat, i) <==> OccursAt(s, pat, p + i)
  {
    if p + i + |pat| <= |s| {
      assert s[p..][i..i + |pat|] == s[p + i..p + i + |pat|];
    }
  }

  /** The starts after the first one, counted from `q`. */
  function LaterStarts(starts: seq<nat>, q: nat): (later: seq<nat>)
    requires starts != [] && forall i | 0 < i < |starts| :: q <= starts[i]
    ensures |later| == |starts| - 1
    ensures forall i | 0 <= i < |later| :: later[i] == starts[i + 1] - q
  {
    seq(|starts| - 1, i requires 0 <= i < |starts| - 1 => starts[i + 1] - q)
  }

  lemma LaterStartsAreDisjoint(s: string, pat: string, starts: seq<nat>, q: nat)
    requires Disjoint(s, pat, starts) && starts != [] && q <= |s| && q <= starts[0] + |pat|
    ensures forall i | 0 < i < |starts| :: q <= starts[i]
    ensures Disjoint(s[q..], pat, LaterStarts(starts, q))
  {
    var later := LaterStarts(starts, q);
    forall i | 0 <= i < |later|
      ensures OccursAt(s[q..], pat, later[i])
    {
      OccursInRest(s, pat, q, later[i]);
    }
  }

  /** No choice of disjoint occurrences has more than the leftmost scan counts. */
  lemma {:induction false} CountIsMaximal(s: string, pat: string, starts: seq<nat>)
    requires pat != "" && Disjoint(s, pat, starts)
    ensures |starts| <= Count(s, pat)
    decreases |s|
  {
    if starts != [] {
      assert OccursAt(s, pat, starts[0]);
      var p := Find(s, pat).value;
      var q := p + |pat|;
      assert Count(s, pat) == 1 + Count(s[q..], pat);
      LaterStartsAreDisjoint(s, pat, starts, q);
      CountIsMaximal(s[q..], pat, LaterStarts(starts, q));
    }
  }

  /** One start in front of those found behind it. */
  function StartInFront(p: nat, rest: seq<nat>, q: nat): (starts: seq<nat>)
    ensures |starts| == |rest| + 1 && starts[0] == p
    ensures forall i | 1 <= i < |starts| :: starts[i] == q + rest[i - 1]
  {
    [p] + seq(|rest|, i requires 0 <= i < |rest| => q + rest[i])
  }

  lemma StartInFrontIsDisjoint(s: string, pat: string, p: nat, rest: seq<nat>)
    requires OccursAt(s, pat, p) && Disjoint(s[p + |pat|..], pat, rest)
    ensures Disjoint(s, pat, StartInFront(p, rest, p + |pat|))
  {
    var q := p + |pat|;
    var starts := StartInFront(p, rest, q);
    forall i | 1 <= i < |starts|
      ensures OccursAt(s, pat, starts[i])
    {
      OccursInRest(s, pat, q, rest[i - 1]);
    }
  }

  /** And the scan counts disjoint occurrences. */
  lemma {:induction false} CountIsAttained(s: string, pat: string) returns (starts: seq<nat>)
    requires pat != ""
    ensures Disjoint(s, pat, starts) && |starts| == Count(s, pat)
    decreases |s|
  {
    if Find(s, pat).None? {
      starts := [];
    } else {
      var p := Find(s, pat).value;
      var rest := CountIsAttained(s[p + |pat|..], pat);
      StartInFrontIsDisjoint(s, pat, p, rest);
      starts := StartInFront(p, rest, p + |pat|);
    }
  }

  /** `s.split(sep)` */
  function Split(s: string, sep: string): (parts: seq<string>)
    requires sep != ""
    ensures parts != []
    decreases |s|
  {
    match Find(s, sep)
    case None => [s]
    case Some(p) => [s[..p]] + Split(s[p + |sep|..], sep)
  }

  /** `sep.join(parts)` */
  function Join(parts: seq<string>, sep: string): string {
    if parts == [] then ""
    else if |parts| == 1 then parts[0]
    else parts[0] + sep + Join(parts[1..], sep)
  }

  /** Joining undoes splitting, for every separator. */
  lemma {:induction false} JoinOfSplit(s: string, sep: string)
    requires sep != ""
    ensures Join(Split(s, sep), sep) == s
    decreases |s|
  {
    match Find(s, sep)
    case None =>
    case Some(p) =>
      JoinOfSplit(s[p + |sep|..], sep);
      var rest := Split(s[p + |sep|..], sep);
      assert Split(s, sep) == [s[..p]] + rest;
      assert s == s[..p] + sep + s[p + |sep|..];
  }

  /** The positions of a scan, in order. */
  predicate Increasing(positions: seq<nat>) {
    forall i, j | 0 <= i < j < |positions| :: positions[i] < positions[j]
  }

  const NEWLINE: string := "\n"

  /** No line of a text holds a line break. */
  predicate LineFree(lines: seq<string>) {
    forall k | 0 <= k < |lines| :: '\n' !in lines[k]
  }

  lemma {:induction false} SplitIsLineFree(s: string)
    ensures LineFree(Split(s, NEWLINE))
    decreases |s|
  {
    FindNewline(s);
    match Find(s, NEWLINE)
    case None =>
    case Some(p) => SplitIsLineFree(s[p + 1..]);
  }

  /** Searching for a line break is searching for its character. */
  lemma FindNewline(s: string)
    ensures match Find(s, NEWLINE)
            case None => '\n' !in s
            case Some(p) => p < |s| && s[p] == '\n' && '\n' !in s[..p]
  {
    forall i: nat | i < |s|
      ensures OccursAt(s, NEWLINE, i) <==> s[i] == '\n'
    {
      assert s[i..i + 1] == [s[i]];
    }
  }

  /** Splitting undoes joining, for lines without line breaks. */
  lemma {:induction false} SplitOfJoin(lines: seq<string>)
    requires lines != [] && LineFree(lines)
    ensures Split(Join(lines, NEWLINE), NEWLINE) == lines
    decreases |lines|
  {
    var s := Join(lines, NEWLINE);
    FindNewline(s);
    if |lines| > 1 {
      var p := |lines[0]|;
      assert s[p] == '\n';
      assert s[..p] == lines[0];
      assert Find(s, NEWLINE) == Some(p);
      assert s[p + 1..] == Join(lines[1..], NEWLINE);
      SplitOfJoin(lines[1..]);
    }
  }

  /** No occurrence of a pattern without line breaks straddles one. */
  lemma OccursInParts(a: string, b: string, pat: string, i: nat)
    requires pat != "" && '\n' !in pat
    ensures OccursAt(a + NEWLINE + b, pat, i) <==>
            OccursAt(a, pat, i) || (i > |a| && OccursAt(b, pat, i - |a| - 1))
  {
    var s := a + NEWLINE + b;
    if i + |pat| <= |a| {
      assert s[i..i + |pat|] == a[i..i + |pat|];
    } else if i <= |a| {
      if i + |pat| <= |s| {
        assert s[i..i + |pat|][|a| - i] == s[|a|] == '\n';
      }
    } else if i + |pat| <= |s| {
      assert s[i..i + |pat|] == b[i - |a| - 1..i - |a| - 1 + |pat|];
    }
  }

  /** A pattern without line breaks is found in the first line, or else in the rest. */
  lemma FindInParts(a: string, b: string, pat: string)
    requires pat != "" && '\n' !in pat
    ensures Find(a + NEWLINE + b, pat) ==
            if Contains(a, pat) then Find(a, pat)
            else if Contains(b, pat) then Some(|a| + 1 + Find(b, pat).value)
            else None
  {
    forall i: nat
      ensures OccursAt(a + NEWLINE + b, pat, i) <==>
              OccursAt(a, pat, i) || (i > |a| && OccursAt(b, pat, i - |a| - 1))
    {
      OccursInParts(a, b, pat, i);
    }
    if !Contains(a, pat) && Contains(b, pat) {
      var q := Find(b, pat).value;
      assert (q + |a| + 1) - |a| - 1 == q;
      assert OccursAt(a + NEWLINE + b, pat, q + |a| + 1);
      forall j: nat | j < q + |a| + 1
        ensures !OccursAt(a + NEWLINE + b, pat, j)
      {
      }
    }
  }

  /** A joined text contains a pattern iff one of its lines does. */
  lemma {:induction false} ContainsOfJoin(lines: seq<string>, pat: string)
    requires pat != "" && '\n' !in pat
    ensures Contains(Join(lines, NEWLINE), pat) <==> exists k :: 0 <= k < |lines| && Contains(lines[k], pat)
    decreases |lines|
  {
    if |lines| > 1 {
      ContainsOfJoin(lines[1..], pat);
      FindInParts(lines[0], Join(lines[1..], NEWLINE), pat);
      if k: nat :| k < |lines| && Contains(lines[k], pat) {
        if k > 0 {
          assert lines[k] == lines[1..][k - 1];
        }
      }
    } else if |lines| == 1 {
      assert Join(lines, NEWLINE) == lines[0];
    }
  }
}
