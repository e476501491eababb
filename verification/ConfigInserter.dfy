/** `scripts/update_xcode_config_cpp_checks.py`: inserting the warning flags before the marker line. */
module ConfigInserter {
  import opened Text

  const CONFIGURATIONS: seq<string> := [
    "Wall", "Werror", "Wextra", "Wassign-enum", "Wblock-capture-autoreleasing", "Wbool-conversion", "Wcomma",
    "Wconditional-uninitialized", "Wconstant-conversion", "Wdeprecated-declarations",
    "Wdeprecated-implementations", "Wdeprecated-objc-isa-usage", "Wduplicate-method-match", "Wdocumentation",
    "Wempty-body", "Wenum-conversion", "Wfatal-errors", "Wfloat-conversion", "Wheader-hygiene",
    "Wincompatible-pointer-types", "Wint-conversion", "Winvalid-offsetof", "Wnewline-eof", "Wno-unknown-pragmas",
    "Wnon-literal-null-conversion", "Wnon-modular-include-in-framework-module", "Wnon-virtual-dtor",
    "Wobjc-literal-conversion", "Wobjc-root-class", "Wprotocol", "Wshorten-64-to-32", "Wstrict-prototypes",
    "Wundeclared-selector", "Wunreachable-code", "Wunused-parameter"
  ]

  const MARKER: string := "OTHER_CFLAGS=$(inherited) -fstack-protector-strong"

  const PREFIX: string := "OTHER_CFLAGS=$(OTHER_CFLAGS) -"

  /** The inserted lines, one per configuration. */
  function FlagLines(configurations: seq<string>): (lines: seq<string>)
    ensures |lines| == |configurations|
  {
    if configurations == [] then []
    else FlagLines(configurations[..|configurations| - 1]) + [PREFIX + configurations[|configurations| - 1]]
  }

  /** One line per configuration, in order. */
  lemma {:induction false} FlagLineAt(configurations: seq<string>, k: nat)
    requires k < |configurations|
    ensures FlagLines(configurations)[k] == "OTHER_CFLAGS=$(OTHER_CFLAGS) -" + configurations[k]
  {
    var n := |configurations| - 1;
    if k < n {
      FlagLineAt(configurations[..n], k);
    }
  }

  /** The contents after one run, seen as lines. */
  function InsertFlags(lines: seq<string>, configurations: seq<string>): seq<string> {
    if lines == [] then []
    else if lines[0] == MARKER then FlagLines(configurations) + lines
    else [lines[0]] + InsertFlags(lines[1..], configurations)
  }

  /** The text after one run. */
  function Update(text: string, configurations: seq<string>): string {
    Join(InsertFlags(Split(text, NEWLINE), configurations), NEWLINE)
  }

  method NewLines(configurations: seq<string>) returns (newLines: seq<string>)
    ensures newLines == FlagLines(configurations)
    ensures |newLines| == |configurations|
    ensures forall k | 0 <= k < |configurations| :: newLines[k] == PREFIX + configurations[k]
  {
    newLines := [];
    for k := 0 to |configurations|
      invariant newLines == FlagLines(configurations[..k])
      invariant |newLines| == k && forall j | 0 <= j < k :: newLines[j] == PREFIX + configurations[j]
    {
      assert configurations[..k + 1][..k] == configurations[..k];
      newLines := newLines + [PREFIX + configurations[k]];
    }
    assert configurations[..|configurations|] == configurations;
  }

  /** The script: the first marker line, if any, ends the loop. */
  method UpdateFile(text: string, configurations: seq<string>) returns (text': string)
    ensures text' == Update(text, configurations)
  {
    var contents := Split(text, NEWLINE);
    ghost var lines := contents;
    for i := 0 to |contents|
      invariant contents == lines
      invariant InsertFlags(lines, configurations) == lines[..i] + InsertFlags(lines[i..], configurations)
    {
      if contents[i] == MARKER {
        var newLines := NewLines(configurations);
        contents := contents[..i] + newLines + contents[i..];
        assert contents == lines[..i] + (newLines + lines[i..]);
        assert contents == InsertFlags(lines, configurations);
        break;
      }
    }
    assert contents == InsertFlags(lines, configurations) by {
      assert lines[..|lines|] == lines && lines[|lines|..] == [];
    }
    text' := Join(contents, NEWLINE);
  }

  // ---------- repeated runs

  /** The text after `n` runs. */
  function UpdateTimes(text: string, configurations: seq<string>, n: nat): string {
    if n == 0 then text else Update(UpdateTimes(text, configurations, n - 1), configurations)
  }

  /** `n` copies of a block of lines. */
  function Repeat(block: seq<string>, n: nat): seq<string> {
    if n == 0 then [] else Repeat(block, n - 1) + block
  }

  /** The first marker line is line `i`. */
  predicate FirstMarker(lines: seq<string>, i: nat) {
    i < |lines| && lines[i] == MARKER && forall j | 0 <= j < i :: lines[j] != MARKER
  }

  /** One run puts the block directly before the first marker line. */
  lemma {:induction false} InsertBeforeMarker(lines: seq<string>, configurations: seq<string>, i: nat)
    requires FirstMarker(lines, i)
    ensures InsertFlags(lines, configurations) == lines[..i] + FlagLines(configurations) + lines[i..]
    decreases |lines|
  {
    if i > 0 {
      InsertBeforeMarker(lines[1..], configurations, i - 1);
      assert lines[..i] == [lines[0]] + lines[1..][..i - 1];
    }
  }

  lemma {:induction false} NoMarkerNoChange(lines: seq<string>, configurations: seq<string>)
    requires MARKER !in lines
    ensures InsertFlags(lines, configurations) == lines
    decreases |lines|
  {
    if lines != [] {
      assert lines[0] in lines;
      NoMarkerNoChange(lines[1..], configurations);
    }
  }

  /** No inserted line is a marker line, and none holds a line break. */
  lemma {:induction false} FlagLinesAreNotMarkers(configurations: seq<string>)
    ensures forall k | 0 <= k < |FlagLines(configurations)| :: FlagLines(configurations)[k] != MARKER
    ensures LineFree(configurations) ==> LineFree(FlagLines(configurations))
  {
    if configurations != [] {
      var n := |configurations| - 1;
      FlagLinesAreNotMarkers(configurations[..n]);
      var line := PREFIX + configurations[n];
      assert line[15] == PREFIX[15] == 'O' && MARKER[15] == 'i';
    }
  }

  lemma {:induction false} RepeatedFlags(configurations: seq<string>, n: nat)
    ensures |Repeat(FlagLines(configurations), n)| == n * |configurations|
    ensures forall k | 0 <= k < |Repeat(FlagLines(configurations), n)| ::
              Repeat(FlagLines(configurations), n)[k] != MARKER
    ensures LineFree(configurations) ==> LineFree(Repeat(FlagLines(configurations), n))
  {
    if n > 0 {
      RepeatedFlags(configurations, n - 1);
      FlagLinesAreNotMarkers(configurations);
    }
  }

  /** Without a marker line the file text stays as it is, character by character. */
  lemma {:induction false} WithoutMarkerNothingChanges(text: string, configurations: seq<string>, n: nat)
    requires MARKER !in Split(text, NEWLINE)
    ensures UpdateTimes(text, configurations, n) == text
  {
    if n > 0 {
      WithoutMarkerNothingChanges(text, configurations, n - 1);
      NoMarkerNoChange(Split(text, NEWLINE), configurations);
      JoinOfSplit(text, NEWLINE);
    }
  }

  /** After `n` runs the lines are the original ones with exactly `n` copies of the flag block directly
      before the first marker line. */
  lemma {:induction false} RunsAccumulate(text: string, configurations: seq<string>, n: nat, i: nat)
    requires LineFree(configurations)
    requires FirstMarker(Split(text, NEWLINE), i)
    ensures var lines := Split(text, NEWLINE);
            Split(UpdateTimes(text, configurations, n), NEWLINE)
            == lines[..i] + Repeat(FlagLines(configurations), n) + lines[i..]
  {
    var lines := Split(text, NEWLINE);
    if n == 0 {
      assert lines[..i] + [] + lines[i..] == lines;
    } else {
      RunsAccumulate(text, configurations, n - 1, i);
      SplitIsLineFree(text);
      OneMoreUpdate(lines, UpdateTimes(text, configurations, n - 1), configurations, n - 1, i);
    }
  }

  /** Line `k` of copy `m` in `n` copies of the block. */
  lemma {:induction false} RepeatAt(configurations: seq<string>, n: nat, m: nat, k: nat)
    requires m < n && k < |configurations|
    ensures |Repeat(FlagLines(configurations), n)| == n * |configurations|
    ensures m * |configurations| + k < n * |configurations|
    ensures Repeat(FlagLines(configurations), n)[m * |configurations| + k]
         == PREFIX + configurations[k]
  {
    RepeatedFlags(configurations, n);
    RepeatedFlags(configurations, n - 1);
    PlaceInCopies(|configurations|, n, m, k);
    if m < n - 1 {
      RepeatAt(configurations, n - 1, m, k);
    } else {
      FlagLineAt(configurations, k);
    }
  }

  lemma PlaceInCopies(size: nat, n: nat, m: nat, k: nat)
    requires m < n && k < size
    ensures m * size + k < n * size
    ensures m < n - 1 ==> m * size + k < (n - 1) * size
  {
    assert (m + 1) * size <= n * size;
    if m < n - 1 {
      assert (m + 1) * size <= (n - 1) * size;
    }
  }

  /** Line `k` of copy `m` in the file after `n` runs: one flag line per configuration, in order. */
  lemma FlagLineAfterRuns(text: string, configurations: seq<string>, n: nat, i: nat, m: nat, k: nat, place: nat)
    requires LineFree(configurations)
    requires FirstMarker(Split(text, NEWLINE), i)
    requires m < n && k < |configurations| && place == i + m * |configurations| + k
    ensures var lines := Split(UpdateTimes(text, configurations, n), NEWLINE);
            place < |lines| && lines[place] == PREFIX + configurations[k]
  {
    var lines, block := Split(text, NEWLINE), Repeat(FlagLines(configurations), n);
    assert Split(UpdateTimes(text, configurations, n), NEWLINE) == lines[..i] + block + lines[i..] by {
      RunsAccumulate(text, configurations, n, i);
    }
    assert place - i < |block| && block[place - i] == PREFIX + configurations[k] by {
      RepeatAt(configurations, n, m, k);
      assert place - i == m * |configurations| + k;
    }
    WithinBlock(lines, block, i, place - i);
  }

  lemma WithinBlock(lines: seq<string>, block: seq<string>, i: nat, j: nat)
    requires i < |lines| && j < |block|
    ensures (lines[..i] + block + lines[i..])[i + j] == block[j]
  {
  }

  /** All other lines are as before: those before the first marker at their place, the marker and what follows
      it behind the flag lines. */
  lemma OtherLinesAfterRuns(text: string, configurations: seq<string>, n: nat, i: nat)
    requires LineFree(configurations)
    requires FirstMarker(Split(text, NEWLINE), i)
    ensures var before, lines := Split(text, NEWLINE), Split(UpdateTimes(text, configurations, n), NEWLINE);
            var added := n * |configurations|;
            && |lines| == |before| + added
            && (forall j | 0 <= j < i :: lines[j] == before[j])
            && (forall j | i <= j < |before| :: lines[added + j] == before[j])
  {
    RunsAccumulate(text, configurations, n, i);
    RepeatedFlags(configurations, n);
    AroundBlock(Split(text, NEWLINE), Repeat(FlagLines(configurations), n), i);
  }

  lemma AroundBlock(lines: seq<string>, block: seq<string>, i: nat)
    requires i < |lines|
    ensures var all := lines[..i] + block + lines[i..];
            && |all| == |lines| + |block|
            && (forall j | 0 <= j < i :: all[j] == lines[j])
            && (forall j | i <= j < |lines| :: all[|block| + j] == lines[j])
  {
  }

  /** One more run on a text that already has `n` copies of the block. */
  lemma OneMoreUpdate(lines: seq<string>, text: string, configurations: seq<string>, n: nat, i: nat)
    requires LineFree(configurations) && LineFree(lines) && FirstMarker(lines, i)
    requires Split(text, NEWLINE) == lines[..i] + Repeat(FlagLines(configurations), n) + lines[i..]
    ensures Split(Update(text, configurations), NEWLINE)
         == lines[..i] + Repeat(FlagLines(configurations), n + 1) + lines[i..]
  {
    OneMoreRun(lines, configurations, n, i);
    RepeatedFlags(configurations, n + 1);
    SplitWithBlock(lines, Repeat(FlagLines(configurations), n + 1), i);
  }

  lemma SplitWithBlock(lines: seq<string>, block: seq<string>, i: nat)
    requires i < |lines| && LineFree(lines) && LineFree(block)
    ensures Split(Join(lines[..i] + block + lines[i..], NEWLINE), NEWLINE) == lines[..i] + block + lines[i..]
  {
    SplitOfJoin(lines[..i] + block + lines[i..]);
  }

  lemma OneMoreRun(lines: seq<string>, configurations: seq<string>, n: nat, i: nat)
    requires FirstMarker(lines, i)
    ensures InsertFlags(lines[..i] + Repeat(FlagLines(configurations), n) + lines[i..], configurations)
         == lines[..i] + Repeat(FlagLines(configurations), n + 1) + lines[i..]
  {
    var block, copies := FlagLines(configurations), Repeat(FlagLines(configurations), n);
    var before := lines[..i] + copies + lines[i..];
    var m := i + |copies|;
    RepeatedFlags(configurations, n);
    assert before[..m] == lines[..i] + copies && before[m..] == lines[i..];
    assert FirstMarker(before, m);
    InsertBeforeMarker(before, configurations, m);
    assert lines[..i] + copies + block == lines[..i] + (copies + block);
  }

  /** The configurations of the script hold no line breaks, so the law above is about them. */
  lemma ConfigurationsAreLineFree()
    ensures LineFree(CONFIGURATIONS)
  {
    FirstConfigurations();
    MiddleConfigurations();
    LastConfigurations();
  }

  lemma FirstConfigurations()
    ensures forall k | 0 <= k < 12 :: '\n' !in CONFIGURATIONS[k]
  {
  }

  lemma MiddleConfigurations()
    ensures forall k | 12 <= k < 24 :: '\n' !in CONFIGURATIONS[k]
  {
  }

  lemma LastConfigurations()
    ensures forall k | 24 <= k < 35 :: '\n' !in CONFIGURATIONS[k]
  {
  }
}
