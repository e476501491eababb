# Models of the build scripts and the key derivation

This project models five pieces of the repository and proves properties of them.

* `scripts/retag_untagged.py` replaces every quoted placeholder in a source file by a fresh, unique tag. The model
  covers the whole run: extraction of existing tags, the duplicate check, the draws of new tags with their retries, the
  scan for placeholder lines, the leftmost replacement loop, the remaining-count guard and the report. The random
  generator is an arbitrary function from (draw, position) to a number, and every law is about all such functions.
  (`Text`, `Tags`, `Capacity`, `Placeholders`, `Placement`, `Retag`, `RetagLaws`, `RetagLimits`, `LineBreaks`,
  `RetagArguments`, `KeptTags`)
* `IdentityCore/src/util/MSIDConcatKdfProvider.swift` derives keys with the Concat KDF of section 4.6.2 of RFC 7518 and
  section 5.8.1 of NIST SP 800-56A Rev. 2. SHA-256 is an arbitrary function to 32 bytes. A call throws, traps or
  returns. (`Bytes`, `ConcatKdf`, `KdfFraming`, `KdfCollisions`)
* `build.py` runs the operations of each target and exits with a status; it also parses and remembers build settings.
  What processes and files answer is an environment. (`BuildSettings`, `BuildDriver`)
* `device_guids.py` chooses the newest matching device and remembers its identifier. (`DeviceGuids`)
* `scripts/update_xcode_config_cpp_checks.py` inserts a block of flags before a marker line. (`ConfigInserter`)

Code that loops or updates fields is a method or a class, proved against a function; the laws are lemmas about those
functions.

## What the laws say

The retag script counts *lines* that hold the placeholder, but replaces *occurrences* in the whole text. `WrittenIff`
and `LoopSettlesAllIff` show that the remaining-count guard makes this sound: with one tag per line, the loop ends
without a placeholder exactly when each line is settled by its own tag, and then the report is the whole difference
(`WrittenIsFaithful`). Four properties one might expect hold only under a condition, which is proved to be exact and
can be read off the arguments and the file before anything is drawn:

* A written file keeps its number of lines, for every file, placeholder and draws, iff no tag can hold a line break
  (`LineCountIsKeptIff`).
* For a placeholder without quotes, and as long as the character set can supply the tags, every run that gets its tags
  writes the file iff no line has two starts of the quoted placeholder (`"P"P"` counts) and every tag that holds the
  quoted placeholder within its own quotes is already in use (`EveryRunWritesIff`). When some run writes it is
  `SomeRunWritesIff`. Such a tag exists iff the placeholder is itself a tag, or the character set has quotes and the
  placeholder, of characters of the set, is shorter than a tag (`HoldingIsEmptyIff`).
* A second run never changes the file, but it can stop at the duplicate check: a tag that begins with `;` closes the
  pattern of the tag to its left, and a tag that holds the text before an opening quote opens one to its right.
  `RerunIsSafeIff` proves, for every character set, that these are the only two ways, and that neither works with
  semicolons alone. The default character set is safe (`DefaultsAreSafe`).
* A run can lose an old tag in four ways: the placeholder begins with `;` and closed the tag's pattern; it ends with
  `return @` and opened it; a tag with a quote in it held the quoted placeholder; or a new tag that ends with `return @`
  opens a match that swallows the opening of an old tag that begins with `;`, whatever the placeholder is
  (`SafePlaceholderCanLoseTag`). For placeholders without quotes, `OldTagsAreKeptIff` proves exactly for which arguments
  one of these happens.

The KDF prefixes every field with its length except the shared secret. For secrets of equal length the hashed data
determines every parameter (`DataIsUniquelyDecodable`). `SecretLengthsDecide` settles all other lengths: two different
calls for the same key length, with nothing empty, return the same key for every hash function exactly when the lengths
of their secrets differ, by at most 3 * (2^32 - 2), beyond which the 32-bit lengths of the other fields cannot make up
for it.

`build.py` exits with 0 exactly when every operation of every target passes (`StatusIsZeroIffAllPass`): each target runs
its operations from the first one on, in order, and stops at the first that fails (`TargetFollowsEnvironment`). What
counts as passing is stated by process results, settings, files, report and minimum alone. The other scripts' results
are pinned in the same way: the settings dictionary by the separators on the lines (`KeyIsPresentIff`,
`LastLineGivesValue`), the chosen device by its three version numbers (`LookupIff`, `AnswersAreNewest`), and the
configuration file line by line after any number of runs (`FlagLineAfterRuns`, `OtherLinesAfterRuns`).

## Model

| member | source | states |
|---|---|---|
| Retag.ReplaceUntagged | scripts/retag_untagged.py:46-125 | the run, with its loops, has the outcome given by `Retag.Run`, about which the laws below are; duplicates are reported iff a tag is found twice, placeholders or not, and there is nothing to do iff none is and no line holds the placeholder |
| Retag.EarlyOutcomes | scripts/retag_untagged.py:60-88 | for all files and draws: a pattern error iff the character set is empty, the duplicate report iff otherwise some tag is found twice, "nothing to do" iff otherwise no line holds the quoted placeholder |
| Retag.ReportedDuplicates | scripts/retag_untagged.py:61-66 | the reported dictionary holds exactly the tags found at two places, each with its number of places |
| Retag.LateOutcomes | scripts/retag_untagged.py:94-114 | the generation error iff, without repeated tags and with placeholder lines, one of the calls meets 10000 draws in a row that are in use; placeholders remain iff the tags suffice and not every line is settled, and their reported number is the count in the text after the loop |
| Text.CountIsMaximal | scripts/retag_untagged.py:110 | no choice of disjoint occurrences of a pattern has more than `count` reports |
| Text.CountIsAttained | scripts/retag_untagged.py:110 | and there are that many |
| Retag.ScanLines | scripts/retag_untagged.py:72-83 | the recorded numbers are those of the lines that hold the quoted placeholder, counted from 1 |
| Retag.DrawTags | scripts/retag_untagged.py:94-99 | the loop is the series of `generate_tag` calls, each avoiding existing and earlier new tags, and fails as soon as one of them does |
| Retag.ReplaceAll | scripts/retag_untagged.py:101-107 | the text is the leftmost replacement by each tag in turn, and the report pairs each tag with the line number of the same rank |
| Retag.WrittenIff | scripts/retag_untagged.py:60-117 | for every placeholder, character set and draws: the file is written iff there are no duplicate tags, some placeholder line, a tag for each, and each placeholder line is settled by its own tag |
| Retag.WrittenIffSingleStarts | scripts/retag_untagged.py:60-117 | without quotes in the placeholder, for every character set: written iff there are no duplicates, some placeholder line, a tag for each, at most one start of the quoted placeholder on every line, and no drawn tag, within its quotes, holds the quoted placeholder |
| Retag.AllSettledIff | scripts/retag_untagged.py:101-113 | all lines are settled iff none has two starts, overlapping ones counted, and no quoted tag holds the quoted placeholder |
| Retag.WrittenIsFaithful | scripts/retag_untagged.py:72-123 | the written text is the old lines with the i-th tag on the i-th recorded line in place of its first quoted placeholder, exactly the placeholder lines are recorded, in order, all other lines are equal, no quoted placeholder is left |
| Retag.ReportedTagsAreNew | scripts/retag_untagged.py:94-107 | one report entry per placeholder line; the reported tags are drawable, pairwise distinct and not among the extracted tags |
| Placeholders.LoopSettlesAllIff | scripts/retag_untagged.py:101-113 | pigeonhole: with one tag per placeholder line the loop leaves none iff every line is settled by its own tag, and then its result is the reported one |
| Placeholders.AtMostOneLineEach | scripts/retag_untagged.py:104-110 | n leftmost replacements settle at most n lines |
| Placeholders.ReplaceEachOfJoin | scripts/retag_untagged.py:72-105 | replacing in the text and replacing in the first line that still has the placeholder agree |
| Placeholders.SettledIff | scripts/retag_untagged.py:101-113 | one replacement settles a line iff the line has a single start of the quoted placeholder and the quoted tag does not hold it |
| Placeholders.HoldsItself | scripts/retag_untagged.py:101-105 | a quoted tag without quotes of its own holds a quoted placeholder without quotes iff they are equal |
| LineBreaks.WrittenLineCount | scripts/retag_untagged.py:101-117 | a written file gains exactly the line breaks of its tags, so its line count is unchanged iff no tag holds one |
| RetagArguments.LineCountIsKeptIff | scripts/retag_untagged.py:101-117 | every written file keeps its line count, for all files, placeholders and draws, iff the length is 0 or the character set holds no line break |
| RetagArguments.BreakTagChangesLineCount | scripts/retag_untagged.py:18-21 | otherwise some run writes a file with another number of lines |
| RetagArguments.EveryRunWritesIff | scripts/retag_untagged.py:94-117 | placeholder without quotes, demand within the capacity: every run that gets its tags writes the file iff every line has at most one start and every tag that holds the placeholder is among the extracted ones |
| RetagArguments.SomeRunWritesIff | scripts/retag_untagged.py:94-117 | placeholder without quotes: some run writes the file iff every line has at most one start and the capacity covers the placeholder lines besides the tags that are extracted or hold the placeholder |
| RetagArguments.HoldingIsEmptyIff | scripts/retag_untagged.py:101-105 | no tag holds the placeholder iff it is not a tag and does not fit in one next to a quote |
| RetagArguments.HoldingWithoutQuotes | scripts/retag_untagged.py:101-105 | without quotes in the character set only the placeholder itself, if it is a tag, holds the placeholder |
| RetagLaws.RerunKeepsFile | scripts/retag_untagged.py:60-117 | for every character set: a second run leaves a written file alone; it finds nothing to do iff the extracted tags have no repeats, else it stops at the duplicate check |
| RetagLaws.RerunDoesNothing | scripts/retag_untagged.py:53-88 | with a safe character set, with or without quotes, the second run ends at the "nothing to do" branch, whatever it draws |
| RetagLaws.WrittenTagsAreDistinct | scripts/retag_untagged.py:26-33 | with a safe character set, with or without quotes: every tag found in the written text is an old one or a placed one, and no tag is found twice |
| RetagLimits.RerunIsSafeIff | scripts/retag_untagged.py:26-33 | for every length and character set: a second run is a no-op for every file, placeholder and draws iff no tag can begin with `;` or hold the text before an opening quote, or there are only semicolons |
| RetagLimits.OnlySemicolonsAreSafe | scripts/retag_untagged.py:26-33 | with semicolons only, where one tag exists, a second run does nothing |
| RetagLimits.DefaultsAreSafe | scripts/retag_untagged.py:141-157 | the default length, character set and placeholder meet the safety conditions |
| RetagLimits.SemicolonTagSpoilsRerun | scripts/retag_untagged.py:31-32 | for every character set: if a tag can begin with `;` and another character is there, some written file fails the duplicate check of the second run |
| RetagLimits.OpeningTagSpoilsRerun | scripts/retag_untagged.py:31-32 | for every character set: if a tag can hold the text before an opening quote, some written file fails it too |
| RetagLaws.OldTagsSurvive | scripts/retag_untagged.py:101-117 | when matches cannot overlap and the placeholder, without quotes, neither begins with `;` nor ends with `return @`, no extracted tag is lost that does not hold the quoted placeholder |
| KeptTags.OldTagsAreKeptIff | scripts/retag_untagged.py:101-117 | for every length, character set and placeholder without quotes: no run ever loses a tag other than the placeholder iff matches cannot overlap, the placeholder neither begins with `;` nor ends with `return @` nor fits in a tag of two or more characters next to a quote; or it holds a line break; or at most one tag besides it exists |
| KeptTags.OverlapLosesTag | scripts/retag_untagged.py:101-117 | when matches can overlap, some run loses a tag for every placeholder that is safe in itself |
| KeptTags.SafePlaceholderCanLoseTag | scripts/retag_untagged.py:101-117 | the default placeholder, with tags of eight characters of `return @;`, can lose a tag |
| KeptTags.QuoteTagIsNotLost | scripts/retag_untagged.py:101-117 | a file in which a quote is a tag of length 1 is never written for the empty placeholder, which would tear that tag |
| RetagLaws.DemandBeyondCapacityFails | scripts/retag_untagged.py:14-23 | placeholder lines plus extracted tags beyond (number of letters)^length end in the generation error, for all draws, without a write |
| RetagLaws.CapacityIsExact | scripts/retag_untagged.py:94-99 | some draws get past tag generation iff placeholder lines plus extracted tags are at most (number of letters)^length |
| Capacity.GeneratedTagsFitCapacity | scripts/retag_untagged.py:14-23 | n generated tags and the tags in use together are at most (number of letters)^length |
| Tags.GenerateTag | scripts/retag_untagged.py:14-23 | the tag is the first of at most 10000 draws that is not in use; failure means there is none |
| Tags.GenerationGivesUpIff | scripts/retag_untagged.py:14-23 | a call fails iff 10000 draws in a row are in use |
| Tags.SeriesFailsIff | scripts/retag_untagged.py:94-99 | a series fails iff after some successful calls 10000 draws in a row are in use |
| Tags.EveryDrawIsUsed | scripts/retag_untagged.py:14-23 | after n successful calls every draw made became a tag or was in use, and there were at most 10000 n draws |
| Tags.DrawAt | scripts/retag_untagged.py:18-19 | every character of a draw is its own choice from the character set |
| Tags.DrawsBeforeFreshAreUsed | scripts/retag_untagged.py:18-23 | every draw before the chosen one, or all of them on failure, was in use |
| Tags.GeneratedTagsAreFresh | scripts/retag_untagged.py:96-99 | generated tags are drawable, pairwise distinct and not in use before |
| Tags.ExtractedTagsAreTheMatches | scripts/retag_untagged.py:26-33 | when matches cannot overlap, the scan returns exactly the tags of all matches of the pattern |
| Tags.FoundIffReturned | scripts/retag_untagged.py:26-33 | when matches cannot overlap, a string is found iff it is drawable and stands in the text between `return @"` and `";` |
| Tags.MatchesDoNotOverlap | scripts/retag_untagged.py:31-32 | two matches of the pattern never overlap unless a tag can hold both the text before an opening quote and `;` |
| KeptTags.MatchesStayApartIff | scripts/retag_untagged.py:31-32 | and that condition is exact, for every length and character set |
| Tags.CheckForDuplicates | scripts/retag_untagged.py:36-43 | the counting loop returns exactly the tags of multiplicity two or more with their multiplicity |
| Tags.CountsSumToLength | scripts/retag_untagged.py:38-40 | the counts the loop holds after any number of tags sum to that number |
| Tags.DuplicatesStandTwice | scripts/retag_untagged.py:36-43 | a tag is reported iff it stands at two different positions, with its number of occurrences |
| Tags.DuplicatesAreTheRepeats | scripts/retag_untagged.py:36-43 | the report is empty iff the list has no repeats |
| Text.JoinOfSplit | scripts/retag_untagged.py:72 | joining undoes splitting, for every separator |
| Text.SplitOfJoin | scripts/update_xcode_config_cpp_checks.py:47-59 | splitting undoes joining, for lines without line breaks |
| ConcatKdf.ConcatKDFWithSHA256 | IdentityCore/src/util/MSIDConcatKdfProvider.swift:69-108 | on hosts of either byte order: which error is thrown, when the call traps, and otherwise the single-step KDF of the NIST publication |
| ConcatKdf.ReturnedIff | IdentityCore/src/util/MSIDConcatKdfProvider.swift:69-108 | a key is returned iff no input is empty, the length is a positive multiple of 32 below 2^29 and the fields have 32-bit lengths |
| ConcatKdf.ThrownIff | IdentityCore/src/util/MSIDConcatKdfProvider.swift:77-91 | which error is thrown: zero length first, then the first empty input by name, then a length that is not a multiple of 32; every other call without a key traps |
| ConcatKdf.KeyInBytes | IdentityCore/src/util/MSIDConcatKdfProvider.swift:95-107 | the bytes every block is the hash of, with all 32-bit values as four bytes |
| ConcatKdf.Rfc7518Example | IdentityCore/src/util/MSIDConcatKdfProvider.swift:96-99 | OtherInfo for the parameters of appendix C of RFC 7518 is the one printed there |
| ConcatKdf.Rounds | IdentityCore/src/util/MSIDConcatKdfProvider.swift:101-107 | the counter loop with its peeled last round is the concatenation of the hashes for the counters 1 to reps |
| ConcatKdf.CountersCannotTrap | IdentityCore/src/util/MSIDConcatKdfProvider.swift:86-106 | when the bit length converts, the range `1 ..< reps` is well formed, reps is below 2^24 and no counter conversion traps |
| ConcatKdf.ConcatedDataIsSecretAndInfo | IdentityCore/src/util/MSIDConcatKdfProvider.swift:95-99 | the concatenated data is the secret followed by OtherInfo with big-endian lengths, on either kind of host |
| ConcatKdf.ReturnedKey | IdentityCore/src/util/MSIDConcatKdfProvider.swift:86-107 | a returned key has exactly the requested length and its block k is the hash for counter k+1 |
| ConcatKdf.WholeBlocks | IdentityCore/src/util/MSIDConcatKdfProvider.swift:86-93 | for multiples of 32 bytes the general KDF, which rounds up and truncates, consists of whole hashes |
| ConcatKdf.CheckParameterIsPresent | IdentityCore/src/util/MSIDConcatKdfProvider.swift:48-52 | throws iff the parameter is empty |
| Bytes.IntToDataIsNetworkOrder | IdentityCore/src/util/MSIDConcatKdfProvider.swift:37-40 | for every width and both byte orders, copying the memory of `.bigEndian` gives network order |
| Bytes.IntToDataIsInjective | IdentityCore/src/util/MSIDConcatKdfProvider.swift:37-40 | different values give different bytes, across hosts of different byte order |
| Bytes.BigEndianDecodes | IdentityCore/src/util/MSIDConcatKdfProvider.swift:96-99 | decoding undoes big-endian encoding |
| Bytes.BigEndianEncodes | IdentityCore/src/util/MSIDConcatKdfProvider.swift:96-99 | encoding undoes big-endian decoding |
| Bytes.ByteSwapTwice | IdentityCore/src/util/MSIDConcatKdfProvider.swift:96-106 | swapping the bytes twice gives the value back |
| Bytes.FourBytes | IdentityCore/src/util/MSIDConcatKdfProvider.swift:96-106 | the four bytes of a 32-bit value, most significant first |
| KdfFraming.ParseUndoesBuild | IdentityCore/src/util/MSIDConcatKdfProvider.swift:95-99 | a parser that knows the secret's length recovers every parameter from the hashed data |
| KdfFraming.BuildUndoesParse | IdentityCore/src/util/MSIDConcatKdfProvider.swift:95-99 | and it accepts only data that its result gives |
| KdfFraming.DataIsUniquelyDecodable | IdentityCore/src/util/MSIDConcatKdfProvider.swift:95-99 | for secrets of equal length, equal data means equal secret, algorithm id, PartyU, PartyV and key length |
| KdfFraming.UnequalSecretsCanCollide | IdentityCore/src/util/MSIDConcatKdfProvider.swift:95-96 | any parameters have a variant with a longer algorithm id, and one with a secret four bytes longer, that give the same data |
| KdfCollisions.SecretLengthsDecide | IdentityCore/src/util/MSIDConcatKdfProvider.swift:69-108 | for all lengths m, n > 0 of the secrets and every supported key length: some two different calls that reach the hash return the same key for every hash function iff m and n differ, by at most 3 * (2^32 - 2) |
| KdfCollisions.SameKeyIffSameData | IdentityCore/src/util/MSIDConcatKdfProvider.swift:95-107 | two calls return the same key for every hash function iff they hash the same data |
| KdfCollisions.LongerSecretCollides | IdentityCore/src/util/MSIDConcatKdfProvider.swift:95-99 | for every distance up to that bound there are two such calls |
| KdfCollisions.EqualDataBoundsGap | IdentityCore/src/util/MSIDConcatKdfProvider.swift:95-99 | equal data means secrets no further apart than that |
| KdfFraming.InputsAreDistinct | IdentityCore/src/util/MSIDConcatKdfProvider.swift:102-106 | two hash inputs are equal only if the counter and every parameter agree |
| KdfFraming.RoundsHashDifferentInputs | IdentityCore/src/util/MSIDConcatKdfProvider.swift:102-106 | the rounds of one call hash pairwise different inputs |
| KdfFraming.EqualKeysMeanEqualCallsOrCollision | IdentityCore/src/util/MSIDConcatKdfProvider.swift:69-108 | two calls that return the same key agree on every parameter or exhibit a hash collision |
| BuildSettings.ParseBlob | build.py:204-216 | the loop over the lines gives the dictionary `ParseLines`, whose keys are those set by lines that hold a separator |
| BuildSettings.ParseLineIff | build.py:209-214 | a line sets nothing iff it holds no ` = `; otherwise the trimmed text before the first one is set to the trimmed text between it and the next one |
| BuildSettings.KeyIsPresentIff | build.py:207-216 | a key is present iff it is the trimmed text before the first separator of some line that holds one |
| BuildSettings.LastLineGivesValue | build.py:207-216 | its value is the trimmed text behind the separator on the last such line |
| BuildSettings.StripCutsOnlySpace | build.py:213-214 | trimming removes whitespace at both ends and nothing else |
| BuildSettings.LastLineWins | build.py:209-216 | a key has a value iff that is the value on the last line that sets the key |
| BuildSettings.ReadsBackIff | build.py:210-214 | a printed line reads back iff key and value are trimmed, the value holds no separator, and the first separator is the one after the key |
| BuildSettings.PrintedMapIsRecovered | build.py:204-216 | parsing the printed lines of a map, in any order, recovers the map |
| BuildSettings.PrintedBlobReadsBack | build.py:204-216 | printed settings with repeated keys come back with later ones overriding earlier ones |
| BuildDriver.BuildTarget.GetBuildSettings | build.py:181-224 | the parsed settings are kept and returned unchanged by later calls; a failing process leaves nothing behind |
| BuildDriver.PrintedSettingsAreStored | build.py:181-224 | a first call on the printed lines of a map stores and returns that map, and later calls return it whatever xcodebuild would answer |
| BuildDriver.BuildTarget.PrintCoverage | build.py:226-256 | -1 iff the coverage is known, a minimum is required and the coverage is below it; the recommended minimum does not matter |
| BuildDriver.BuildTarget.DoCodecov | build.py:270-316 | the new state and the result or exception of a coverage operation |
| BuildDriver.BuildTarget.DoOperation | build.py:341-370 | the target becomes marked as failed iff it was or the exit code is not 0; -1 stands for an exception before there was an exit code |
| BuildDriver.OperationStepIs | build.py:341-370 | the whole effect of an operation: exit code, mark, known settings, and the coverage, which is recorded iff settings, device, files and report are there |
| BuildDriver.BuildTarget.RunOperations | build.py:442-456 | the loop with its break executes the operations that `OperationsRun` says |
| BuildDriver.RunTargets | build.py:442-464 | the main loop leaves every target in the state its own operations give it |
| BuildDriver.BuildAll | build.py:442-498 | the exit status and the final state of every target; the status is 0 iff every operation of every target passes and no target was marked before |
| BuildDriver.StatusIsZeroIffAllPass | build.py:442-498 | in terms of the environment: the status is 0 iff no target was marked before and each operation of each target passes, given the settings known by then |
| BuildDriver.StatusOfProcesses | build.py:442-498 | without coverage operations the status is 1 iff some process of some target does not end with 0 |
| BuildDriver.TargetFollowsEnvironment | build.py:442-456 | exit code j of a finished target is that of its operation j on its own answers, starting with the first; all but the last are 0, and if operations were left out the last is not 0 |
| BuildDriver.OperationsStopAtFirstFailure | build.py:452-456 | executed operations are a prefix ending at the first failure; the target is marked iff that failure exists or it was marked before |
| BuildDriver.UnfailedTargetRanEverything | build.py:452-464 | a target not marked as failed executed all operations with exit code 0 |
| BuildDriver.ExitCodeZeroIffPasses | build.py:270-360 | exactly when an operation counts as passed |
| BuildDriver.StatusIsOneIffSomeOperationFailed | build.py:466-498 | the status is 1 iff some executed operation of some target failed or raised, else 0 |
| BuildDriver.CrashIffSettingsMissing | build.py:447-448 | the loop ends without a status iff settings are to be shown for a target and cannot be had |
| BuildDriver.SettingsAreKept | build.py:186-187 | the settings of a target do not change once known |
| DeviceGuids.GetGuidI | device_guids.py:22-65 | the loop raises iff a matching version cannot be read, answers None iff no device is listed, and otherwise the identifier of the first device that no other is above in (major, minor, patch) |
| DeviceGuids.ChosenLine | device_guids.py:34-61 | the chosen line is the first with the highest version, -1 iff there is no device |
| DeviceGuids.ChosenLineIsUnique | device_guids.py:59-61 | no other line is first among the newest |
| DeviceGuids.VersionsAreTotallyOrdered | device_guids.py:9-20 | `is_version_higher` is the strict total order by major, minor, patch |
| DeviceGuids.HigherIff | device_guids.py:9-20 | a higher major number makes a version higher; with equal major numbers a higher minor one; with both equal a higher patch number; nothing else does |
| DeviceGuids.LookupIff | device_guids.py:34-65 | every answer of a scan by the versions' numbers: an exception, None, or the identifier of the first of the newest devices |
| DeviceGuids.OrderDoesNotMatter | device_guids.py:34-65 | reordering the listing does not change the result when one device is newer than all others |
| DeviceGuids.DeviceCache.GetGuid | device_guids.py:67-76 | a lookup without a device raises |
| DeviceGuids.DeviceCache.GetIos | device_guids.py:78-86 | the answer and the cache after a call |
| DeviceGuids.CacheHoldsFirstSuccess | device_guids.py:78-84 | after any calls with any listings, the cache holds for exactly the devices with a successful scan what the first one found |
| DeviceGuids.CallsAgree | device_guids.py:78-84 | every call from the first success on answers what that scan found, and no later one scans |
| DeviceGuids.AnswersAreNewest | device_guids.py:67-84 | from the first listing with a device on, `get_ios` answers the identifier of the first of the newest devices in that listing |
| DeviceGuids.EarlyCallsRaise | device_guids.py:67-84 | before that every call raises, for the reason its own listing gives |
| DeviceGuids.FailingCallChangesNothing | device_guids.py:82-84 | a failing lookup leaves the cache as it was |
| DeviceGuids.CacheNeverHoldsNone | device_guids.py:67-84 | the cache never holds None |
| ConfigInserter.UpdateFile | scripts/update_xcode_config_cpp_checks.py:45-59 | the loop with its break is the insertion before the first marker line |
| ConfigInserter.RunsAccumulate | scripts/update_xcode_config_cpp_checks.py:45-59 | after n runs the lines are the original ones with exactly n copies of the block directly before the first marker line |
| ConfigInserter.FlagLineAt | scripts/update_xcode_config_cpp_checks.py:50-53 | line k of the block is `OTHER_CFLAGS=$(OTHER_CFLAGS) -` followed by configuration k |
| ConfigInserter.FlagLineAfterRuns | scripts/update_xcode_config_cpp_checks.py:45-59 | after n runs, line i + m * (number of configurations) + k for m < n is that line, where i is the first marker line |
| ConfigInserter.OtherLinesAfterRuns | scripts/update_xcode_config_cpp_checks.py:45-59 | and all other lines are as before, those from the marker on behind the added ones |
| ConfigInserter.WithoutMarkerNothingChanges | scripts/update_xcode_config_cpp_checks.py:49-59 | without a marker the text is unchanged by any number of runs |
| ConfigInserter.FlagLinesAreNotMarkers | scripts/update_xcode_config_cpp_checks.py:50-53 | no inserted line is a marker line |
| ConfigInserter.ConfigurationsAreLineFree | scripts/update_xcode_config_cpp_checks.py:3-39 | the script's own configurations meet the hypothesis of `RunsAccumulate` |

## Left out

- Retag.WrittenIffSingleStarts: assumes no quotes in the placeholder, as do the laws of `RetagArguments` built on it; `Retag.WrittenIff` is the version without that assumption.
- KeptTags.OldTagsAreKeptIff: assumes no quotes in the placeholder, whose occurrences could otherwise overlap each other in further ways.
- A negative tag length, which turns the pattern's repetition into literal text.
- The function name and the trimmed line recorded next to each line number, which are only printed.
- File access, newline translation on reading and writing, printing, argument parsing and timing.
- The patterns of `device_guids.py` and the decoding of its input: lines arrive as skipped, unreadable or parsed.
- `get_mac` of `device_guids.py`, a cache of one value.
- Command strings, simulator launching, the clean step before the main loop and the error excerpt of `build.py`.
- Selecting targets by argument, and the coverage summary printed at the end of `build.py`, which changes no state.
- Reading the percentage out of the llvm-cov report: it arrives as a number or as a failure.
- Memory limits on Swift `Data`, and SHA-256 itself.
- The Objective-C sources, `MSIDAesGcmDecryptor.swift` and the caller of the KDF.
