# A verified model of the market-data capture client

The client captures market data. It reads its sessions from URLs on the command
line, subscribes to items through a messaging library, and archives what arrives.
It carries its own copies of a URL parser, a histogram library, a logging library
and some containers. This project models the parts of that code whose correctness
takes an argument, and proves it.

The model keeps the form of the code. Scanning loops are methods with loops, proved
equal to specification functions; histograms, the recorder, list nodes, the consumer
and the command line are classes whose fields change in place; interleaved threads
are state machines over atomic steps. What the code is for is then proved about the
specification functions, for all inputs and over all runs.

| files | what they model |
|---|---|
| `Options`, `Text`, `Strings`, `Numbers` | searches, trimming, splitting, joining, decimal numerals and `atoi` |
| `UrlParse`, `UrlTheorems`, `UrlRoundTrip`, `UrlOffsets`, `UrlQuery` | the URL parser: components, losslessness, printing and parsing, offsets, file name, query, port |
| `Session`, `SessionRoundTrip` | the `--session` switch, from the command line to configurations and back |
| `Glob`, `Vlog` | the `--vmodule` switch and its pattern matcher |
| `Placeholders`, `Templates` | `$n` expansion, and formats as they are written |
| `CommandLine`, `CommandRoundTrip` | switches and arguments, and command lines as they are written |
| `BucketLayout`, `Tallies`, `Histogram` | bucket layouts, what the counters mean, the histogram object |
| `Crc`, `Checksum` | the CRC-32 table and the range checksum |
| `Recorder`, `FactoryCalls`, `VectorSharing` | the registry of histograms and of their shared vectors, and the threads that race to fill it |
| `Singleton` | lock-free creation of a singleton |
| `Sync`, `Capture`, `Consumer` | when a consumer has synchronised, what it archives, and the objects that do it |
| `LinkedList`, `LeakTracker` | the intrusive circular list and live-instance counting |

Where the code fails a property that its comments or names suggest, the model
follows the code, says exactly when the property holds, and shows an input that
fails:

- A difference of the two histogram counts below the range of an `int` is reported as
  COUNT_HIGH_ERROR, and for a difference of INT_MIN the code negates what has no
  negation (`Tallies.GiantShortageReadsHigh`, `Tallies.ShortageReadsHigh`).
- The range checksum leaves out the top sentinel, so altering that one entry goes
  unnoticed (`Histograms.OneAlterationIsReported`, `Histograms.AlteredSentinelGoesUnnoticed`).
- A sample set that is added to itself and subtracted from itself is cleared
  (`Tallies.SelfMergeIsNotUndone`, `Tallies.OneSampleIsCleared`).
- `Length()` of a URL with nothing after its scheme leaves out the slashes
  (`UrlOffsets.LengthIsEnd`, `UrlOffsets.SlashIsLeftOut`).
- The refresh count takes the image and the close of one stream for two streams, and
  an image that finds the stream's 32-bit counter back at 0 for a first one. A consumer
  synchronises on the event that refreshes or closes its last stream if and only if no
  event up to that one is counted twice; otherwise it synchronised earlier, or never does
  (`Sync.CountStaysExact`, `Sync.RunCounts`, `Sync.SyncsOnTime`, `Sync.EarlyOrNever`,
  `Sync.ImageThenCloseSyncsEarly`, `Sync.ClosedImageNeverSyncs`).
- A switch such as `--=`, or one with an empty value after a name that ends blank,
  does not survive being parsed twice (`CommandLines.ParsingAgain`,
  `CommandLines.BareValueIsFragile`).
- `InitFromArgv` on a used object keeps the old switches in its map
  (`CommandLines.InitStaysFolded`, `CommandLines.StaleSwitchRemains`).
- A switch appended under a name with an equals sign has another key in the map than
  in the vector (`CommandLines.AppendStaysFolded`, `CommandLines.EqualsInNameIsMisread`).
- `Singleton::get` never registers `OnExit`, although its comments say so. `OnExit` is
  an event of the model that may happen whenever no call is under way.

## Model

| member | source | states |
|---|---|---|
| Strings.TrimIsExact | src/chromium/string_util.cc:46-75 | trimming removes only listed characters, only from the sides asked for, reports exactly those sides, and leaves none of them there; input of nothing else becomes empty and reports every side asked for, empty input none |
| Strings.TrimKeepsBare | src/chromium/string_util.cc:83-87 | trimming whitespace is the identity exactly on strings without blank ends, and its results have none |
| Text.JoinOfSplit | src/chromium/string_split.cc:13-34 | the pieces of a split, joined again, are the string, and no piece holds the separator |
| Text.SplitOfJoin | src/chromium/string_util.cc:120-141 | splitting undoes joining when no part holds the separator |
| Strings.SplitStringT | src/chromium/string_split.cc:13-34 | the cursor loop pushes exactly the pieces between separators, empty ones included, each trimmed when asked |
| Strings.JoinStringT | src/chromium/string_util.cc:120-134 | the loop builds the parts with the separator between neighbours |
| Numbers.AtoiOfPrintInt | src/chromium/vlog.cc:52-65 | the number reading used for levels inverts decimal printing, for every integer |
| Numbers.AtoiReads | src/chromium/vlog.cc:52-65 | blanks, a sign, digits and more: the sign and the digits count, and no digits are zero |
| UrlParse.TrimURL | src/googleurl/url_parse_internal.h:56-65 | blanks and control characters are skipped at both ends and nowhere else |
| UrlParse.CountConsecutiveSlashes | src/googleurl/url_parse_internal.h:70-77 | the length of the slash run at an offset |
| UrlParse.ExtractScheme | src/googleurl/url_parse.cc:245-263 | the text before the first colon after the blanks, or nothing |
| UrlParse.ParseUserInfo | src/googleurl/url_parse.cc:68-88 | user name and password are split at the first colon |
| UrlParse.ParseServerInfo | src/googleurl/url_parse.cc:91-134 | host and port are split at the last colon outside an IPv6 bracket |
| UrlParse.ParseAuthority | src/googleurl/url_parse.cc:141-174 | the backward scan splits user information from the server at the last at-sign; without one everything is the server, host and port |
| UrlParse.ParsePath | src/googleurl/url_parse.cc:177-242 | one forward scan finds the first hash, and the first question mark before it |
| UrlParse.ParseAfterScheme | src/googleurl/url_parse.cc:284-311 | slashes are skipped, the authority ends at the first terminator, and the rest is the path |
| UrlParse.ParseStandardURL | src/googleurl/url_parse.cc:316-334 | the scans together compute the declarative parse of the whole string |
| UrlTheorems.ParseIsLossless | src/googleurl/url_parse.cc:67-334 | for every input, the components joined with their delimiters and the slash run give back exactly the trimmed input |
| UrlTheorems.ParseIsOrdered | src/googleurl/url_parse.cc:67-334 | for every input, valid components lie in bounds, in order, and do not overlap |
| UrlRoundTrip.PrintedUrlParses | src/googleurl/url_parse.cc:67-334 | a URL printed from any of scheme, slashes, user, password, host, port, path, query and reference, each present or absent, with blanks around it: every part is found where it was printed, and the absent ones are absent |
| UrlRoundTrip.PrintedUrlReads | src/googleurl/url_parse.cc:67-334 | and the text of each component is the part that was printed |
| UrlOffsets.CountCharactersBefore | src/googleurl/url_parse.cc:613-674 | the cascade of checks computes the search over the component list |
| UrlOffsets.Length | src/googleurl/url_parse.cc:607-611 | the end of the reference when there is one, else the count of characters before it |
| UrlOffsets.CountIsBegin | src/googleurl/url_parse.cc:613-674 | for every parsed URL, the count before a present component is where it begins, less the colon, question mark or hash in front of it when the delimiter is included |
| UrlOffsets.CountOfAbsent | src/googleurl/url_parse.cc:613-674 | the count before an absent component is where the next present one begins with its delimiter |
| UrlOffsets.CountOfRest | src/googleurl/url_parse.cc:613-674 | when neither the component nor any later one is present, but one after the scheme is, the count is the trimmed end |
| UrlOffsets.CountGrows | src/googleurl/url_parse.cc:613-674 | for every parsed URL and either flag, the counts grow with the component order and stay within the trimmed input |
| UrlOffsets.LengthIsEnd | src/googleurl/url_parse.cc:607-611 | Length() is the trimmed end of the input if and only if a component follows the scheme or no slash is left out |
| UrlOffsets.SlashIsLeftOut | src/googleurl/url_parse.cc:607-611 | an input for which Length() falls short: one slash after the scheme |
| UrlQuery.ExtractFileName | src/googleurl/url_parse.cc:490-526 | the file name lies between the last slash and the last semicolon before the end |
| UrlQuery.ExtractQueryKeyValue | src/googleurl/url_parse.cc:529-564 | one call takes the first segment, split at its first equals sign, and strictly shortens the query |
| UrlQuery.PairsAreSegments | src/googleurl/url_parse.cc:529-564 | iterating over any query yields exactly its ampersand-separated segments, each split at its first equals sign, with only a final empty one dropped |
| UrlQuery.ParsePort | src/googleurl/url_parse.cc:447-487 | the decimal value when the text is all digits and at most 65535, leading zeros ignored, else the invalid mark |
| Session.ReadSession | src/torikuru.cc:109-176 | one URL fills in one configuration; a URL without user or host gets the login name or the local host |
| Session.ReadSessions | src/torikuru.cc:103-179 | the loop over the comma-separated list yields one configuration for each URL, in order |
| SessionRoundTrip.PairsKeepLast | src/torikuru.cc:145-168 | a repeated query key takes its last value |
| SessionRoundTrip.FileNameReadsBack | src/googleurl/url_parse.cc:490-526 | the file name of a path of directory, name and maybe a semicolon with more is the name, for any directory |
| SessionRoundTrip.RecordReadsBack | src/torikuru.cc:109-176 | one printed record is read back, with the defaults for what is absent |
| SessionRoundTrip.ShortForm | src/torikuru.cc:109-176 | the short form of a session: protocol, maybe a user, host and service |
| SessionRoundTrip.SessionsReadBack | src/torikuru.cc:103-179 | printing any list of records, each of whose parts may be absent, and reading it recovers every protocol, user, server, port, service, application id, instance id and position, in order; an absent user reads as the login name, an absent server as "localhost", anything else absent as empty |
| Glob.StarsCoalesce | src/chromium/vlog.cc:147-150 | consecutive stars accept what one star accepts |
| Glob.MatchVlogPattern | src/chromium/vlog.cc:116-167 | the matcher terminates and accepts exactly the strings that can be cut into one piece for each pattern character |
| Vlog.FindLastOf | src/chromium/string_piece.cc:185-204 | the backward loop over a lookup table finds the last listed character up to the position |
| Vlog.RFind | src/chromium/string_piece.cc:96-109 | the backward loop finds the last occurrence up to the position |
| Vlog.GetModule | src/chromium/vlog.cc:76-89 | basename, without extension and one "-inl" suffix |
| Vlog.ModuleOfPath | src/chromium/vlog.cc:76-89 | the module of directory, name, optional "-inl" and optional extension is the name |
| Vlog.SplitStringIntoKeyValues | src/chromium/string_split.cc:46-74 | key before the first delimiter, value after the run of delimiters, failure when either is missing |
| Vlog.KeyAndValue | src/chromium/string_split.cc:46-74 | key, any run of delimiters, and value are told apart, and an empty value is a failure that keeps the key |
| Vlog.NoKeyValue | src/chromium/string_split.cc:46-74 | a line without the delimiter has neither key nor value |
| Vlog.SplitStringIntoKeyValuePairs | src/chromium/string_split.cc:76-106 | one pair for each piece that is not empty, success if and only if each has key and value |
| Vlog.VlogInfo.constructor | src/chromium/vlog.cc:42-67 | the patterns of the switch in order, and the default level from the other switch |
| Vlog.VlogInfo.GetVlogLevel | src/chromium/vlog.cc:93-105 | the level of the first pattern in whose language the path or the module is, else the default |
| Vlog.SettingsReadBack | src/chromium/vlog.cc:42-67 | every printed list of well-formed settings is read back exactly |
| Vlog.FirstSettingWins | src/chromium/vlog.cc:27-105 | after printing and reading any list of settings, a file gets the level of the first listed pattern that matches it |
| Placeholders.ReadIndex | src/chromium/string_util.cc:173-180 | the digits are read modulo the machine word, and the index is one less |
| Placeholders.ReplaceStringPlaceholders | src/chromium/string_util.cc:146-205 | for every format, also malformed ones, the output renders its tokens and the offsets are those of the sorted placeholders |
| Placeholders.ExpandUndoesEscape | src/chromium/string_util.cc:162-171 | adding a dollar to each maximal run of dollars gives a format that expands to the original under any substitutions |
| Templates.TemplateExpands | src/chromium/string_util.cc:146-205 | a format of texts, placeholders and maybe a last dollar expands to the texts with substitution n, counted from 1, in place of each number n, nothing for 0 or a number beyond the last, and the placeholders are at the offsets where their substitutions begin |
| Templates.EveryFormat | src/chromium/string_util.cc:146-205 | every format, malformed ones included, is such a template |
| Templates.ServiceFile | src/torikuru.cc:371-374 | "$1" and an extension expand to the service name and the extension |
| Placeholders.OffsetsAreRight | src/chromium/string_util.cc:181-203 | offsets are one for each placeholder, ordered by parameter, and each points at the start of its substituted text in the output |
| CommandLines.CommandLine.AppendSwitchNative | src/chromium/command_line.cc:187-200 | the switch goes in at the divider with a prefix, and the map takes its value |
| CommandLines.CommandLine.AppendSwitchesAndArguments | src/chromium/command_line.cc:51-67 | the loop is a stable partition into switches before the divider and arguments at the end |
| CommandLines.CommandLine.InitFromArgv | src/chromium/command_line.cc:137-141 | the vector and divider start afresh, the map does not |
| CommandLines.CommandLine.GetArgs | src/chromium/command_line.cc:216-225 | everything after the divider without the first terminator |
| CommandRoundTrip.CommandLineReadsBack | src/chromium/command_line.cc:22-67 | a command line written from switches of one or two dashes with or without a value, arguments, and maybe a terminator and more: the switches come first as they were written, each name has its last value, and the arguments follow in order |
| CommandRoundTrip.AppendedAsWritten | src/chromium/command_line.cc:187-200 | a switch appended with one, two or no dashes is kept with its dashes, or with two, under its bare name |
| CommandLines.CombinedReadsBack | src/chromium/command_line.cc:187-200 | an appended switch is read back as itself if and only if its name has no equals sign |
| CommandLines.PartitionStaysFolded | src/chromium/command_line.cc:51-67 | parsing more arguments keeps the map the last-wins fold, over the map the object started from, of the tokens between program and divider |
| CommandLines.AppendStaysFolded | src/chromium/command_line.cc:187-200 | after appending any switch the map is still the fold if and only if its name has no equals sign, or the map already held the switch both as given and as read back |
| CommandLines.EqualsInNameIsMisread | src/chromium/command_line.cc:187-200 | a switch for which it is not: the name "a=b" on a new object |
| CommandLines.InitStaysFolded | src/chromium/command_line.cc:137-141 | after InitFromArgv on a used object the map is the fold of the tokens in the vector, from the empty map, if and only if every key it had is given again |
| CommandLines.StaleSwitchRemains | src/chromium/command_line.cc:137-141 | a use for which it is not: an empty command line after one switch |
| CommandLines.ParsingAgain | src/chromium/command_line.cc:24-67 | parsing the resulting vector again reproduces vector, divider and map if and only if no switch is fragile |
| CommandLines.BareValueIsFragile | src/chromium/command_line.cc:24-67 | a command line that a second parse changes: the one token "--=" |
| CommandLines.PlainTokensParseAgain | src/chromium/command_line.cc:24-67 | so it does for tokens without blanks, none of them literally "--=" |
| BucketLayout.Bernoulli | src/chromium/metrics/histogram.cc:336-345 | a power is at least its first two binomial terms, the bound behind the exponential layout |
| BucketLayout.StepLeavesRoom | src/chromium/metrics/histogram.cc:352-377 | the rounded exponential step never uses up the integers that the remaining buckets need |
| BucketLayout.NearestIsUnique | src/chromium/metrics/histogram.cc:366-368 | only one integer is nearest to the exact next boundary |
| BucketLayout.ExponentialIsSound | src/chromium/metrics/histogram.cc:352-377 | exponential boundaries increase strictly from 0 through the minimum to the maximum and the sentinel |
| BucketLayout.LinearIsSound | src/chromium/metrics/histogram.cc:718-729 | so do linear ones |
| BucketLayout.LinearIsNearest | src/chromium/metrics/histogram.cc:718-729 | every linear boundary is the integer nearest to the exact one, the upper of two |
| BucketLayout.CustomIsSound | src/chromium/metrics/histogram.cc:788-819 | sorted and deduplicated custom boundaries with 0 increase strictly and hold every given value |
| BucketLayout.ArrayToCustomRanges | src/chromium/metrics/histogram.cc:826-838 | the loop lists each value and its guard |
| BucketLayout.ValidSamplesAreAlone | src/chromium/metrics/histogram.cc:788-856 | each valid sample of a custom enumeration has a bucket that contains that value alone |
| CrcTable.TableIsShift | src/chromium/metrics/histogram.cc:24-68 | each of the 256 table entries is the eight-step bit-serial remainder of its index |
| Checksum.TableStep | src/chromium/metrics/histogram.cc:498-499 | one table step is eight steps of the shift register, for every register and byte |
| SampleBytes.BytesMakeSample | src/chromium/metrics/histogram.cc:490-500 | the four bytes, least significant first, make up the two's complement word of the sample |
| Checksum.Crc32 | src/chromium/metrics/histogram.cc:490-515 | the table-driven loop equals 32 bit-serial steps with the reversed polynomial over the sample's two's complement word |
| Checksum.InjectiveInSum | src/chromium/metrics/histogram.cc:490-515 | Crc32 is injective in the running sum |
| Checksum.InjectiveInRange | src/chromium/metrics/histogram.cc:490-515 | Crc32 is injective in the sample |
| Checksum.OneChangeShows | src/chromium/metrics/histogram.cc:457-464 | changing exactly one boundary changes the checksum of any list of boundaries |
| Histograms.OneAlterationIsReported | src/chromium/metrics/histogram.cc:225-239 | altering one boundary makes FindCorruption report a checksum error, whenever it reports at all, if and only if it is not the sentinel |
| Histograms.AlteredSentinelGoesUnnoticed | src/chromium/metrics/histogram.cc:457-464 | two layouts that differ in the sentinel and have one checksum |
| Histograms.ChecksumSeed | src/chromium/metrics/histogram.cc:457-464 | the checksum is the fold over the boundaries below the sentinel from their number and from no other start |
| Histograms.CachedRanges.Equals | src/chromium/metrics/histogram.cc:1090-1100 | equality of checksum and of all boundaries |
| Histograms.SampleSet.Accumulate | src/chromium/metrics/histogram.cc:602-611 | one bucket, the sum and the redundant count change together |
| Histograms.SampleSet.TotalCount | src/chromium/metrics/histogram.cc:613-621 | the sum of all bucket counts |
| Histograms.SampleSet.Add | src/chromium/metrics/histogram.cc:623-629 | the set becomes the merge of both old sets, also when both are the same object |
| Histograms.SampleSet.Subtract | src/chromium/metrics/histogram.cc:631-642 | the set becomes the difference of both old sets |
| Histograms.Histogram.constructor | src/chromium/metrics/histogram.cc:307-318 | arguments are clamped, and a new histogram counts nothing |
| Histograms.Histogram.InitializeBucketRange | src/chromium/metrics/histogram.cc:352-377 | the loop lays out the exponential boundaries, ending at the maximum, and checksums them |
| Histograms.Histogram.InitializeLinearBucketRange | src/chromium/metrics/histogram.cc:718-729 | the loop lays out evenly spaced boundaries and checksums them |
| Histograms.Histogram.InitializedCustomBucketRange | src/chromium/metrics/histogram.cc:848-856 | the loop copies the boundaries below the sentinel and checksums them |
| Histograms.Histogram.CalculateRangeChecksum | src/chromium/metrics/histogram.cc:457-464 | the fold of Crc32 over the boundaries below the sentinel, seeded with their number |
| Histograms.Histogram.BucketIndex | src/chromium/metrics/histogram.cc:383-406 | the binary search terminates with the bucket whose boundaries enclose the value |
| Tallies.BucketIsUnique | src/chromium/metrics/histogram.cc:383-406 | no other bucket encloses the value |
| Histograms.Histogram.Add | src/chromium/metrics/histogram.cc:126-135 | the clamped value is accumulated once in its bucket, and a sound histogram stays sound |
| Histograms.Histogram.AddSampleSet | src/chromium/metrics/histogram.cc:141-143 | the sample set is merged in, and a sound histogram stays sound |
| Histograms.Histogram.FindCorruption | src/chromium/metrics/histogram.cc:225-267 | the loop reports exactly the order, checksum and count inconsistencies of a snapshot, and sets apart the one difference whose negation overflows |
| Histograms.Histogram.SnapshotSample | src/chromium/metrics/histogram.cc:283-286 | a copy of the counters |
| Histograms.Histogram.SoundIsClean | src/chromium/metrics/histogram.cc:225-267 | for a snapshot of a histogram that has seen only its construction, Add, and AddSampleSet over the same boundaries, nothing is reported |
| Tallies.BumpExtendsLog | src/chromium/metrics/histogram.cc:126-135 | adding a sample turns the tally of a log into the tally of the extended log |
| Tallies.ClampIsNearest | src/chromium/metrics/histogram.cc:126-135 | the sample counted is the one nearest to the value |
| Tallies.MergeJoinsLogs | src/chromium/metrics/histogram.cc:623-629 | merging the tallies of two logs is the tally of both |
| Tallies.RemoveUndoesMerge | src/chromium/metrics/histogram.cc:623-642 | subtracting undoes adding, and adding undoes subtracting |
| Tallies.SelfMergeIsNotUndone | src/chromium/metrics/histogram.cc:623-642 | for a set and itself it does so if and only if the set is empty |
| Tallies.OneSampleIsCleared | src/chromium/metrics/histogram.cc:623-642 | a set that the two calls clear: one sample |
| Tallies.BucketsHoldAll | src/chromium/metrics/histogram.cc:383-406 | every sample is counted in exactly one bucket |
| Tallies.SumIsBounded | src/chromium/metrics/histogram.cc:602-611 | the sum lies between all samples at the bottom and all at the top of their buckets |
| Tallies.NoCorruption | src/chromium/metrics/histogram.cc:225-267 | nothing is reported if and only if order and checksum hold and the counts differ by at most one, and the report is undefined only at INT_MIN |
| Tallies.ExcessReadsHigh | src/chromium/metrics/histogram.cc:225-267 | which flag stands for what: order, checksum, and an excess or a shortage of more than one |
| Tallies.GiantShortageReadsHigh | src/chromium/metrics/histogram.cc:243-264 | a shortage is reported as low if and only if its negation fits an int, as high if and only if it is below INT_MIN, and is undefined at INT_MIN |
| Tallies.ShortageReadsHigh | src/chromium/metrics/histogram.cc:243-264 | a shortage that is reported as an excess: one more than an int counts |
| Tallies.RunIsConsistent | src/chromium/metrics/histogram.cc:126-143 | after any run of Add and AddSampleSet over a layout whose checksum holds, the redundant count is the bucket total, the sum fits the buckets, and no corruption is reported |
| Recorders.StatisticsRecorder.RegisterOrDeleteDuplicateRanges | src/chromium/metrics/histogram.cc:954-993 | the first listed vector of equal boundaries replaces the histogram's own, which is deleted; otherwise its own is listed in front; nothing else enters the lists or is deleted |
| Recorders.StatisticsRecorder.RegisterOrDeleteDuplicate | src/chromium/metrics/histogram.cc:922-951 | the first of a name stays for good, a later one is deleted in its favour, without a live registry the argument comes back, and every other histogram that waits to be registered still can be |
| Recorders.StatisticsRecorder.FindHistogram | src/chromium/metrics/histogram.cc:1046-1058 | the registered histogram of the name, if there is one |
| Recorders.StatisticsRecorder.EqualRangesAreShared | src/chromium/metrics/histogram.cc:954-993 | two registered histograms with equal boundaries share one vector object |
| Recorders.FactoryGet | src/chromium/metrics/histogram.cc:82-115 | the registered histogram of the name, or a new registered one, sound, with an exponential layout over the clamped limits; either way one that can count samples |
| FactoryCalls.NextPreserves | src/chromium/metrics/histogram.hh:118-132 | every step of every racing call keeps the registry invariant |
| FactoryCalls.OneHistogramPerName | src/chromium/metrics/histogram.cc:82-115 | in every interleaving of lookup, construction, registration and pointer publication, all calls for one name get the same histogram, which is never deleted |
| VectorSharing.PlaceValid | src/chromium/metrics/histogram.cc:954-993 | placing a vector keeps the lists alive, filed by checksum and free of duplicates, and changes no contents |
| VectorSharing.NextSharedPreserves | src/chromium/metrics/histogram.cc:82-115 | every step of every racing call, with the vectors, keeps the sharing invariant, for any checksum function |
| VectorSharing.EqualBoundariesAreShared | src/chromium/metrics/histogram.cc:922-993 | in every interleaving of lookup, construction and registration, two registered histograms with equal boundaries share one vector, which is not deleted |
| VectorSharing.BoundariesNeverChange | src/chromium/metrics/histogram.cc:922-993 | in every interleaving no histogram ever sees other boundaries than those it was built with |
| Singletons.OneInstance | src/chromium/memory/singleton.hh:229-253 | in every interleaving before exit the constructor runs at most once, has run once any call is complete, and all complete calls return that instance |
| Singletons.SomeoneCanStep | src/chromium/memory/singleton.cc:12-30 | a call that waits is never stuck for good: some call can always move |
| Singletons.AllCallsComplete | src/chromium/memory/singleton.hh:229-253 | in every interleaving before exit at most five steps for each call change anything, and nobody can move if and only if all calls are complete |
| Singletons.GetAfterExitIsNull | src/chromium/memory/singleton.hh:103-129 | with static memory, after OnExit and until Resurrect nothing is constructed and every new get() returns NULL |
| Singletons.OneConstructionPerLife | src/chromium/memory/singleton.hh:103-129 | over any run the static buffer is constructed at most once, and once more for every Resurrect |
| Singletons.Singleton.Get | src/chromium/memory/singleton.hh:229-253 | the code of one undisturbed call takes exactly the machine's steps, and what it returns in each state |
| Sync.CountStaysExact | src/consumer.cc:661-709 | in every mode an event keeps the refresh count equal to the number of streams ever refreshed or closed if and only if it is not one of the listed double counts, which can be told before the event |
| Sync.RunCounts | src/consumer.cc:661-799 | over every run in every mode the refresh count is the number of streams refreshed or closed since the start plus what was counted twice, so it is never too small, and exact if and only if no event miscounted |
| Sync.SyncsOnTime | src/consumer.cc:661-799 | in every mode and over every run, the latch is set, with one callback, by the event that refreshes or closes the last stream, if and only if no event up to and including it miscounted |
| Sync.EarlyOrNever | src/consumer.cc:661-799 | if an event did miscount, the latch keeps for good the value it had before the event that settled the last stream: the consumer was early, or never synchronises |
| Sync.OvershootNeverSyncs | src/consumer.cc:790-798 | once the count has passed the directory size the latch is never set |
| Sync.ClosedImageNeverSyncs | src/consumer.cc:661-799 | a capture that never ends: the first image of the only stream arrives with its close |
| Sync.ImageThenCloseSyncsEarly | src/consumer.cc:661-799 | a consumer that synchronises too early: an image and a close of one stream of two, with updates kept |
| Sync.EventStaysExact | src/consumer.cc:661-799 | in snapshot mode an event keeps the count exact and calls back exactly when it completes the last stream |
| Sync.SnapshotIsCoherent | src/torikuru.cc:250-266 | over every run of a snapshot capture all counts are exact, each consumer calls back once, and the queue is deactivated exactly when all consumers have synchronised |
| Sync.DispatchCounts | src/torikuru.cc:250-258 | in every mode the application counts the synchronised consumers, and the queue stops with the dispatch that completes them when told to, and with no other |
| Capture.StreamsAreCounts | src/consumer.cc:672-709 | over every history in every mode the counters of a stream are the numbers of its images, updates and status messages in 32 bits, and it is closed if an event closed it or, in snapshot mode, an image has come |
| Capture.ArchiveIsRecording | src/consumer.cc:682-788 | over every history in every mode the archive holds exactly the marketfeed images, the first of a stream, as a 32-bit count tells it, only with refreshes enabled, the updates unless disabled, corrections, renames and unknown types, in order, and nothing without an output |
| Capture.CancelledOnce | src/consumer.cc:682-751 | over every history, in snapshot mode a stream is cancelled on its first image, once for every 2^32 images, and any other cancellation is for a wanted message in an unsupported format |
| Consumers.Consumer.OnMarketDataItemEvent | src/consumer.cc:661-799 | the handler changes the streams, count, latch, archive and cancellations as the event function says, and calls back on the change of the latch |
| Consumers.Consumer.CreateItemStream | src/consumer.cc:380-404 | a stream is entered unless its name is taken or its request is refused; nothing is requested while muted |
| Consumers.Consumer.Resubscribe | src/consumer.cc:340-374 | every stream without a subscription is requested exactly once and no other is, and a stream is subscribed afterwards if it was or its request is granted |
| Consumers.Init | src/torikuru.cc:246-285 | for any sessions, switches and instruments, the loops of Init end with a separate consumer for every session and an untouched stream of its own for every instrument, each requested once where the consumer is ready: the state from which the whole-run theorems start |
| Consumers.Torikuru.OnSync | src/torikuru.cc:250-258 | the callback counts, and deactivates the queue at the last consumer when told to terminate |
| Consumers.DispatchEvent | src/consumer.cc:661-799 | dispatching an event to one of the consumer objects is one step of the whole application, callback included |
| Consumers.MainLoop | src/torikuru.cc:339-347 | in a snapshot capture the loop over the queue follows the run of the whole application, and ends before the last delivery only when the queue is inactive, which is when there are consumers and all of them have synchronised, their counts being exact |
| LinkedLists.LinkNode.InsertBefore | src/chromium/linked_list.hh:90-95 | the ring gains the node between the element and its predecessor, in both directions |
| LinkedLists.LinkNode.InsertAfter | src/chromium/linked_list.hh:98-103 | the ring gains the node between the element and its successor |
| LinkedLists.LinkNode.RemoveFromList | src/chromium/linked_list.hh:106-109 | the ring loses exactly this node |
| LinkedLists.InsertedIsRing | src/chromium/linked_list.hh:90-103 | rewiring four pointers leaves one ring with the node in its place |
| LinkedLists.RemovedIsRing | src/chromium/linked_list.hh:106-109 | rewiring two pointers leaves one ring without the node |
| LinkedLists.LinkedList.Append | src/chromium/linked_list.hh:149-151 | the node goes to the end of the list |
| LinkedLists.LinkedList.InsertBefore | src/chromium/linked_list.hh:90-95 | a node that goes in front of any other, or of the root, takes that place in the list |
| LinkedLists.LinkedList.InsertAfter | src/chromium/linked_list.hh:98-103 | a node that goes behind any other, or behind the root, takes that place in the list |
| LinkedLists.LinkedList.Remove | src/chromium/linked_list.hh:106-109 | a node that leaves from any place, and only this one, is gone from the list |
| LinkedLists.LinkedList.Traverses | src/chromium/linked_list.hh:146-163 | traversal visits the nodes in append order forwards and in the opposite order backwards |
| LeakTrackers.LeakTracker.Construct | src/chromium/debug/leak_tracker.hh:67-69 | a new instance is the last in the list |
| LeakTrackers.LeakTracker.Destroy | src/chromium/debug/leak_tracker.hh:71-73 | exactly the destroyed instance leaves the list |
| LeakTrackers.LeakTracker.NumLiveInstances | src/chromium/debug/leak_tracker.hh:110-119 | the walk terminates and counts constructions minus destructions |
| LeakTrackers.LeakTracker.CheckForLeaks | src/chromium/debug/leak_tracker.hh:75-108 | it passes if and only if every instance was destroyed, and otherwise keeps the first stacks in order |

## Left out

- RFA sessions, login and directory messages, TibMsg decoding and the archive's encoding: libraries whose code is not part of this model. Events are a datatype, the archive is a list of messages, and an accepted or refused request is a parameter.
- Widths: counters and sums of histograms, string lengths and the consumer's refresh count are unbounded integers. The sample clamp, the `int` in FindCorruption, the CRC register, the stream counters and the placeholder index keep their widths.
- What a machine does when `FindCorruption` negates INT_MIN: the model reports that one case as undefined.
- IEEE rounding: the exponential and linear layouts are over exact reals, stated in integers by comparing powers.
- Weak memory ordering: every atomic operation is one indivisible step.
- `ReplaceStringPlaceholders` casts offsets to `int`; the model keeps them as they are.
- `atoi` beyond the range of an `int` is undefined; the model keeps the number.
- `getenv`: the login name is a parameter.
- `Init` when one of its steps fails, the logins that unmute a consumer later, and the time limit of the main loop, which is where the list of deliveries may end.
- Expired weak pointers in the directory of a consumer: the application keeps all streams alive.
- The rendering of histograms, their flags and descriptions, and the histograms that FindCorruption itself records.
- `DoParsePathURL`, `DoParseMailtoURL`, wide-character variants, `PrependWrapper`, `ParseFromString`: no property beyond those of the code they share.
- Strings are sequences of characters; bytes from 0x80 on are trimmed from URLs as the signed comparison of the code does.
