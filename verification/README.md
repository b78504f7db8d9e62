# mongodb-maven-plugin: connection resolution and script execution, in Dafny

This project models the engine behind the plugin's goals, `AbstractMongoDBMojo`. It covers:

- **Replica-set seeds.** The `replicaSet` string is scanned with the pattern
  `([^:,]+)(:([^,]*))?` and repeated `Matcher.find()`. Every match becomes one
  `ServerAddress`: the host is trimmed, and the port text is parsed untrimmed unless it is blank.
  When no match is found, the client falls back to the configured single host and port.
- **Settings check.** `checkDbSettings` runs before anything else. A server id must name an
  entry with a user name. Without a server id, a host name or a replica-set string must be set.
- **Credentials.** `getDatabase` takes the credentials from the server entry or from the inline
  settings, and authenticates exactly when both the user name and the password are non-null.
- **One script.** `executeScript` does the following:
  - it requires a readable regular file;
  - a name ending in `GZ` in any case selects gzip;
  - a blank `scriptEncoding` selects the platform charset;
  - every line is kept unchanged after a newline, and the text is wrapped as
    `(function() {` … `})();`;
  - the evaluation result, including a thrown exception, is recorded and never propagated.
- **One directory.** `executeScriptsInDirectory` sorts the listing by `String.compareTo` on
  names, runs the regular files in that order, and stops at the first file that cannot be read.
- **The batch.** `executeForDirectories` fails on a null array. Otherwise it opens one
  connection and one session, runs every directory in argument order, and rewraps any
  `IOException` as a `MojoExecutionException`. `execute` runs the settings check first.

The outside world comes in as three functions, held in `Batch.Oracles`:

- `resolves` stands for the DNS lookup the driver performs when it builds a `ServerAddress`.
- `read` stands for opening a file, optionally un-gzipping it, decoding it, and splitting it with
  `readLine`.
- `eval` stands for `DB.doEval`.

A run returns a `Batch.Run`: the client and session it opened, the trace of scripts that reached
the server (`Scripts.Event`), and the exception it ended with (`Failures.Failure`). The Java
exception class of every failure is given by `Failures.ClassOf`.

Modules, one file each:

- `Results`: `Option` and `Result`.
- `Failures`: the exceptions.
- `JavaText`: `trim`, `isEmpty`, `isBlank`, `toUpperCase`, `endsWith`, `compareTo` and `parseInt`.
- `Seeds`: the regex scan, and a reference description of it in terms of comma segments.
- `Settings`: the settings check and `getDatabase`.
- `Connection`: `openConnection`.
- `Scripts`: `executeScript`.
- `Listing`: the sort.
- `Batch`: the directory loop, `executeForDirectories` and `execute`.
- `SeedCases` and `BatchCases`: worked inputs.

Behaviour of the code that is easy to misread:

- **Leading colons.** A seed segment is not split "at its first colon". The regex cannot start a
  match at `:`, so leading colons are skipped: `:27017` is a host named `27017` on the default
  port (`SeedCases.LeadingColonIsSkipped`).
- **Blank hosts.** A segment whose host trims to nothing is not rejected. It yields a seed with an
  empty host (`SeedCases.BlankSegmentGivesEmptyHost`).
- **The gzip test.** It is a case-insensitive test for the two-letter suffix `GZ`, not for `.gz`,
  so `x.tgz` and `bigz` are read as gzip (`Scripts.GzipNameIff`).
- **Line trimming.** Lines are not trimmed, because the result of `line.trim()` is discarded
  (`Scripts.ScriptTextRoundTrip`).

## Model

Every row cites `src/main/java/com/nesting/maven2/mongodb/AbstractMongoDBMojo.java`, relative to
the repository root.

| member | source | states |
|---|---|---|
| JavaText.Trim | src/main/java/com/nesting/maven2/mongodb/AbstractMongoDBMojo.java:253-256 | the result is empty exactly when every character is at or below U+0020; otherwise it is the infix of the input that starts and ends with a character above U+0020, and only such characters are cut off around it |
| JavaText.IsBlank | src/main/java/com/nesting/maven2/mongodb/AbstractMongoDBMojo.java:194 | null and empty encodings are blank; an encoding that starts or ends with a character other than Java whitespace is not blank; a single character is blank exactly when it is Java whitespace |
| JavaText.BlankConcat | src/main/java/com/nesting/maven2/mongodb/AbstractMongoDBMojo.java:194 | a concatenation is blank exactly when both parts are, so blankness means Java whitespace only |
| JavaText.ParseInt | src/main/java/com/nesting/maven2/mongodb/AbstractMongoDBMojo.java:254 | a parsed port is a 32-bit value written as an optional sign followed by digits only; it is negative only when written with `-` |
| JavaText.ParseIntSpells | src/main/java/com/nesting/maven2/mongodb/AbstractMongoDBMojo.java:254 | a port text parses to `v` exactly when `v` is a 32-bit value and the text is an optional `+` or `-`, then any number of `0`s, then the decimal spelling of `v`'s magnitude, where `-` is required for a negative `v` and allowed only for `v <= 0` |
| JavaText.ParseShowNat | src/main/java/com/nesting/maven2/mongodb/AbstractMongoDBMojo.java:254 | every non-negative `int` reads back from its decimal spelling |
| JavaText.ParseIntRejectsSpace | src/main/java/com/nesting/maven2/mongodb/AbstractMongoDBMojo.java:253-254 | a port text containing a space is a `NumberFormatException`: the text is not trimmed before parsing |
| JavaText.CompareTo | src/main/java/com/nesting/maven2/mongodb/AbstractMongoDBMojo.java:142 | the name comparison is zero exactly for equal names, and when one name is a prefix of the other it is the difference of the lengths |
| JavaText.CompareToFirstDifference | src/main/java/com/nesting/maven2/mongodb/AbstractMongoDBMojo.java:142 | after a common prefix, the first pair of differing characters decides the comparison: it is their difference |
| JavaText.CompareToZero | src/main/java/com/nesting/maven2/mongodb/AbstractMongoDBMojo.java:140-143 | the name comparison returns zero exactly for equal names |
| JavaText.CompareToAntisymmetric | src/main/java/com/nesting/maven2/mongodb/AbstractMongoDBMojo.java:140-143 | swapping the names negates the comparison |
| JavaText.CompareToTransitive | src/main/java/com/nesting/maven2/mongodb/AbstractMongoDBMojo.java:140-143 | "not after" is transitive, so sorting by it is well defined |
| Seeds.MatchAt | src/main/java/com/nesting/maven2/mongodb/AbstractMongoDBMojo.java:39 | one match at a host character consumes at least that character; its host is non-empty and free of `:` and `,`; its port text is free of `,` |
| Seeds.FindAll | src/main/java/com/nesting/maven2/mongodb/AbstractMongoDBMojo.java:246-250 | every match found has a non-empty host with no `:` or `,`, and a port text, if any, with no `,` |
| Seeds.FindAllBySegments | src/main/java/com/nesting/maven2/mongodb/AbstractMongoDBMojo.java:246-250 | the scan agrees on every input with the reference: split at every comma, drop segments that are colons only, skip leading colons, take the host up to the next colon and everything after that colon as the port text |
| Seeds.SegmentsOfJoin | src/main/java/com/nesting/maven2/mongodb/AbstractMongoDBMojo.java:39 | splitting at commas undoes joining with commas when no segment holds a comma |
| Seeds.FindAllEmpty | src/main/java/com/nesting/maven2/mongodb/AbstractMongoDBMojo.java:246-247 | the scan finds nothing exactly when the string holds only `:` and `,` |
| Seeds.FindAllSkipsSeparator | src/main/java/com/nesting/maven2/mongodb/AbstractMongoDBMojo.java:39 | a `:` or `,` where a match could start is skipped |
| Seeds.FindAllHostThenComma | src/main/java/com/nesting/maven2/mongodb/AbstractMongoDBMojo.java:39 | a host ended by a comma is a match without a port, and scanning resumes after the comma |
| Seeds.FindAllHostOnly | src/main/java/com/nesting/maven2/mongodb/AbstractMongoDBMojo.java:39 | a host that runs to the end is the last match and has no port group |
| Seeds.FindAllHostPort | src/main/java/com/nesting/maven2/mongodb/AbstractMongoDBMojo.java:39 | after `host:` the port group takes everything up to the next comma, further colons included |
| Connection.ReplicaMatches | src/main/java/com/nesting/maven2/mongodb/AbstractMongoDBMojo.java:243-247 | a null or trim-blank replica-set string is not scanned; otherwise the untrimmed string's matches are the comma-segment reference's seeds; every match has a non-empty host without `:` or `,` |
| Connection.SeedEndpoint | src/main/java/com/nesting/maven2/mongodb/AbstractMongoDBMojo.java:249-257 | a blank or missing port gives 27017; otherwise the port is the parse of the untrimmed text or a `PortNotNumeric` failure; the host is the trimmed group 1 and must resolve, else `UnknownHost`, which is the failure whenever the port is blank or parses; these are the only failures |
| Connection.BuiltPrefix | src/main/java/com/nesting/maven2/mongodb/AbstractMongoDBMojo.java:246-257 | counts the leading matches whose address can be built: every match before the count builds, and the match at the count, if any, fails |
| Connection.BuildSeeds | src/main/java/com/nesting/maven2/mongodb/AbstractMongoDBMojo.java:246-260 | the seed list is built exactly when every match's address can be built, one address per match in order; otherwise it fails with the failure of the first match that cannot be built |
| Connection.ChooseClient | src/main/java/com/nesting/maven2/mongodb/AbstractMongoDBMojo.java:263-279 | a non-empty seed list gives a replica-set client with exactly those seeds; otherwise one address from the configured host and the configured port or 27017, failing with an unknown host exactly when a configured host does not resolve; the options are passed on unchanged |
| Connection.OpenConnection | src/main/java/com/nesting/maven2/mongodb/AbstractMongoDBMojo.java:237-283 | replica-set addressing exactly when the non-blank replica-set string has a match, with the seeds above; a failing seed fails the whole call with that failure; when every seed builds, the result is the client chosen from those seeds as above, so otherwise it is the configured host with the configured port or 27017; the options are passed on unchanged; failures are only a bad port or an unknown host |
| Connection.ReplicaModeIff | src/main/java/com/nesting/maven2/mongodb/AbstractMongoDBMojo.java:243-264 | the scan finds a seed exactly when the replica-set string is set, holds a character above U+0020 and holds a character other than `:` and `,`; a connection that opens is addressed to a replica set exactly then |
| Connection.SeedListRoundTrip | src/main/java/com/nesting/maven2/mongodb/AbstractMongoDBMojo.java:241-268 | a list written as `h1:p1,h2,…` with plain host names and in-range ports connects to exactly those hosts, in order, each on its written port or 27017 |
| Settings.CheckDbSettings | src/main/java/com/nesting/maven2/mongodb/AbstractMongoDBMojo.java:89-110 | with a server id, the settings pass exactly when the entry exists and has a non-empty user name, and fail with "not found" or "username is empty" otherwise; without one, they pass exactly when a host name or replica-set string is non-empty; every failure is a `MojoFailureException` |
| Settings.GetDatabase | src/main/java/com/nesting/maven2/mongodb/AbstractMongoDBMojo.java:290-312 | fails, with a null dereference, exactly when a server id names no entry; otherwise the configured database, authenticated exactly when both user name and password from the chosen source are non-null, with those two values |
| Settings.CheckedSettingsOpenSession | src/main/java/com/nesting/maven2/mongodb/AbstractMongoDBMojo.java:94-104 | settings that pass the check never make `getDatabase` dereference a missing server entry, and server credentials that are used carry a non-empty user name |
| Scripts.GzipNameIff | src/main/java/com/nesting/maven2/mongodb/AbstractMongoDBMojo.java:187 | a file is read as gzip exactly when its last two characters are `g`/`G` then `z`/`Z` |
| Scripts.DecodingFor | src/main/java/com/nesting/maven2/mongodb/AbstractMongoDBMojo.java:185-200 | gzip by the name test above; the platform charset exactly when the configured encoding is blank, else that encoding |
| Scripts.ScriptText | src/main/java/com/nesting/maven2/mongodb/AbstractMongoDBMojo.java:218 | the evaluated text starts with `(function() {` and ends with `})();`, and when no line read contains a newline the lines can be recovered from it unchanged |
| Scripts.BodyRoundTrip | src/main/java/com/nesting/maven2/mongodb/AbstractMongoDBMojo.java:207-212 | splitting the assembled buffer at its newlines gives back the lines read, none trimmed, dropped or merged |
| Scripts.ScriptTextRoundTrip | src/main/java/com/nesting/maven2/mongodb/AbstractMongoDBMojo.java:207-218 | the evaluated text is the wrapper around the buffer, and the lines read can be recovered from it unchanged |
| Scripts.EmptyScriptText | src/main/java/com/nesting/maven2/mongodb/AbstractMongoDBMojo.java:218 | a file with no lines is evaluated as `(function() {})();` |
| Scripts.ExecuteScript | src/main/java/com/nesting/maven2/mongodb/AbstractMongoDBMojo.java:167-230 | fails exactly when the entry is not a readable regular file (`NotAFile`) or reading it fails (an I/O failure carrying the path and message); otherwise records the file, its decoding, the wrapped text and whatever the evaluation did |
| Listing.SortByName | src/main/java/com/nesting/maven2/mongodb/AbstractMongoDBMojo.java:139-144 | the sorted listing is a permutation of the listing, in ascending `compareTo` order of names |
| Listing.SortedOrderUnique | src/main/java/com/nesting/maven2/mongodb/AbstractMongoDBMojo.java:139-144 | two name-sorted arrangements of the same distinctly named entries are equal, so the run order is determined by the names alone |
| Batch.RegularFiles | src/main/java/com/nesting/maven2/mongodb/AbstractMongoDBMojo.java:147-148 | only regular files are visited, and there are no more of them than entries |
| Batch.RegularFilesCount | src/main/java/com/nesting/maven2/mongodb/AbstractMongoDBMojo.java:147-148 | each regular file is visited as often as it is listed, and nothing else is visited |
| Batch.RunFiles | src/main/java/com/nesting/maven2/mongodb/AbstractMongoDBMojo.java:146-155 | the trace is a prefix of the regular files, each evaluated as `executeScript` evaluates it; the loop ends early exactly when a file's `executeScript` fails, and that failure is the result |
| Batch.ScheduleIsSortedRegularFiles | src/main/java/com/nesting/maven2/mongodb/AbstractMongoDBMojo.java:136-148 | the run order is sorted by name and is a permutation of the listing's regular files |
| Batch.ScheduleDeterminedByNames | src/main/java/com/nesting/maven2/mongodb/AbstractMongoDBMojo.java:139-148 | with distinct names, the run order is the one name-sorted arrangement of the regular files |
| Batch.RunDirectory | src/main/java/com/nesting/maven2/mongodb/AbstractMongoDBMojo.java:121-157 | a path that is not a directory fails with "is not a directory" before any script runs; otherwise its scripts run in the order above |
| Batch.LeadingDirectories | src/main/java/com/nesting/maven2/mongodb/AbstractMongoDBMojo.java:336-338 | counts the leading arguments that are directories: every argument before the count is one, and the argument at the count, if any, is not |
| Batch.RunDirectories | src/main/java/com/nesting/maven2/mongodb/AbstractMongoDBMojo.java:336-338 | directories run in argument order over the same session, and the i-th script evaluated is the i-th planned one; the run completes exactly when every argument is a directory and every planned script ran; a script failure is the next planned script's own `executeScript` failure; a `NotADirectory` failure comes only after every script of the leading directories ran, and names the first argument that is not a directory |
| Batch.Rewrap | src/main/java/com/nesting/maven2/mongodb/AbstractMongoDBMojo.java:340-343 | an `IOException` becomes a `MojoExecutionException` carrying it as cause; every other failure passes through unchanged |
| Batch.ExecuteForDirectories | src/main/java/com/nesting/maven2/mongodb/AbstractMongoDBMojo.java:325-344 | a null array fails before anything is opened; a failing `openConnection` ends the call, rewrapped, with nothing else opened; a failing `getDatabase` ends it with the missing-entry dereference and no session; otherwise the trace is the directory loop's trace and the failure is the loop's failure rewrapped, so no raw `IOException` escapes; a session is opened only on an opened client; the run completes exactly when every argument is a directory and every planned script ran |
| Batch.Execute | src/main/java/com/nesting/maven2/mongodb/AbstractMongoDBMojo.java:75-80 | a failed settings check opens nothing and runs nothing; a passed check hands the whole run to `executeForDirectories`, where no missing server entry is dereferenced; scripts run only after a passed check and on a non-null array, and the i-th script evaluated is the i-th planned one; a completed run evaluated every planned script |
| Batch.RunFilesCompletes | src/main/java/com/nesting/maven2/mongodb/AbstractMongoDBMojo.java:146-155 | a directory's loop completes exactly when each of its regular files is readable and reads without an I/O error |
| Batch.RunDirectoriesCompletes | src/main/java/com/nesting/maven2/mongodb/AbstractMongoDBMojo.java:336-338 | the directory loop completes exactly when every argument is a directory and every planned script is a readable file that reads without an I/O error |
| Batch.BatchCompletes | src/main/java/com/nesting/maven2/mongodb/AbstractMongoDBMojo.java:325-344 | `executeForDirectories` completes exactly when the array is non-null, the connection opens, `getDatabase` finds its server entry, every argument is a directory and every planned script reads |
| Batch.CheckedExecuteCompletes | src/main/java/com/nesting/maven2/mongodb/AbstractMongoDBMojo.java:75-80 | after a passed settings check, `execute` completes exactly when the array is non-null, the connection opens, every argument is a directory and every planned script reads: the check rules out the missing server entry |
| Batch.RunFilesIgnoresAnswers | src/main/java/com/nesting/maven2/mongodb/AbstractMongoDBMojo.java:217-228 | what the server answers for a directory's scripts changes neither which scripts run nor whether the loop fails |
| Batch.EvalOutcomesDoNotSteer | src/main/java/com/nesting/maven2/mongodb/AbstractMongoDBMojo.java:217-228 | across directories too, a failed or throwing evaluation never stops or changes the scripts after it |
| SeedCases.SingleMatch | src/main/java/com/nesting/maven2/mongodb/AbstractMongoDBMojo.java:246-266 | a replica-set string with exactly one match connects to that one address, or fails exactly as building it fails |
| SeedCases.LeadingColonIsSkipped | src/main/java/com/nesting/maven2/mongodb/AbstractMongoDBMojo.java:39 | for every plain host `h`, `:h` connects to `h` on 27017 (so `:27017` is a host named `27017`), or fails because `h` does not resolve |
| SeedCases.BlankSegmentGivesEmptyHost | src/main/java/com/nesting/maven2/mongodb/AbstractMongoDBMojo.java:249-256 | `h,` followed by spaces connects to `h` and to an empty host name, both on 27017: the blank host is not rejected |
| SeedCases.BlankSegmentMatches | src/main/java/com/nesting/maven2/mongodb/AbstractMongoDBMojo.java:39 | `h,` followed by spaces is scanned as two host-only matches, the second being the spaces |
| SeedCases.EmptyPortDefaults | src/main/java/com/nesting/maven2/mongodb/AbstractMongoDBMojo.java:253-256 | `h:` connects to `h` on 27017 |
| SeedCases.UnparsablePort | src/main/java/com/nesting/maven2/mongodb/AbstractMongoDBMojo.java:253-254 | `h:p`, with `p` not blank and not a 32-bit decimal, fails with the port text `p` |
| SeedCases.SecondColonIsPortText | src/main/java/com/nesting/maven2/mongodb/AbstractMongoDBMojo.java:39 | `h:p:q` fails with the port text `p:q`: a second colon belongs to the port text |
| SeedCases.PortIsNotTrimmed | src/main/java/com/nesting/maven2/mongodb/AbstractMongoDBMojo.java:253-254 | `h: ` followed by digits fails with the port text starting with the space, although the digits alone would parse |
| SeedCases.SeparatorsOnlyFallBack | src/main/java/com/nesting/maven2/mongodb/AbstractMongoDBMojo.java:264-273 | a replica-set string of colons and commas only finds no seed, and the default host on 27017 is used |
| BatchCases.ScheduleIsByName | src/main/java/com/nesting/maven2/mongodb/AbstractMongoDBMojo.java:139-148 | `b.js`, a sub-directory, `a.js` and `c.js.gz` run as `a.js`, `b.js`, `c.js.gz` |
| BatchCases.ScheduleIsNotNumeric | src/main/java/com/nesting/maven2/mongodb/AbstractMongoDBMojo.java:140-143 | `10.js` runs before `9.js`: the order is by character, not by number |

## Left out

- The MongoDB driver calls are not modelled beyond their inputs and outcome: `new Mongo(...)`, `getDB`, `authenticate`, `doEval` and `dropDatabase`. A `Client` records what `new Mongo` is given, and a `Session` records the database and the credentials `authenticate` is called with.
- Whether authentication succeeds is not modelled. The driver call's outcome is not observable from this code.
- `dropDatabase` (lines 318-320) is a single driver call with nothing to state beyond its argument.
- `DB.doEval`'s effect on the server is not modelled. `eval` is a function of the script text only, so server state carried from one script to the next is abstracted away.
- File I/O is left to the `read` oracle: opening, gzip decompression, charset decoding and `readLine`'s line splitting. Closing the readers is also omitted.
- `listFiles` returning `null` is not modelled: a directory's listing is always a sequence. This covers an I/O error while listing and a directory removed after the `isDirectory` test. In Java that case is a `NullPointerException` inside `Arrays.sort`.
- Logging is omitted: `getLog()`, the per-script timing (`System.currentTimeMillis` and the `double` elapsed seconds), and the warnings for evaluations that are not ok.
- The injection of `dbConnectionSettings`, `settings` and `scriptEncoding` is not modelled; they are parameters.
- `MongoDBTrainingMojo.executeInternal` is not modelled as a member: it only passes its configured directories to `executeForDirectories`, which `Batch.Execute` calls directly.
- `JavaText.CompareTo` compares Unicode scalar values, while Java compares UTF-16 code units. The two orders differ only for names that mix supplementary characters with characters in U+E000..U+FFFF.
- `JavaText.UpperAscii` upper-cases ASCII letters only. Java's `toUpperCase` also maps other letters, and can lengthen a string (`ß` becomes `SS`). For the two-character `GZ` test this matters only for names ending in non-ASCII letters that upper-case to `G` or `Z`.
- `JavaText.ParseInt` accepts ASCII digits only. `Integer.parseInt` also accepts other Unicode decimal digits.
- `JavaText.ParseInt` accepts a leading `+`, as `Integer.parseInt` does from Java 7 on. On an older runtime a port text such as `+27017` would be a `NumberFormatException` instead.
- `Connection.OpenConnection` treats a null host name as the driver's default host without modelling what that host is. It also does not model the driver rejecting a port outside 0..65535 when the connection is used.
- Concurrency and the driver's own connection pooling are not modelled.
