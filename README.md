# ScmNotifier polling core, in Dafny

ScmNotifier watches a list of local git working copies. For every local branch that
tracks a remote branch, it asks the remote host for that branch's last commit. It
reports a notify item when the remote has moved to a hash that was not reported
before. This project models that polling core of `GitManager`:

- the ssh query built from a remote's URL (`Remote.GetCommand`);
- the two line parsers: `ParseCommit` reads the tagged `git log` template line, and
  `ParseMinimalCommit` reads a `git ls-remote --heads` line;
- the `.git/config` reader (`LoadBranches`, `LoadRemote`, `LoadBranch`,
  `GetBranchLastCommit`), a line-driven loop over a `StreamReader`;
- the two-tier remote query with its per-path cache (`GetRemoteItems`,
  `GetMinimalRemoteItems`);
- the change detector `GetNewItems`, with its record of the last hash reported per
  working copy and branch;
- one cycle of the worker loop: reload, the all-error classification, and the
  tick-counted wait.

The model also covers the string helpers of `StringExtensions` that the core uses, and
`TimeHelper.FromTimeSpan`.

How the outside world is represented:

- **Running a program.** `git` and `ssh` are never run. Every operation that would run
  one takes an `Exec` oracle (module `Process`). The oracle maps a command (program,
  arguments, working directory) to the lines the program printed, or to the message of
  the exception the call raised.
- **Config files.** The `.git/config` files are a map from working-copy path to the
  file's lines. A path missing from the map has no config file.
- **Null and exceptions.** A C# `null` is `None`. An exception is a `Fail(message)`.
- **Project names.** `GetProjectName` is a function parameter from path to name.
- **GitManager.** `GitManager` is a class whose fields are the object's mutable state:
  the working copies, the period, the hash record, the reload flag and the cache.
  Its methods are proved against functions of the old state and the inputs. The
  properties the source promises are proved as lemmas about those functions.
- **Loops.** Each reading loop is a `while` loop whose invariant ties the state so far
  to a specification function of the input read so far.

Modules:

| module | file | contents |
|---|---|---|
| `Base` | base.dfy | Option, Result; in-order map, first hit and filter-map over sequences |
| `StringExtensions` | strings.dfy | the extension methods and the .NET `Split`/`Trim` they use |
| `TimeHelper` | time_helper.dfy | `FromTimeSpan` over the day/hour/minute/second components |
| `Patterns` | patterns.dfy | building blocks for the hand-written regex recognisers |
| `Process` | process.dfy | the `Exec` oracle |
| `Remotes` | remotes.dfy | `Remote`, its URL pattern and `GetCommand` |
| `Commits` | commits.dfy | `Commit`, `RemoteBranch`, `Branch`, the two line parsers |
| `Config` | config.dfy | the config scanner, branch building and remote lookup |
| `Manager` | manager.dfy | the cache, change detection, one poll pass, the period, the `GitManager` class |

## Model

| member | source | states |
|---|---|---|
| `StringExtensions.IsEmpty` | StringExtensions.cs:47-55 | throws exactly on null; otherwise true iff the string has length 0 |
| `StringExtensions.IsNotEmpty` | StringExtensions.cs:57-60 | throws exactly on null; otherwise true iff the length is positive |
| `StringExtensions.IsNotNullOrEmpty` | StringExtensions.cs:62-65 | never throws; true iff non-null and non-empty |
| `StringExtensions.IsNullOrEmpty` | StringExtensions.cs:72-75 | true iff null or "" |
| `StringExtensions.NullOrEmptyIsComplement` | StringExtensions.cs:62-75 | `IsNullOrEmpty` is the exact negation of `IsNotNullOrEmpty`, and the short-circuit guards `IsEmpty` from a null |
| `StringExtensions.ToNullIfEmpty` | StringExtensions.cs:104-107 | null and "" give null; any other string is returned unchanged |
| `StringExtensions.ToNullIfEmptyIdempotent` | StringExtensions.cs:104-107 | applying it twice equals applying it once, and null-or-emptiness is kept |
| `StringExtensions.GetShort` | StringExtensions.cs:19-33 | as written: null throws; a string no longer than `length` is returned as is; a longer one gives its first 7 characters and "...", or throws when it is shorter than 7 |
| `StringExtensions.GetShortToLength` | StringExtensions.cs:19-33 | corrected: a longer string is cut to `length` characters and "..." is appended |
| `StringExtensions.GetShortToLengthBounded` | StringExtensions.cs:19-33 | the corrected version never throws for a non-negative `length` and returns at most `length` + 3 characters |
| `StringExtensions.GetShortIgnoresLength` | StringExtensions.cs:27-30 | concrete inputs where the code as written cuts to 7 instead of `length`, and where it throws |
| `StringExtensions.IsAlfaDigit` | StringExtensions.cs:35-45 | true for null and ""; true for all-word-character strings; when true, every character is a word character, except that the last one may be a line feed |
| `StringExtensions.UpperFirstChar` | StringExtensions.cs:114-122 | null throws; the length is kept, the first character is upper-cased and the rest is unchanged |
| `StringExtensions.IndexOf` | StringExtensions.cs:93 | the first occurrence of a separator, or none when it does not occur |
| `StringExtensions.SplitChar` | StringExtensions.cs:101 | `String.Split(char)`: at least one piece, no piece holds the separator, and joining the pieces gives the input back |
| `StringExtensions.JoinSplitRoundTrip` | StringExtensions.cs:101 | splitting a join of separator-free pieces gives the pieces back |
| `StringExtensions.Split` | StringExtensions.cs:89-97 | null throws; "" gives no pieces; otherwise the pieces, empty ones kept, join back to the input and hold no separator |
| `StringExtensions.Trim` | StringExtensions.cs:101 | the result is trimmed and stands in the input with only white space before and after it |
| `StringExtensions.TrimKeepsTrimmed` | StringExtensions.cs:101 | trimming a trimmed string changes nothing |
| `StringExtensions.LastSegment` | GitManager.cs:135 | `Split(c).Last()`: a suffix of the input holding no `c`, preceded by `c` when shorter than the input |
| `StringExtensions.LastSegmentOfPath` | GitManager.cs:135 | the last segment of `dir + c + name` is `name` when `name` holds no `c` |
| `StringExtensions.SplitNotEmpty` | StringExtensions.cs:99-102 | null throws; every element is non-empty, trimmed and free of the separator |
| `StringExtensions.SplitNotEmptyOfJoin` | StringExtensions.cs:99-102 | splitting a join of non-empty trimmed entries gives the entries back, in source order |
| `TimeHelper.TruncDiv` | TimeHelper.cs:24-27 | C#'s `/`: the quotient truncated toward zero, with the dividend's sign |
| `TimeHelper.TruncRem` | TimeHelper.cs:24-27 | C#'s `%`: dividend = truncated quotient × divisor + remainder; the remainder is smaller than the divisor in magnitude and takes the dividend's sign |
| `TimeHelper.NegativeSpanComponents` | TimeHelper.cs:24-27 | a negative span has no positive component |
| `TimeHelper.NatToString` | TimeHelper.cs:20 | the decimal digits of a number, without leading zeros, denote that number |
| `TimeHelper.PresentParts` | TimeHelper.cs:16-27 | at most one part per component |
| `TimeHelper.PresentPartsNone` | TimeHelper.cs:18-27 | there is no part iff no component is positive |
| `TimeHelper.AppendPart` | TimeHelper.cs:16-22 | appends " n unit[s]" exactly when the part is positive |
| `TimeHelper.BuilderSteps` | TimeHelper.cs:16-27 | the four appends leave the builder holding one space before each present part, in day/hour/min/sec order |
| `TimeHelper.FromTimeSpan` | TimeHelper.cs:12-30 | the builder loop trimmed equals `Describe`, the present parts separated by single spaces |
| `TimeHelper.BuilderText` | TimeHelper.cs:29 | trimming the builder's text removes exactly its leading space |
| `TimeHelper.DescribeEmptyIff` | TimeHelper.cs:18-29 | the result is "" iff no component is positive, in particular for every negative span |
| `TimeHelper.DescribeTrimmed` | TimeHelper.cs:29 | the result has no leading or trailing white space |
| `TimeHelper.PartPlural` | TimeHelper.cs:20 | a part ends in "s" iff its value is more than one |
| `TimeHelper.DescribeExample` | TimeHelper.cs:12-30 | one day, two hours and five seconds give "1 day 2 hours 5 secs" |
| `Remotes.ReplaceChar` | GitManager.cs:119 | `Replace('"', '\'')`: the length is kept and exactly the matching characters change |
| `Remotes.ReplaceCharRemoves` | GitManager.cs:119 | no replaced character is left |
| `Remotes.ReplaceAll` | GitManager.cs:532 | `Replace("%BRANCH_NAME%", name)` leaves a text without the placeholder unchanged |
| `Remotes.QuotedGitLogUnquoted` | GitManager.cs:60 | the log template as the ssh command carries it holds no double quote |
| `Remotes.StripSchemes` | GitManager.cs:69 | `(ssh://)*` takes every leading `ssh://`, and the rest does not start with one |
| `Remotes.MatchSshUrl` | GitManager.cs:69 | a match gives well-formed groups that render back to the URL |
| `Remotes.MatchSshUrlOfRender` | GitManager.cs:69 | every well-formed group tuple is matched back from the URL it renders |
| `Remotes.GetCommand` | GitManager.cs:110-128 | the command is "" iff the URL does not match the pattern |
| `Remotes.GetCommandOfRender` | GitManager.cs:110-128 | with a separator: `-n user@host "cd path && git <log>"`; without: `-n user@host "git <log>"` |
| `Remotes.NewRemote` | GitManager.cs:72-77 | name and URL kept; the command is computed once, "" iff the URL does not match |
| `Remotes.HasLastCommitCommand` | GitManager.cs:97-103 | true iff the command is non-empty |
| `Remotes.HasLastCommitCommandIff` | GitManager.cs:72-103 | a remote can be asked over ssh iff its URL matches the ssh pattern |
| `Commits.FullCommit` | GitManager.cs:174-183 | fields kept, not short; a null or empty date becomes "now" |
| `Commits.ShortCommit` | GitManager.cs:185-189 | only hash and branch; the other fields are null and the commit is short |
| `Commits.NewRemoteBranch` | GitManager.cs:133-138 | the name is the text after the last `/` of the branch path and holds no `/` |
| `Commits.RemoteBranchNameOf` | GitManager.cs:135 | `refs/heads/<name>` gives the name `<name>` |
| `Commits.MatchLsRemote` | GitManager.cs:382 | a match gives well-formed groups that render back to the line |
| `Commits.MatchLsRemoteOf` | GitManager.cs:382 | every well-formed `hash ws refpath` line is matched back into its groups |
| `Commits.ParseMinimalCommit` | GitManager.cs:606-623 | a commit iff the line matches; short, with the matched hash, null details and a branch free of `/` |
| `Commits.ParseMinimalCommitOf` | GitManager.cs:606-623 | `hash ws dir/name` parses to the short commit of `name` |
| `Commits.SplitField` | GitManager.cs:387 | a field ends at the first occurrence of its delimiter, with the rest after it |
| `Commits.MatchRefs` | GitManager.cs:387 | the `%d` part is one white space character, a parenthesised non-empty list free of parentheses, and `>6` |
| `Commits.MatchLogLine` | GitManager.cs:387 | a match gives well-formed groups that render back to the line |
| `Commits.MatchLogLineOf` | GitManager.cs:387 | every well-formed log line is matched back into the values it was printed from |
| `Commits.BranchLabel` | GitManager.cs:631-639 | the label is trimmed and holds no comma |
| `Commits.BranchLabelOfRefList` | GitManager.cs:631-639 | for a `", "`-separated ref list, the label is the last ref |
| `Commits.ParseCommit` | GitManager.cs:625-643 | a commit iff the line matches the log pattern; a full commit with the matched fields and the label of the ref list |
| `Commits.ParseCommitRoundTrip` | GitManager.cs:625-643 | printing with the log template and parsing gives the commit back, labelled with its last ref |
| `Config.MatchHeader` | GitManager.cs:383-384 | a header match gives a non-empty name without `"` that renders back to the line |
| `Config.MatchHeaderOf` | GitManager.cs:383-384 | `[remote "n"]` and `[branch "n"]` are matched back to `n` |
| `Config.MatchValueLine` | GitManager.cs:385 | a field-line match gives well-formed key and value that render back to the line |
| `Config.MatchValueLineOf` | GitManager.cs:385 | every well-formed field line is matched back into its key and value |
| `Config.ValueLineIsNoHeader` | GitManager.cs:383-385 | a field line never opens a section |
| `Config.LastValue` | GitManager.cs:731-738 | the value of the last field with the key; none iff no field has it |
| `Config.RemoteFromFieldLine` | GitManager.cs:692-717 | a field line other than `url` inside a remote section is skipped and reading goes on with the next line |
| `Config.BranchFromFieldLine` | GitManager.cs:722-750 | a `remote` or `merge` field replaces the value held, and reading goes on with the next line |
| `Config.RemoteFromNoUrl` | GitManager.cs:692-717 | a remote section without `url` gives "" and stops at the line that ends the section, keeping that line |
| `Config.RemoteFromUrl` | GitManager.cs:692-703 | the first `url` value is the URL, and reading stops right after that line |
| `Config.BranchFromFields` | GitManager.cs:722-750 | a branch section keeps the last `remote` and `merge` value and stops at the line that ends it, keeping that line |
| `Config.RemoteSectionWithoutUrl` | GitManager.cs:659-717 | a `[remote "n"]` section without a URL declares remote n with "" and the line that ended it is scanned again |
| `Config.RemoteSectionUrl` | GitManager.cs:659-717 | a `[remote "n"]` section declares n with its first `url` value |
| `Config.BranchSection` | GitManager.cs:659-757 | a `[branch "n"]` section declares n with its last `remote` and `merge` values, and the ending line is scanned again |
| `Config.NonHeaderSkipped` | GitManager.cs:661-681 | a top-level line that is no header is skipped |
| `Config.LastCommitOf` | GitManager.cs:760-778 | fails exactly when the git call fails |
| `Config.GetBranchLastCommit` | GitManager.cs:760-778 | the reading loop returns the first line of the output that parses as a log line, or null |
| `Config.BuildBranch` | GitManager.cs:752-757 | linked iff both `remote` and `merge` are non-empty; only then is git asked for the last commit, and its failure is the only failure |
| `Config.Named` | GitManager.cs:754 | exactly the remotes with that name |
| `Config.Single` | GitManager.cs:754 | succeeds iff exactly one remote has the name; otherwise fails with the no-element or more-than-one message |
| `Config.Resolve` | GitManager.cs:754 | a linked branch gets the one remote of its name, the merge path and its last commit; an unlinked branch gets neither |
| `Config.LoadBranchesSpec` | GitManager.cs:645-688 | a working copy without a config file fails with "Invalid git dir: <path>" |
| `Config.LoadBranchesShape` | GitManager.cs:645-688 | on success, one branch per branch section in file order, linked iff both values are non-empty, bound to the only remote of that name anywhere in the file |
| `Config.LineReader.ReadLine` | GitManager.cs:659 | returns the next line and consumes it, or null at the end |
| `Config.LoadRemote` | GitManager.cs:690-718 | the remote and the line that stopped it, as `RemoteFrom` of the lines after the header |
| `Config.LoadBranch` | GitManager.cs:720-758 | the branch and the line that stopped it, as `BranchFrom` and `BuildBranch` of the lines after the header |
| `Config.LoadBranches` | GitManager.cs:645-688 | the scanning loop returns `LoadBranchesSpec` |
| `Config.ResolveBranches` | GitManager.cs:685 | every branch's remote is looked up in order, and the first failing lookup fails the call |
| `Config.ResolveStep` | GitManager.cs:685 | a branch whose remote is found joins the resolved list |
| `Config.ResolveStops` | GitManager.cs:685 | the first failing lookup is the result of the whole list, whatever follows it |
| `Base.CollectLines` | GitManager.cs:580-593 | the reading loop keeps, in order, every value the parser gives |
| `Manager.RemoteItemsCache` | GitManager.cs:519-564 | a cache hit returns the entry and runs no command; otherwise at most this key is added, holding what is returned |
| `Manager.RemoteItemsTwice` | GitManager.cs:519-604 | a second query returns the same result and leaves the cache as the first did |
| `Manager.RemoteItemsSsh` | GitManager.cs:523-554 | without a cached entry, an ssh answer with a line that parses gives every parsed commit in order, cached under the key |
| `Manager.RemoteItemsFallback` | GitManager.cs:549-597 | an ssh answer with no parseable line falls back to ls-remote, whose result is cached even when empty |
| `Manager.FirstWithLabel` | GitManager.cs:810 | the first remote item with that branch label, or none iff no item has it |
| `Manager.SetHash` | GitManager.cs:814-835 | the record holds the hash for this path and branch, and every other entry is unchanged |
| `Manager.DetectReports` | GitManager.cs:807-836 | an item is emitted iff the labelled remote item exists, differs from the local last commit and is not the recorded hash; the record is then set and nothing else changes |
| `Manager.DetectIdempotent` | GitManager.cs:812-835 | running the comparison again on the same data emits nothing and changes nothing |
| `Manager.ScanBranchesFrame` | GitManager.cs:807-837 | the branch loop only adds items, adds no error, and never forgets a recorded hash |
| `Manager.ScanBranchesReports` | GitManager.cs:807-837 | every record the branch loop changes is for this path, and an item with that branch name carries the new hash |
| `Manager.ScanStops` | GitManager.cs:807-846 | a failing branch ends the working copy's branch loop |
| `Manager.CheckPathLoadFails` | GitManager.cs:799-846 | a working copy whose branches cannot be loaded adds one error naming its path and changes nothing else |
| `Manager.ScanKeepsErrors` | GitManager.cs:799-846 | one working copy adds at most one error, naming its path |
| `Manager.NewItemsErrors` | GitManager.cs:797-846 | errors grow by at most one per working copy, earlier ones are kept, and each names a watched path |
| `Manager.NewItemsReports` | GitManager.cs:792-852 | items are kept, no recorded hash is forgotten, and every changed record is for a watched path and reported by an item with the new hash |
| `Manager.PeriodMs` | GitManager.cs:391 | corrected: at least 1000 ms, a multiple of 1000, and the period times 1000 for a period of one second or more |
| `Manager.Wrap32` | GitManager.cs:391 | C#'s unchecked 32-bit result: in the int range and congruent to the exact value |
| `Manager.Ticks` | GitManager.cs:923-930 | the number of 1000 ms ticks the wait loop counts down from a timeout |
| `Manager.PeriodOverflow` | GitManager.cs:391 | the period as written agrees up to 2147483 s; from 2147484 s it wraps negative and the loop does not wait |
| `Manager.PeriodTicks` | GitManager.cs:391 | the corrected period waits one tick per second of the clamped period |
| `Manager.GitManager.constructor` | GitManager.cs:373-398 | the paths kept, the corrected clamped period `PeriodMs` (not the wrapped product; see Left out), an empty record and cache, no reload pending |
| `Manager.GitManager.Reload` | GitManager.cs:435-438 | a reload is pending |
| `Manager.GitManager.GetMinimalRemoteItems` | GitManager.cs:566-604 | result and new cache are `MinimalRemoteItems` of the old cache |
| `Manager.GitManager.GetRemoteItems` | GitManager.cs:519-564 | result and new cache are `RemoteItems` of the old cache |
| `Manager.GitManager.CheckBranch` | GitManager.cs:807-837 | one branch of the loop: record, cache, items and failure as `BranchPass` |
| `Manager.GitManager.ProcessPath` | GitManager.cs:799-846 | one working copy: record, cache, items and errors as `CheckPath` |
| `Manager.GitManager.ScanAll` | GitManager.cs:807-837 | the branch loop of one working copy: record, cache, items and the failure that stopped it, as `ScanBranches` |
| `Manager.GitManager.GetNewItems` | GitManager.cs:792-852 | the pass over all working copies, as `NewItems` from an empty result |
| `Manager.GitManager.RunCycle` | GitManager.cs:898-911 | a pending reload clears the record and resets the flag; the cache is cleared; all-error iff there are errors and no items |
| `Manager.GitManager.Wait` | GitManager.cs:923-930 | one tick after an all-error cycle, else the period; never more ticks than that; stops early only on cancel or reload |

## Left out

- `Exec`, `ProcessBufferHandler` and `ProcessUtil`: running programs, reading their streams, the HOME variable and killing a process tree are the `Exec` oracle. Its failure message stands for the exception, including the one-minute timeout (`Process.Timeout`).
- Reading a program's output: the oracle gives the output as lines. An exited process with no output is `Output([])`.
- The multiline anchors of `_RgxRemote` and `_RgxLogLine` are applied to one line at a time, because a line of the output holds no line feed.
- `BackgroundWorker`, `Start`, `Stop`, `IsStarted`, `ReportProgress` and the events are not modelled. The outer `while (true)` loop with its cancel check is not modelled either. One cycle is `RunCycle` followed by `Wait`.
- `Worker_DoWork`'s own `catch` is left out: in the model `GetNewItems` cannot fail, because every working copy's failure is caught per path.
- `Manager.GitManager.constructor`: the class stores the corrected `Manager.PeriodMs`, not the wrapped `Manager.PeriodAsWritten` that line 391 computes (see Findings). From 2147484 s on, the model waits the full period where the source does not wait at all.
- `Manager.GitManager.Wait`: cancel and a concurrent `Reload` are one observation function `interrupted(k)`, read before each tick. `Thread.Sleep` is not modelled.
- `Commit.Date`: the date is kept as the text git printed. `DateTime.Parse` and `DateTime.Now` are not modelled; `None` stands for "now".
- `Commits.FullCommit`: a date text that `DateTime.Parse` rejects is accepted here. In the source that `FormatException` would fail `GetBranchLastCommit`, and with it the working copy, or it would fail the remote query. The `%ai` date git prints always parses, so the model drops this failure path.
- `GetProjectName` is a function parameter, because it asks the file system whether the directory exists.
- `Log`, `Debug.WriteLine` and the `ToString` texts are not modelled. Their one effect on behaviour is kept: logging a branch at line 685 evaluates its lazy remote lookup. So `Config.LoadBranches` resolves every linked branch once the file is read, and an unknown or ambiguous remote name fails the working copy there.
- `Directory.SetCurrentDirectory` and `FileInfo.Exists` are not modelled. The working directory is part of `Command`, and existence is membership in the config map.
- The null check on `projectPathes` in the constructor is not modelled: the paths are a sequence, never null.
- `Manager.CacheKey`: a remote or branch name that itself contains `|` can collide with another key. The model keeps the key as written and proves nothing about distinct branches sharing a cache entry.
- `StringExtensions.IsWordChar` and `StringExtensions.IsWhiteSpace`: `\w`, `\s` and `Char.IsWhiteSpace` are approximated by their ASCII members. Non-ASCII letters and spaces are not modelled.
- `StringExtensions.UpperFirstChar`: the culture's upper-casing is a parameter mapping one character to one character. Culture mappings that change the length are not modelled.
- `StringExtensions.IsAlfaDigit`: the two directions are stated apart. A string of word characters gives true. A true result only says that every character but a final line feed is a word character, because `$` also matches before a final line feed.
- `Compare`, `Upper`, `ParseEnum` and `IsNotNullOrWhiteSpace` depend on culture tables or reflection, or are not used by the core, and are not modelled.
- `Commits.MatchLogLine`: each `[^\0]+` field ends at the first occurrence of its delimiter. The .NET engine backtracks from the greedy end instead. Both agree on a line in which no field and not the text after `)>6` holds any of `>2 <`, `>3 <`, `>4 <`, `>5 <`. `Commits.MatchLogLineOf` and `Commits.ParseCommitRoundTrip` cover a wider set: each field is only free of its own delimiter. On a line such as `<h>1 <A>2 <e>2 <f>3 <d>3 <g>4 <s>5 < (r)>6` the model reads author `A`, email `e>2 <f` and date `d>3 <g`, while .NET reads author `A>2 <e`, email `f>3 <d` and date `g`.
- The throws at lines 614-617 and 633-636 cannot happen, because `Split` always returns at least one piece (`StringExtensions.SplitChar`). They are not modelled as a separate path.
- `Remotes.ReplaceAll`: the contract only states that a text without the placeholder is unchanged.
- ObjectExtensions.cs, StartUpHelper.cs and MainWindow.xaml.cs (reflection, the registry and the WPF window) are not part of this model.

## Findings

| source | as written | input that shows it | evidently intended | confidence | as-written member | corrected member |
|---|---|---|---|---|---|---|
| GitManager.cs:391 | `Math.Max(periodInSeconds, 1) * 1000` in unchecked 32-bit `int` | a period of 2147484 s: the product wraps to -2147483296 ms, so the wait loop at 923-930 never waits and the worker polls without pause | wait the given period (at least one second) | not executed | `Manager.PeriodAsWritten`, `Manager.PeriodOverflow` | `Manager.PeriodMs`, `Manager.PeriodTicks` |
| StringExtensions.cs:29 | `str.Substring(0, 7)` ignores the `length` argument | `GetShort("abcdefgh", 3)` gives "abcdefg..."; `GetShort("abcd", 2)` throws `ArgumentOutOfRangeException` | cut to `length` characters: "abc...", "ab..." | not executed | `StringExtensions.GetShort`, `StringExtensions.GetShortIgnoresLength` | `StringExtensions.GetShortToLength`, `StringExtensions.GetShortToLengthBounded` |
