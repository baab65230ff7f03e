# lintblame, modelled in Dafny

lintblame watches a set of Python and Go files, and re-runs `pep8`, `pylint` and
`go build` on them whenever one changes. It files every reported issue (a *wart*)
under its line number, next to the `git blame` author of that line. This project
models the pure logic of `lintblame.go` and proves properties about it:

- **ChangeTracker** (`change_tracker.dfy`) models `ModifiedTimes`, which maps each
  path to the last modification time seen for it.
  - `CheckTime` compares a fresh `os.Stat` result with the stored time.
  - `MostRecent` finds the latest path.
  - `PathsByModTime` sorts the times, then maps them back to paths through a
    time-to-path table.
  - Go's map iteration order is an explicit parameter, `order`, together with a
    predicate saying that it lists every key once.
  - `time.Time` is an integer clock whose zero value is `0`.
- **Poll** (`poll.dfy`) models `main`.
  - On startup every path is checked once.
  - Each tick checks the paths in order and stops at the first change. It then
    dispatches the paths by modification time.
  - Each `os.Stat` result is an input.
- **Warts** (`warts.dfy`) models `Wart`, `NewWart`, `Wart.String`, and `TargetFile`
  with `AddWart` and `ExtEquals`.
  - `log.Fatal` is a `Failure` carrying the `Fatal` datatype.
- **Adapters** (`adapters.dfy`) models the `Pep8`, `PyLint` and `GoBuild` adapters
  and `NewTargetFile`.
  - Each adapter receives the capture groups its pattern produced on the tool's
    output.
  - Each adapter is gated by the file's extension.
  - Each adapter maps the groups into `NewWart` in its own field order.
- **GitBlame** (`git_blame.dfy`) models `Blame` and `BlameName`.
- **PylintPattern** (`pylint_pattern.dfy`) recognises the pylint pattern
  `(?m)^(\w):\s+(\d+),\s*(\d+):\s(.+)$` on a single line.
- **Paths** (`paths.dfy`) models `filepath.Ext`, the unanchored extension pattern
  `.py|.go`, and `filterFiles`.
- Supporting modules, written to match the Go standard library behaviour that
  lintblame relies on:
  - **Decimal** (`decimal.dfy`): `strconv.ParseInt(s, 10, 0)` on a 64-bit
    platform, and `%d`.
  - **Text** (`text.dfy`): `strings.Split` and `strings.TrimSpace`.
  - **Seqs** (`seqs.dfy`): sequence and sorting facts.

Facts about the code that the model keeps:

- `PathsByModTime` sorts the tracked times ascending (lintblame.go:145) and maps
  each time back to a path through a time-to-path table (lintblame.go:142, 148).
- `BlameName` returns "-" when there are no blame lines (lintblame.go:260-261).
- The watch loop re-analyses files only after a detected change
  (lintblame.go:435-447).

Two behaviours of the code stand out in the proofs:

- When two tracked files share a modification time, the table keeps only the
  path iterated last (`ChangeTracker.TimesToPathsLastWins`), so the path
  iterated first is missing from `PathsByModTime`
  (`ChangeTracker.TiedPathLost`). Only with distinct times is the output a
  permutation of the tracked paths.
- The extension test `.py|.go` is unanchored, and its `.` matches any character
  except a newline. It therefore keeps `a.pyc` and `b.gox` as well as `.py` and
  `.go` files (`Paths.KeepsLooseExtensions`).

## Model

| member | source | states |
|---|---|---|
| ChangeTracker.NewModifiedTimes | lintblame.go:153-155 | A new tracker has seen no path. |
| ChangeTracker.CheckTime | lintblame.go:98-120 | It reports a change exactly when the stat succeeds and the path is unseen or its stored time differs. Only then is the new time stored. A successful stat always leaves the observed time stored. |
| ChangeTracker.CheckTimeTwice | lintblame.go:98-120 | A second check with the same observation reports no change and alters nothing. |
| ChangeTracker.CheckTimeStatFails | lintblame.go:101-103 | A failed stat reports no change and leaves the tracker as it was. |
| ChangeTracker.CheckTimeBackwards | lintblame.go:107-110 | A file whose modification time moves backwards counts as changed, because the code compares the times only for equality. |
| ChangeTracker.MostRecent | lintblame.go:122-132 | The result is "" when no time is after the zero time. Otherwise it is a tracked path with the maximum time, the first such path in iteration order. |
| ChangeTracker.TimesToPaths | lintblame.go:137-144 | Every tracked time is a key of the table, and each entry maps a time to a path that has that time. |
| ChangeTracker.PathsByModTime | lintblame.go:134-151 | There is one output entry per tracked path, and every entry is a tracked path. The times along the output ascend and are a rearrangement of the tracked times. |
| ChangeTracker.PathsByModTimeTimes | lintblame.go:145-149 | The times along the output are exactly the sorted tracked times. |
| ChangeTracker.TableInverts | lintblame.go:140-143 | With distinct times, the table sends each path's time back to that path. |
| ChangeTracker.PathsByModTimePermutation | lintblame.go:134-151 | With distinct times, the output is a permutation of the tracked paths: each path appears exactly once. |
| ChangeTracker.PathsByModTimeTimesIndependent | lintblame.go:140-149 | The times along the output do not depend on the map's iteration order, even when times tie. |
| ChangeTracker.PathsByModTimeOrderIndependent | lintblame.go:134-151 | With distinct times, the output does not depend on the map's iteration order. |
| ChangeTracker.TimesToPathsLastWins | lintblame.go:140-143 | A time's entry in the table is the path iterated last among the paths with that time. |
| ChangeTracker.TimesToPathsOverwrites | lintblame.go:140-143 | A path that a later path's equal time overwrites has lost its entry in the table. |
| ChangeTracker.OutputOwnsTime | lintblame.go:147-149 | Every listed path is the owner of its own time in the table. |
| ChangeTracker.TiedPathLost | lintblame.go:134-151 | When two tracked paths share a time, the one iterated first is missing from the output. |
| ChangeTracker.TiedTimesCollapse | lintblame.go:140-148 | Two paths "a", "b" with the same time, iterated in that order, come out as "b", "b". |
| ChangeTracker.ExampleTimesDistinct | lintblame_test.go:13-16 | The three example times (two days ago, one day ago, now) are distinct and ascend in the order ghi, abc, def. |
| ChangeTracker.ExpectedOrder | lintblame_test.go:18-21 | The regression example comes out as "ghi", "abc", "def" for every iteration order. |
| Seqs.Sort | lintblame.go:145 | The result ascends and is a rearrangement of the input. |
| Seqs.AscendingUnique | lintblame.go:145 | Two ascending rearrangements of the same values are equal, so which sort algorithm runs does not matter. |
| Poll.Track | lintblame.go:431-433 | After a pass, exactly the previously tracked paths plus every path with a successful stat are tracked. |
| Poll.TrackLastObserved | lintblame.go:431-433 | Each path stores the time of its last successful stat in the pass. |
| Poll.TrackUnobserved | lintblame.go:431-433 | A path whose every stat failed keeps its earlier time. |
| Poll.Startup | lintblame.go:428-433 | After startup, exactly the paths with a successful stat are tracked. |
| Poll.StartupTimes | lintblame.go:428-433 | After startup, each tracked path holds the time of its last successful stat. |
| Poll.Tick | lintblame.go:436-442 | A tick asks for an update exactly when some path changed. It then stores only the first changed path's time. A quiet tick changes nothing. |
| Poll.Dispatch | lintblame.go:443-445 | A tick dispatches a list exactly when it asks for an update. The list has one entry per tracked path, every entry is tracked, and the stored times along it ascend, as `PathsByModTime` promises. |
| Poll.DispatchCoversAllPaths | lintblame.go:443-445 | With distinct times, an update covers every tracked path, not only the changed one. |
| Poll.SettlePath | lintblame.go:437-441 | Storing one pending path's time removes that path, and only that path, from the pending set. |
| Poll.TickSettlesOnePath | lintblame.go:435-447 | While the files stay unchanged, a tick updates exactly when something is pending, and it settles exactly one pending path. |
| Poll.QuietTickStaysQuiet | lintblame.go:436-446 | A tick right after a quiet tick is quiet too (a corollary of Poll.Tick). |
| Warts.NewWart | lintblame.go:187-205 | It succeeds exactly when both numbers parse. The line is checked before the column. Text fields are copied unchanged. Digit strings that fit in an int give their own values. |
| Warts.NewWartFormat | lintblame.go:187-205 | A wart whose numbers are printed with %d is rebuilt exactly. |
| Warts.WartString | lintblame.go:165-167 | The string is `"%d: [%s %s] %s"` of line, reporter, issue code and message; the text before the first ':' is the line printed with %d, and the message ends the string. |
| Warts.WartStringLine | lintblame.go:165-167 | The text of a rendered wart before its first ':' parses back to the wart's line. |
| Warts.AddWart | lintblame.go:211-216 | The wart is appended to its own line's list, which is created if needed. Every other line and field is unchanged. Filing stays well formed. |
| Warts.AddWartTotal | lintblame.go:211-216 | Adding a wart raises the number of filed warts, over all lines, by exactly one. |
| Warts.AddWarts | lintblame.go:225-228 | Adding warts one by one keeps the path, content and blame lines, and keeps filing well formed. |
| Warts.AddWartsAt | lintblame.go:211-216 | After adding a batch, each line holds its earlier warts followed by the batch's warts for that line, in order. |
| Warts.AddWartsLines | lintblame.go:211-216 | A line has warts afterwards exactly when it had some before or a new wart names it. |
| Warts.ExtEquals | lintblame.go:207-209 | The answer is true exactly for the path's extension. A '.' that ends the path followed by neither '.' nor '/' answers true, and so does "" when every '.' has a '/' after it. A true answer for a non-empty extension means the path ends with it, it starts with '.', and it holds no other '.' and no '/'. |
| GitBlame.Blame | lintblame.go:176-185 | A failed blame gives no lines. Otherwise the lines contain no newline and rejoin to the blame output. |
| GitBlame.BlameName | lintblame.go:259-265 | With no blame lines the name is "-". Otherwise it is the captured author with the surrounding white space trimmed. |
| Text.Split | lintblame.go:276 | The pieces contain no separator and rejoin to the input. |
| Text.SplitJoin | lintblame.go:276 | Splitting joined separator-free lines gives the lines back. |
| Text.TrimSpace | lintblame.go:264 | The result is the middle slice of the input. Everything around it is white space, and neither of its ends is white space. |
| Decimal.ParseInt | lintblame.go:189-196 | A successful parse lies in the 64-bit range. A plain digit string parses to its value exactly when that value fits. The empty string is rejected. |
| Decimal.ParseFormatInt | lintblame.go:166 | Parsing what %d prints gives back every 64-bit number. |
| Paths.Ext | lintblame.go:321 | The extension is empty or a '.' followed by no '.' or '/'. It is empty exactly when every '.' in the path has a '/' after it. |
| Paths.ExtIsSuffix | lintblame.go:208 | The extension is a suffix of the path. |
| Paths.Resolve | lintblame.go:326-328 | A path with the prefix "/" is returned unchanged; any other path is joined to the working directory. |
| Paths.ExtOfSuffix | lintblame.go:208 | A suffix of the path that starts with '.' and holds no other '.' and no '/' is the extension. |
| Paths.ExtEmpty | lintblame.go:208 | The extension is empty exactly when every '.' of the path has a '/' after it. |
| Paths.FilterFiles | lintblame.go:317-334 | The loop returns the reference list of kept, resolved paths. |
| Paths.KeptAppend | lintblame.go:319-331 | Filtering distributes over concatenation, so the input order is kept. |
| Paths.KeptMembers | lintblame.go:317-334 | An output path is a kept input resolved against the working directory, and every kept input appears. |
| Paths.KeptLength | lintblame.go:319-320 | The output is no longer than the input. It has the same length when every path is kept, and is strictly shorter when any path is empty. |
| Paths.KeptSingle | lintblame.go:325-329 | An absolute path passes unchanged, a relative path is joined to the working directory, and a rejected path is dropped. |
| Paths.ExtPatternMatches | lintblame.go:321 | On an extension (starting with '.', no newline) the unanchored pattern matches exactly when "py" or "go" occurs in it. |
| Paths.KeepsIffContains | lintblame.go:320-321 | A newline-free path is kept exactly when it is non-empty and its extension contains "py" or "go". |
| Paths.KeepsDotted | lintblame.go:321 | A path ending in "." plus an extension that starts with "py" or "go" is kept. |
| Paths.KeepsLooseExtensions | lintblame.go:321 | Paths ending in ".pyc" and ".gox" are kept. |
| Paths.DropsOtherExtensions | lintblame.go:320-321 | The empty path, a ".txt" file and an extension-less file in a "py.d" directory are dropped. |
| PylintPattern.Decompose | lintblame.go:35 | A match yields valid pieces that spell the line exactly. |
| PylintPattern.DecomposeRender | lintblame.go:35 | Every line spelled from valid pieces matches, and splits back into exactly those pieces. |
| PylintPattern.RecognisePylint | lintblame.go:35 | A match has five groups: the whole line, a one-character code, then two digit strings. |
| PylintPattern.RecogniseRender | lintblame.go:35 | Recognising a spelled line gives its pieces as the capture groups. |
| PylintPattern.RecogniseUnusedImport | lintblame.go:35 | "W: 12, 4: unused import" matches, with groups W, 12, 4 and the message. |
| Adapters.ToWart | lintblame.go:218-257 | pep8 groups become line, column, code and message. Pylint puts the code first. go build gets column "0" and code "-". Each wart carries its tool's name. |
| Adapters.Parse | lintblame.go:224-228 | If every match converts, the result holds all their warts in order. Otherwise it is the error of the first failing match. |
| Adapters.Run | lintblame.go:218-257 | A file without the adapter's extension is untouched; go build is gated through `ExtEquals(".go")` (lintblame.go:232), pep8 and pylint through a direct extension comparison. Otherwise the run fails exactly when a match fails, and it files the collected warts, keeping the other fields. |
| Adapters.NewTargetFile | lintblame.go:267-282 | An unreadable file is fatal. A readable file succeeds exactly when the adapters gated on its extension convert every match. A failure carries the error of the first failing adapter in pep8, pylint, go build order. On success the content lines rejoin to the file, the blame lines come from the blame output, and filing is well formed. |
| Adapters.RunAdapters | lintblame.go:278-280 | pep8, pylint and go build run in that order. The chain succeeds when every adapter gated on the file's extension converts its matches; otherwise it fails with the first failing adapter's error. Path, content and blame lines are kept. |
| Adapters.NewTargetFileWarts | lintblame.go:278-280 | Each line holds pep8's warts, then pylint's, then go build's, each in reported order. |
| Adapters.RunWarts | lintblame.go:218-229 | A run appends each line's collected warts after the warts already there. |
| Adapters.OtherFilesAreClean | lintblame.go:218-257 | A file that is neither Python nor Go gets no warts, whatever the tools print. |
| Adapters.CollectedReporters | lintblame.go:218-257 | Every collected wart carries its adapter's name, and only files with the adapter's extension collect any. |
| Adapters.ReportersByExtension | lintblame.go:218-257 | Every wart on a line names that line. A Go file carries only go build warts, and a Python file carries no go build warts. |
| Adapters.PylintLineWart | lintblame.go:246-257 | A matching pylint line becomes a Pylint wart with the letter as code and the two numbers as line and column. |
| Adapters.PylintUnusedImport | lintblame.go:246-257 | The pylint line "W: 12, 4: unused import" becomes a W wart on line 12, column 4. |

## Left out

- Running `git`, `pep8`, `pylint` and `go build`, `os.Chdir`, `ioutil.ReadFile` and
  `os.Stat` are not modelled: I/O. Their results are parameters:
  - file content and blame output are `Option<string>`;
  - stat results are `Option<Time>`;
  - tool output is the list of capture groups.
- The regex engine behind the pep8, go build and blame-name patterns, and
  `FindAllStringSubmatch`'s scan of a whole output for non-overlapping matches, are
  not modelled: foreign code. The capture groups are inputs, and the blame-name
  capture is a function parameter. Only the pylint pattern is recognised, one line
  at a time.
- PylintPattern.Decompose: it works on one newline-free line, so matches whose
  `\s` runs cross a newline in the multi-line output are not modelled.
- `update`, `makeTargetFile`, the goroutines and channel, `printWarts`, `clear` and
  `color` are not modelled: concurrency and terminal output. The model stops at the
  list of paths handed to `update`.
- `initialPaths`, `getDirFiles`, `gitBranchFiles`, `Environment`, `config` and the
  command-line flags are not modelled: process environment. The working directory
  is a parameter, and `path.Join` is the parameter `join`.
- The one-second `time.Sleep` between ticks, and the `log.Println` on a failed
  stat, are not modelled: neither changes the tracker.
- Paths.Ext: paths are '/'-separated, as on Unix. Windows separators and volume
  names are not modelled.
- Paths.FilterFiles: the `log.Fatalf` branch for a regex error is not modelled,
  because the pattern is a valid constant and never fails.
- Warts.NewWart: the text of the fatal log message is not modelled; only which
  field failed is kept.
- Decimal.ParseInt: the model does not distinguish syntax errors from range
  errors, because lintblame treats both as fatal.
- Poll.Track: its contract states only which paths end up tracked. The stored times
  are stated by Poll.TrackLastObserved and Poll.TrackUnobserved.
- Poll.DispatchCoversAllPaths: it holds only when times are distinct. With tied
  times, a path can be missing from the update (ChangeTracker.TiedPathLost).
- GitBlame.BlameName: it requires that the requested blame line exists and that
  the blame-name pattern matches it. The source indexes both without a check and
  would panic; that panic is not modelled.
- The regression test in lintblame_test.go calls `SortaSorted` and a `TimeMap`
  field, which lintblame.go does not define, so the test does not build. Its
  expected order is stated for `PathsByModTime` instead
  (ChangeTracker.ExpectedOrder).
