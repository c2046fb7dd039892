# PortStatus core in Dafny

PortStatus is a small macOS menu-bar app. It lists the MacPorts ports a user
has installed and says whether each is up to date. This project models its
core:

- **Inventory.** `ShellPortService.loadLocalPorts` reads the output of
  `port version` and `port installed requested and active`. It builds one
  `Port` record for MacPorts itself, then one for every listing line whose
  first field is a port name and whose second field holds a version token.
- **Ports.** The `Port` record has a derived identifier `name@version` and a
  derived status: latest, outdated or unknown.
- **Reconciliation.** The loop in `PortsModel.load` pairs each installed port
  with the latest version the registry reported for its name.
- **Load.** `PortsModel.load` updates the observable `ports`, `loading` and
  `lastCheck` fields, in a fixed order, across the local step and the
  registry step.

The modules follow the source:

| module | what it holds |
|---|---|
| `Wrappers` | `Option`, and `Outcome`, which stands for a call that returns or throws |
| `Text` | Swift's `split`, which drops empty pieces; `lines`, which splits on every `Character.isNewline` character; the space split |
| `VersionPattern` | the two regular expressions, as index-based matchers, and their declarative languages `IsToken` and `IsName` |
| `Ports` | `Port`, `Status`, `StatusOf`, `Id` and its inverse `SplitId` |
| `Inventory` | `ParseLine`, `ParseLines`, `Parse`, and the loop-shaped method `LoadLocalPorts` |
| `Reconcile` | `Merge`, the merge loop |
| `PortsModel` | the view model, `LoadTrace` (the state after every assignment of `load()`) and `Load` (its final state) |
| `Scenarios` | worked inputs: a build suffix, a skipped line, a small machine from listing to statuses |

**Effects become parameters.**
- The two shell commands are the strings they print.
- The outcome of `loadLocalPorts` is an `Outcome<seq<Port>>`.
- `fetchPortVersions` is a function from the requested names to an
  `Outcome<map<string, string>>`.
- The formatted clock reading is the string `stamp`.

**Characters** are Unicode scalar values, not Swift grapheme clusters. A
CR LF pair is one Swift character but two separators here. Both give the
same lines, because empty pieces are dropped.

## Model

| member | source | states |
|---|---|---|
| Text.Span | PortStatus/PortService.swift:4 | the length of the longest prefix whose characters satisfy the predicate: every character before it does, and the next one does not or the string ends |
| Text.Split | PortStatus/PortService.swift:4 | Swift's `split` with empty pieces dropped: every piece is non-empty and contains no separator |
| Text.SplitKeepsNonSeparators | PortStatus/PortService.swift:4 | splitting loses exactly the separators: the pieces, concatenated, are the non-separator characters in their original order |
| Text.SplitWhole | PortStatus/PortService.swift:4 | a non-empty text without separators is a single piece |
| Text.SplitAtSeparator | PortStatus/PortService.swift:4 | a piece ends only at a separator: splitting at any separator splits the two sides independently, so runs of separators give no empty piece; with `SplitWhole` and the empty case this fixes `Split` on every input |
| Text.Lines | PortStatus/PortService.swift:4 | the `lines` extension: every line is non-empty and holds no `isNewline` character |
| Text.IsNewline | PortStatus/PortService.swift:4 | the characters `Character.isNewline` accepts: LF, VT, FF, CR, NEL, LINE SEPARATOR and PARAGRAPH SEPARATOR |
| Text.Fields | PortStatus/PortService.swift:85 | `split(separator: " ")`: every field is non-empty and holds no space |
| Text.SplitJoin | PortStatus/PortService.swift:4 | splitting undoes joining with a separator, for non-empty separator-free pieces |
| Text.SplitDropsTrailing | PortStatus/PortService.swift:4 | a trailing separator, such as a final newline, adds no piece |
| VersionPattern.MatchesName | PortStatus/PortService.swift:72 | the whole-match of `[a-zA-Z0-9-.]+` succeeds exactly when the text is non-empty and every character is a letter, a digit, `-` or `.` |
| VersionPattern.FirstMatch | PortStatus/PortService.swift:73 | `firstMatch` of the version pattern: none exactly when the text has no ASCII digit; otherwise a token, i.e. a digit first, then `[0-9a-z-]` characters and at most four `.`s, each followed by a class character |
| VersionPattern.FirstMatchIsLeftmostLongest | PortStatus/PortService.swift:73 | the match is the leftmost-longest match of the pattern's language: no token starts earlier, and no longer token starts at the same place |
| VersionPattern.MatchIsLeftmostLongest | PortStatus/PortService.swift:73 | the token found at the first digit is leftmost and cannot be extended |
| VersionPattern.MatchIsLongest | PortStatus/PortService.swift:73 | no token longer than the greedy one starts at the same digit: the `{0,4}` bound and the `.` rule stop every extension |
| VersionPattern.NoDigitNoMatch | PortStatus/PortService.swift:73 | every token starts with a digit, so none starts before the first digit |
| VersionPattern.TokenIn | PortStatus/PortService.swift:73 | a slice is a token exactly when its range starts at a digit, is well dotted and holds at most four `.`s |
| VersionPattern.RunEnd | PortStatus/PortService.swift:73 | the greedy `[0-9a-z-]*` run: all characters up to its end are in the class, and the character after it is not |
| VersionPattern.GroupsEnd | PortStatus/PortService.swift:73 | the greedy `(\.[0-9a-z-]+){0,budget}`: the groups taken are well dotted, use at most the budget, and stop only when the budget is spent or no `.` plus class character follows |
| VersionPattern.MatchEnd | PortStatus/PortService.swift:73 | the whole greedy match at a digit is non-empty, well dotted, has at most four groups and cannot be continued |
| VersionPattern.FirstDigitFrom | PortStatus/PortService.swift:73 | the index of the first ASCII digit at or after the start, or the end of the text when there is none |
| Ports.StatusOf | PortStatus/PortService.swift:21-23 | latest exactly when the latest version equals the installed one; outdated exactly when there is a different latest version; unknown exactly when there is none |
| Ports.Id | PortStatus/PortService.swift:16-18 | the identifier is the name, then `@`, then the installed version, and nothing else |
| Ports.SplitId | PortStatus/PortService.swift:16-18 | cutting an identifier at its first `@` gives an `@`-free name that, rejoined, rebuilds the identifier |
| Ports.IdRoundTrip | PortStatus/PortService.swift:16-18 | for a name without `@`, the identifier splits back into name and installed version |
| Ports.SplitIdAt | PortStatus/PortService.swift:16-18 | splitting `a@b` with `a` free of `@` gives `(a, b)` |
| Ports.IdInjective | PortStatus/PortService.swift:16-18 | two ports with `@`-free names share an identifier exactly when they share name and installed version |
| Inventory.SelfRecord | PortStatus/PortService.swift:80-82 | the MacPorts record exists exactly when `port version` printed a digit; it is named `macports`, carries a token and has no latest version |
| Inventory.ParseLine | PortStatus/PortService.swift:84-93 | a line yields a record exactly when it has at least three fields, the first is a whole name and the second contains a digit; the record takes the first field as its name and the first token of the second field as its version |
| Inventory.ParseJoinedLine | PortStatus/PortService.swift:85-91 | a line built from space-joined fields yields the record of its first two fields, or nothing when it has fewer than three fields |
| Inventory.Parse | PortStatus/PortService.swift:74-96 | the inventory has at most one record per line plus one; every record carries a version token and no latest version, and is named `macports` or by a whole name |
| Inventory.ParseLines | PortStatus/PortService.swift:84-94 | no more records than lines; every record has a whole name, a token version and no latest version |
| Inventory.ParseLinesTraced | PortStatus/PortService.swift:84-94 | each record comes from the line that yields it, records keep line order, no line is used twice, and every accepted line is represented |
| Inventory.TracedStep | PortStatus/PortService.swift:84-94 | one more listing line extends the provenance of the records |
| Inventory.FromLinesStep | PortStatus/PortService.swift:90-91 | after one more line, every record is still what its line parses to |
| Inventory.IncreasingStep | PortStatus/PortService.swift:84 | the index of the new line is larger than every earlier one |
| Inventory.CoversStep | PortStatus/PortService.swift:84-94 | after one more line, every accepted line is still represented |
| Inventory.ParseLinesAppend | PortStatus/PortService.swift:84-94 | one more line adds its record, if any, at the end |
| Inventory.ParseLinesSnoc | PortStatus/PortService.swift:84-94 | the same step for a prefix of the lines: the records of the first `i + 1` lines are those of the first `i` plus that of line `i` |
| Inventory.LoadStep | PortStatus/PortService.swift:90-92 | the loop body appends exactly the record of the current line |
| Inventory.ParseShape | PortStatus/PortService.swift:74-96 | the MacPorts record comes first when the version text yields a token, and the line records follow in order; otherwise only the line records; nothing has a latest version; at most one record per line plus one |
| Inventory.LoadLocalPorts | PortStatus/PortService.swift:71-97 | the loop over the lines, appending to a list that starts with the MacPorts record, builds exactly the inventory `Parse` describes |
| Reconcile.Refresh | PortStatus/PortListView.swift:26-31 | the loop body keeps name and installed version; a reported name gets the reported version as its latest; any other port is kept as it is |
| Reconcile.Merge | PortStatus/PortListView.swift:24-33 | the merged list keeps length, order, names and installed versions; a port whose name the registry reported gets that version as its latest; every other port is kept as it was |
| Reconcile.MergeIdempotent | PortStatus/PortListView.swift:24-33 | merging the merged list again with the same versions changes nothing |
| Reconcile.MergedStatus | PortStatus/PortListView.swift:24-33 | a merged port's identifier is unchanged; a reported port is latest exactly when the reported version equals the installed one and outdated otherwise; an unreported port keeps its status |
| Reconcile.MergedFreshUnknown | PortStatus/PortListView.swift:24-33 | for freshly parsed ports, a merged port is unknown exactly when the registry did not report its name |
| Reconcile.MergeNothing | PortStatus/PortListView.swift:24-33 | an empty version map changes nothing |
| PortsModel.Init | PortStatus/PortListView.swift:10-15 | a new model shows the given ports, is not loading and has never checked |
| PortsModel.Names | PortStatus/PortListView.swift:21 | the names sent to the registry are the ports' names, one per port, in order |
| PortsModel.LoadTrace | PortStatus/PortListView.swift:17-44 | after a local success, the first state publishes the local list, and a later state, before the last, shows that list with `loading` raised and the previous check time. After `load()` the model is never loading. Every published list is the old one, the local one or the merged one, never a mix. While loading, the model shows the local list and the previous check time. The check time changes only when both calls succeeded, and then to the new stamp |
| PortsModel.Load | PortStatus/PortListView.swift:17-44 | a local failure leaves list and check time as they were; a registry failure leaves the local list and the old check time; full success leaves the merged list and the new stamp; in every case loading has stopped |
| Scenarios.SuffixIsDropped | PortStatus/PortService.swift:90-91 | the token of `1.2.3_0+bar` is `1.2.3`: the revision and variant suffix are dropped |
| Scenarios.PlainVersion | PortStatus/PortService.swift:73 | a version without a suffix, `2.0`, is its own token |
| Scenarios.ListingLine | PortStatus/PortService.swift:84-93 | the fields `foo`, `1.2.3_0+bar`, `active` give the record `foo` at `1.2.3` |
| Scenarios.NameFoo | PortStatus/PortService.swift:72 | `foo` whole-matches the name pattern |
| Scenarios.NameBaz | PortStatus/PortService.swift:72 | `baz` whole-matches the name pattern |
| Scenarios.ListingLineFields | PortStatus/PortService.swift:85 | `foo 1.2.3_0+bar active` splits into those three fields |
| Scenarios.OtherLine | PortStatus/PortService.swift:84-93 | a version without a suffix is kept whole |
| Scenarios.ShortLine | PortStatus/PortService.swift:86 | a line with a single field yields nothing |
| Scenarios.AcceptSkipAccept | PortStatus/PortService.swift:84-94 | a rejected line between two accepted ones leaves no gap and no record |
| Scenarios.ListingRecords | PortStatus/PortService.swift:84-94 | the lines `foo`, `bad-line`, `baz` yield the records `foo` and `baz`, in order |
| Scenarios.SmallInventory | PortStatus/PortService.swift:71-97 | on a machine running MacPorts 2.9.1 with that listing, the inventory is `macports`, `foo`, `baz` |
| Scenarios.SelfVersion | PortStatus/PortService.swift:80-81 | the `port version` output `MacPorts 2.9.1` yields the token `2.9.1` |
| Scenarios.LinesOfText | PortStatus/PortService.swift:84 | a text of non-empty newline-free lines, each ended by a newline, has exactly those lines |
| Scenarios.ListingJoin | PortStatus/PortService.swift:84 | the three listing lines joined by newlines, with the final newline, are the listing text |
| Scenarios.ListingText | PortStatus/PortService.swift:84 | the listing text has the lines `foo …`, `bad-line` and `baz …` |
| Scenarios.OtherFields | PortStatus/PortService.swift:85 | `bad-line` is one field and `baz 2.0 active` three |
| Scenarios.SmallMachine | PortStatus/PortService.swift:71-97 | from the literal outputs of both commands, the inventory is `macports` 2.9.1, `foo` 1.2.3 and `baz` 2.0 |
| Scenarios.SmallMerge | PortStatus/PortListView.swift:24-33 | a registry reporting `foo` and `macports` fills in those two latest versions and leaves `baz` alone |
| Scenarios.SmallRun | PortStatus/PortListView.swift:17-44 | a whole `load()` on that machine ends not loading, stamped, with `macports` and `foo` latest and `baz` unknown |

## Left out

- Process spawning (`execShellCommand`, `/bin/zsh --login -c`, the pipe,
  exit statuses) is left out. The two command outputs are parameters. A
  throwing failure of either is the `Failure` outcome `Load` receives: the
  shell fails to start (PortStatus/PortService.swift:60), or it exits with a
  non-zero status (PortStatus/PortService.swift:64-66).
- Output that is not valid UTF-8 is not represented. The forced unwrap of
  `String(data:encoding:)` (PortStatus/PortService.swift:68) traps, and the
  app ends without reaching the `catch` (PortStatus/PortListView.swift:40-41).
- `async let` concurrency of the two commands is left out. Only their joint
  result matters.
- `PortHttpApi.fetchPortVersions` is left out: the task group, HTTP and JSON
  decoding. It is a parameter that either returns a name-to-version map or
  fails as a whole. In the source any non-200 answer, 404 included, throws
  and fails the whole batch. No single name is skipped.
- The `DateFormatter` with format `y-MM-dd HH:mm` and the clock are left
  out. The formatted time is the parameter `stamp`.
- SwiftUI views, the app entry point and the `@Observable` change
  notifications are left out. They only display the model.
- The app has no scheduler, periodic timer, file watcher or debouncing:
  `load()` runs from the view's `.task` (PortStatus/PortListView.swift:79)
  each time the view appears.
- Text.Split: Swift splits on grapheme clusters and this model splits on
  Unicode scalars. For lines they agree: a newline scalar is always a
  cluster of its own, except in CR LF, which gives the same lines. For
  fields they do not always agree. A space followed by a combining mark
  (`" \u{301}"`), or preceded by a Prepend character, is one Swift
  `Character`. That `Character` is not equal to `" "`, so Swift does not cut
  there, while `Text.Fields` cuts at every U+0020.
- Inventory.ParseLine: because of that, a line such as
  `foo \u{301}1.2 active x` is rejected by the source, whose first field
  `foo \u{301}1.2` fails the name match. The model yields `foo` at `1.2`
  for it. The two agree on lines in which no space is joined to a
  neighbouring scalar in one grapheme cluster.
- VersionPattern.FirstMatch: only ASCII digits and lower-case letters are
  in the classes, as in the pattern. No Unicode case or digit folding is
  modelled.
- Behaviour of the code the model keeps as written:
  - a registry 404, like any other non-200 answer, fails the whole batch
    (PortStatus/PortApi.swift:25-26);
  - the merge keeps a port the registry did not report unchanged, latest
    version included;
  - `loading` is raised only after the local list has been published;
  - the MacPorts record is named `macports`;
  - `PortsModel.LoadTrace` and `PortsModel.Load` read the call
    `try service.loadLocalPorts()` (PortStatus/PortListView.swift:19) as
    `try await`. The function is `async throws`
    (PortStatus/PortService.swift:28), and Swift rejects an async call
    written without `await`.
- PortsModel.LoadTrace: overlapping `load()` runs are not modelled. Each
  appearance of the view starts a new run (PortStatus/PortListView.swift:79)
  and nothing serialises them. The merge loop reads `ports` again after the
  registry call (PortStatus/PortListView.swift:21, 25). So a second run can
  publish its own local list while the first waits, and the first then
  merges that list. A second run can also lower `loading` in its `catch`
  (PortStatus/PortListView.swift:41) while the first is still loading. The
  trace describes one run with nothing interleaved, and its "never a mix"
  and "while loading" clauses hold only for that.
- Ports.StatusOf: versions are compared as sequences of Unicode scalars.
  Swift's `String ==` uses canonical equivalence, so `é` written as one
  scalar equals `e` plus a combining accent there but not here. The two
  agree on the ASCII tokens the parser produces.
- Reconcile.Merge: the registry map is looked up by scalar sequence, while
  Swift's `Dictionary` uses canonical equivalence of `String` keys. The two
  agree on the ASCII names the parser accepts.
- VersionPattern.FirstMatch and VersionPattern.MatchesName match scalar by
  scalar. Swift's regexes match whole grapheme clusters by default, so a
  digit followed by a combining mark is one `Character` there and two
  scalars here. The two agree on ASCII text.
- Inventory.ParseShape states exactly when the `macports` record comes
  first, rather than "the list starts with `macports` exactly when the
  version text has a token". The listing itself may contain a port named
  `macports`, which makes that shorter statement false.
