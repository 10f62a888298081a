# tui-acme window model

tui-acme is a terminal window manager. Its windows mirror a directory tree:
every directory under `./fs` is a window. The window's `tag` file gives the
text after the window id in its title. Its `content` file gives the body.
Each window is drawn as a pane. The panes are packed left to right on one
row. A watcher on `./fs` adds or removes a pane when a window directory
appears or goes away.

This Dafny project models the deterministic rules of `hello.go` that sit
between the filesystem and the terminal toolkit:

- `text.dfy` (module `Text`): the `strings` operations the program relies
  on. These are `Split` on one character, `Join`, `Trim` of spaces, and
  `Replace(…, 1)` with an empty replacement.
- `decimal.dfy` (module `Decimal`): `strconv.Itoa`, and a parser that reads
  its output back.
- `panes.dfy` (module `Panes`): the `Window` record. `DisplayData` is a
  method whose loop finds the longest line. `Draw` becomes `DrawText`, the
  exact text written into the pane.
- `flow.dfy` (module `Flow`): `flowLayout` as a loop over a sequence of
  pane sizes.
- `files.dfy` (modules `Results`, `Files`): the file tree as a map from
  path to node. It covers `statPath` with its `~` stripping, `os.ReadFile`,
  `makeDefaultWindowTag`, `readWindowContent` and `readWindowTag`.
- `scan.dfy` (module `Scan`): `readWindowIds` over the walk's callback
  invocations, and `windowsFromIds`. Both are loops that append to a
  sequence.
- `watch.dfy` (module `Watch`): one step of each watcher goroutine. The
  root watcher turns an event into a decision: ignore, delete view, create
  view, do nothing, or panic. The model applies a decision to the set of
  live view ids. Lemmas show that the views stay in step with the window
  directories.

Strings are `seq<char>` with one `char` per byte. Go's `len` counts bytes,
so line lengths and widths are counted in bytes too.

Some behaviours of the code are easy to miss, and the model follows the
code in each of them:

- **Fallback tag.** A window without a readable `tag` file always gets the
  tag `"New Del Look"`, never the working directory followed by it. There
  are two reasons:
  - `main` declares a new local `pwd` with `:=`, so the package-level `pwd`
    stays `""` (hello.go:18, hello.go:216).
  - `readWindowTag` passes that same `pwd` to `makeDefaultWindowTag`, which
    then compares it with itself (hello.go:186).

  See `Files.FallbackTagIsSuffix`.
- **Flow spacing.** `flowLayout` advances by `w + 2` per pane: the gap
  between a pane's origin and the next one's is its width plus two. Widths
  5, 3 and 7 give x-origins 0, 7 and 12 (`Flow.ExampleRow`).
- **Pane order.** The panes are packed in the order the toolkit lists its
  views. Nothing sorts them, for example by id. The model takes that
  order as its input sequence.
- **Per-window watcher.** The per-window watcher does not re-read `content`
  or `tag`. It only stats the path, skips directories and does nothing
  else, because the update is commented out (`Watch.WindowEventAction`).
- **Window ids.** Start-up ids keep nested paths (`fs/a/b` gives `a/b`).
  The root watcher takes only the second `/`-segment (`fs/a/b` gives `a`).
- **Names ending in `~`.** `statPath` drops one trailing `~` before it
  stats, but the root watcher takes the id from the path as given. So a
  backup file `fs/a~` next to a window directory `fs/a` gets a view `a~`
  of its own on a Create event (`Watch.TildeEventActsOnTildeId`).
  Conversely, a window directory `fs/b~` is listed as window `b~` at
  start-up. A Create event for that same directory deletes the view `b~`,
  because `fs/b` does not exist (`Watch.TildeWindowScannedThenDeleted`).

## Model

| member | source | states |
|---|---|---|
| `Text.Split` | hello.go:32 | `strings.Split` on one separator gives one more piece than there are separators (so empty content is one line) |
| `Text.SplitPiecesSepFree` | hello.go:32 | no piece of a split contains the separator |
| `Text.JoinSplit` | hello.go:32 | joining the pieces of a split with the separator gives back the string |
| `Text.SplitJoin` | hello.go:32 | splitting the join of separator-free pieces gives back the pieces (with `JoinSplit`: split and join are inverse) |
| `Text.SplitAround` | hello.go:32 | a separator splits a string into the pieces of its two sides |
| `Text.Join` | hello.go:32 | the program never calls `strings.Join`; `Join` is the reference inverse used to specify `Split`. Separator-free parts joined hold exactly one separator fewer than there are parts |
| `Text.CountConcat` | hello.go:32 | separators in a concatenation add up; a helper for `Join`, the reference inverse of `Split` |
| `Text.MaxLen` | hello.go:33-39 | the longest-line length bounds every line and is 0 or the length of some line |
| `Text.Trim` | hello.go:184 | `strings.Trim(s, " ")` is no longer than `s` and neither starts nor ends with a space |
| `Text.TrimSpec` | hello.go:184 | `strings.Trim(s, " ")` keeps a middle slice of `s`, drops only spaces on both sides, and keeps no leading or trailing space |
| `Text.TrimIdempotent` | hello.go:184 | trimming twice is trimming once |
| `Text.IndexFrom` | hello.go:130 | returns the first occurrence of the pattern at or after the start, or -1 when there is none |
| `Text.RemoveFirst` | hello.go:130 | `Replace(s, pat, "", 1)` leaves a string without `pat` unchanged, cuts out exactly the first occurrence of `pat` otherwise, and so removes a leading `pat` |
| `Text.RemovePrefix` | hello.go:130 | `Replace(s, pat, "", 1)` on a string that starts with `pat` leaves the rest |
| `Decimal.NatText` | hello.go:57 | `strconv.Itoa` of a natural number is non-empty digits with no leading zero |
| `Decimal.Itoa` | hello.go:57 | `strconv.Itoa` starts with `-` exactly for a negative number, is digits after the sign, and has no leading zero |
| `Decimal.ItoaRoundTrip` | hello.go:57 | reading back what `strconv.Itoa` prints gives the number |
| `Decimal.ItoaInjective` | hello.go:57 | different numbers print differently |
| `Panes.DisplayData` | hello.go:31-47 | title is `id + " " + tag`; width exceeds the title and every content line and is the least such width; height is the number of newlines plus 5; both depend only on id, tag and content |
| `Panes.HeightAround` | hello.go:32-45 | joining two contents with a newline adds their heights less 4; one extra newline adds exactly 1 to the height |
| `Panes.DrawText` | hello.go:50-58 | the drawn text has three more newlines than the title and the content together |
| `Panes.DrawLines` | hello.go:50-58 | the drawn text's lines are the title's, a blank line, the content's lines, and `w: <width>, h: <height>` with the `DisplayData` geometry |
| `Panes.FooterInjective` | hello.go:57 | the size line determines the width and height it shows |
| `Panes.DrawShowsSize` | hello.go:50-58 | two windows with the same drawn text have panes of the same size |
| `Panes.ExamplePane` | hello.go:31-47 | window `a` with tag `T` and content `x\ny` gets width 4, height 6 and title `a T` |
| `Flow.FlowLayout` | hello.go:77-95 | pane i is set to `(x_i, 0, x_i + w_i + 1, h_i + 1)`, with `x_0 = 0` and `x_{i+1} = x_i + w_i + 2`; the loop returns right after the first pane whose `SetView` fails with an error other than unknown-view, and returns nil exactly when no pane fails, after setting every pane |
| `Flow.XAfterGrows` | hello.go:80-91 | with no negative width, each later origin is at least 2 columns per pane further right |
| `Flow.PanesApart` | hello.go:80-91 | with no negative width, x-origins strictly increase and each pane's right edge is left of every later pane's left edge |
| `Flow.ExampleRow` | hello.go:80-91 | widths 5, 3, 7 give x-origins 0, 7, 12 |
| `Files.StripTilde` | hello.go:148-151 | the stat'ed path is the path or the path less its last character, and it is shorter exactly when the path ends in `~` |
| `Files.StripTildeInverse` | hello.go:148-151 | `statPath` strips exactly one trailing `~` (appending `~` is undone, `~~` keeps one) |
| `Files.StripTildeKeeps` | hello.go:148-151 | a path not ending in `~` is stat'ed unchanged |
| `Files.StatPath` | hello.go:144-164 | the path less one trailing `~` is stat'ed: a missing path is success with nothing found, an error other than not-exist is an error, and otherwise the result is a file exactly for a file and a directory exactly for a directory |
| `Files.ReadFile` | hello.go:167 | a read succeeds exactly on a file that can be read, and yields its bytes; a directory, a missing path, an unreadable file or a path that cannot be stat'ed fails |
| `Files.MakeDefaultWindowTag` | hello.go:109-117 | the tag always ends with `New Del Look`; it is exactly that when the two directories agree or the global one is empty, and the global directory followed by it otherwise |
| `Files.ReadWindowContent` | hello.go:166-176 | the content is the `content` file's bytes, or empty when that file cannot be read |
| `Files.ReadWindowTag` | hello.go:178-190 | with no readable `tag` file the tag is `New Del Look`; a tag read from file is unchanged by another trim |
| `Files.FallbackTagIsSuffix` | hello.go:178-190 | with no readable `tag` file the tag is exactly `New Del Look`, whatever the global `pwd` holds |
| `Files.FileTagTrimmed` | hello.go:184 | a tag read from file is that file's text less surrounding spaces, neither starts nor ends with a space, and is unchanged by another trim |
| `Scan.WindowIdOfChild` | hello.go:130 | a walked path `fs/<rest>` gives the id `<rest>` |
| `Scan.WindowIdOf` | hello.go:130 | a walked path starting with `fs/` loses just that prefix; a path without `fs/` is its own id |
| `Scan.IdsAfter` | hello.go:119-142 | an error result is the first callback error; a success lists no more ids than callbacks and comes from callbacks without errors |
| `Scan.FirstLevelScan` | hello.go:119-142 | a walk of the root and one directory `fs/<rest>` lists exactly the window `<rest>` |
| `Scan.ReadWindowIds` | hello.go:119-142 | the walk loop returns the first callback error, or else the ids of the non-root directories in visiting order |
| `Scan.StopsAtError` | hello.go:121-124 | after a callback error, later callbacks change nothing |
| `Scan.IdsAfterSpec` | hello.go:119-142 | the scan succeeds exactly when no callback carries an error; an id is listed exactly when a non-root directory with that id was visited |
| `Scan.WindowsFromIds` | hello.go:192-201 | one window per id, in order, with the package-level `pwd` and the tag and content read for that id |
| `Watch.SecondSegment` | hello.go:268-269 | the id is present exactly when the path contains `/` |
| `Watch.SecondSegmentOfWindowPath` | hello.go:268-269 | for `fs/<name>` and `fs/<name>/<rest>` the id is `<name>` |
| `Watch.RootEventAction` | hello.go:260-309 | a decision acts on the path's second segment; a view is created only on an exactly-Create event for a directory and records `main`'s directory; one is deleted only for a missing path or an exactly-Remove event; a file with a second segment, and only that, is ignored |
| `Watch.RootDecisionTable` | hello.go:260-309 | an existing file is ignored for any op; a missing path or op exactly Remove deletes view `id`; op exactly Create on a directory creates view `id` with the tag and content read; any other op on a directory does nothing |
| `Watch.RootEventCrashes` | hello.go:262-269 | the root watcher panics exactly on a failed stat or on a path with no second segment |
| `Watch.WindowEventAction` | hello.go:323-345 | the per-window watcher panics exactly on a failed stat and never creates or deletes a view |
| `Watch.Apply` | hello.go:281-306 | delete removes only that id (a no-op when it is absent); create adds only that id; other decisions change nothing |
| `Watch.RootEventActsOnName` | hello.go:260-309 | an event on `fs/<name>` acts only on view `<name>`: deleted when the path is missing, created on Create of a directory, ignored for a file |
| `Watch.RootEventKeepsSync` | hello.go:252-318 | when views match the window directories, a Create event for a new directory or a Remove event for a removed one keeps them matched; names ending in `~` are outside this match |
| `Watch.TildeEventActsOnTildeId` | hello.go:260-269 | an event on `fs/<name>~` is judged by what is at `fs/<name>`, yet creates view `<name>~` |
| `Watch.TildeDirectoryDeleted` | hello.go:260-309 | while `fs/<base>` does not exist, every event for `fs/<base>~` deletes view `<base>~`, even when that path is a directory |
| `Watch.TildeCreateDeletes` | hello.go:260-309 | a Create event for a directory `fs/b~` with no `fs/b` deletes view `b~` |
| `Watch.TildeWindowScannedThenDeleted` | hello.go:119-142 | the scan lists a directory `fs/b~` as window `b~`, yet a Create event for that directory deletes view `b~` |

## Left out

- The toolkit calls are not modelled: `SetView`, `DeleteView`, `Views`, `View.Size`, `Update`, key bindings, `MainLoop` and `quit` are gocui's, and their code is not part of this model. `flowLayout` works on a given sequence of sizes and the given set of panes whose `SetView` fails with an error other than unknown-view. A view's drawn text is a string. The live views are a set of ids.
- `Watch.RootEventKeepsSync`: views and window directories are shown to match only for names that do not end in `~`. `statPath` drops the `~` before it stats while the id keeps it, so for such names they can drift apart (`Watch.TildeEventActsOnTildeId`, `Watch.TildeWindowScannedThenDeleted`).
- `Window.Layout` (hello.go:60-75) only sets a view to the `DisplayData` size and draws into a new one. Both parts are toolkit calls around `DisplayData` and `DrawText`, which are modelled.
- `Watch.Apply`: deleting an unknown view makes gocui return an error from the update. The model treats that delete as a no-op, because gocui's error handling is not part of this model.
- The fsnotify watchers, the two goroutines, their `select` loops and channel closing are left out, because their point is concurrency and OS event delivery. Each watcher is modelled one event at a time. Error-channel messages are only logged, so they are left out too.
- Filesystem I/O is an input: `os.Stat`, `os.ReadFile`, `filepath.WalkDir` and `os.Getwd`. The file tree is a map keyed by path strings exactly as the program spells them, with no path cleaning. The walk is the sequence of its callback invocations.
- `safeRun` (process execution), `managersFromWindows` (a slice conversion) and `NewWindow` (the `Window` datatype constructor stands in for it) are left out.
- The commented-out per-window update is dead code and is not modelled.
- Start-up in `main` is not modelled as a whole: creating the watchers, the GUI, registering watches and drawing the initial panes are toolkit and OS calls. Their pure parts are modelled: `DisplayData`, `DrawText`, `ReadWindowIds` and `WindowsFromIds`.
- `panic` and `log.Fatal` paths are modelled only as `Crash` decisions of the watchers and `Err` results of the scan.
- Multi-byte UTF-8 is not modelled: every character counts as one byte.
- Go `int` overflow in widths, heights and x-origins is not modelled; integers are unbounded.
