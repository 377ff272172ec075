# vk-extractor: a Dafny model of the attachment extractor

vk-extractor reads the HTML export of a VK message history: one directory
per dialog under `<exe dir>/messages`, holding pages whose names contain
`messages`. It downloads the voice notes and pictures that the pages link to
into `<exe dir>/files/<display name>/voices/<n>.ogg` and `.../pictures/<n>.jpg`.
This project models the core of `main.go`:

- the dialog-directory filter (`isCommunityChat`, `isGroupChat`, the walk
  callback of `main`);
- `readDialog`, which creates the two counters of a dialog and shares them
  across all of its pages;
- `readDialogFile`, which reads and parses a page, makes the output
  directories, and loops over the attachment links: download, classify by
  the last three characters of the URL, bump the counter of that kind, and
  write the file;
- the error rule: a read, parse or mkdir failure ends the dialog and the
  walk, while a download or write failure skips only that link.

The file system, the HTML parser and the network are replaced by their
outcomes, which are inputs. A page is `Unreadable`, `Malformed` or
`Parsed(name, anchors)`, plus the outcome of its two `MkdirAll` calls. Each
anchor carries its optional `href`, the optional downloaded body and whether
`createFile` succeeded. What the extractor does to the world is an event log
of `MadeDir`, `Fetch` and `Wrote` events. Layout:

- `wrappers.dfy`: `Option`.
- `text.dfy`: `HasPrefix`, `Contains`, the `%d` rendering `Decimal`, and the
  split of a path at its last `/`.
- `dialogs.dfy` (`DialogFilter`): the directory and page filters.
- `attachments.dfy` (`Attachments`): classification, output paths, and the
  events of one page's attachment loop (`Emit`) with its numbering lemmas.
- `pipeline.dfy` (`Pipeline`): `PageRun`, `DialogRun` and `WalkRun`, the
  specification functions for `readDialogFile`, `readDialog` and the walk.
- `pipeline_facts.dfy` (`PipelineFacts`): what those functions guarantee.
- `extractor.dfy` (`Extractor`): the imperative model. The class `Counters`
  holds `oggCount`/`jpgCount`, updated in place. The class `Extractor` has
  the methods `ReadDialogFile`, `SaveAttachments`, `SaveAttachment`,
  `ReadDialog` and `Walk`, each proved to do exactly what the specification
  functions say.

Four behaviours of `main.go` that are easy to misread:

- Each link is downloaded before it is classified. So an unsupported
  `.mp4` link is still fetched (`EmitRequests`).
- A counter is bumped only after a successful download. A failed download
  therefore leaves no gap in the numbering; a failed write does
  (`FailureNumberingExamples`).
- The display name is read again on every page and never cached, and both
  directories are made on every page.
- A page that fails to parse does not end only its dialog. The error
  propagates through `readDialog` to the walk, which stops.

## Model

| member | source | states |
|---|---|---|
| `DialogFilter.IsCommunityChat` | main.go:140-144 | the index test `s[0] == '-'` on a non-empty name; `DialogDirIff` proves it is the `-` prefix |
| `DialogFilter.IsGroupChat` | main.go:146-150 | `strings.HasPrefix(s, "200000")`; `DialogDirIff` and `DialogDirExamples` state which names it excludes |
| `DialogFilter.IsDialogDir` | main.go:29 | a directory that is neither a community nor a group chat; `DialogDirIff` states it as the two prefixes |
| `DialogFilter.DispatchAsWritten` | main.go:26-31 | the callback as written; `RootDispatchedAsWritten` and `PipelineFacts.RootReadAsOneDialog` state what it does to the root |
| `DialogFilter.Dispatch` | main.go:26-31 | the callback with line 26 corrected to skip the root by path; `PipelineFacts.WalkSkipsRoot` states that the root then takes no dialog pass |
| `DialogFilter.IsPage` | main.go:43-46 | the page test of `readDialog`; `PageIff` and `PageExamples` state it |
| `DialogFilter.DialogDirIff` | main.go:142-150 | a directory is a dialog exactly when its name starts with neither `-` nor `200000`; any name with either prefix is excluded |
| `DialogFilter.DialogDirExamples` | main.go:29 | `-67890`, `200000123`, `2000001` and plain files are excluded; `12345`, `20000` and `300000123` are dialogs |
| `DialogFilter.RootDispatchedAsWritten` | main.go:25-31 | as written, the walk hands the export root `<dir>/messages` itself to `readDialog`, because its base name is not its path |
| `DialogFilter.PageExamples` | main.go:43-46 | a file named `messages0.html` is a page; the dialog directory's own entry is not |
| `DialogFilter.PageIff` | main.go:43-46 | an entry is a page exactly when it is not the dialog directory and `messages` occurs at some position of its name |
| `Text.ContainsIff` | main.go:46 | the page test's `Contains` holds exactly when the marker occurs at some position of the name |
| `Text.Decimal` | main.go:91 | the `%d` rendering of an index is a non-empty string of digits whose value is the index, with no leading zero unless the index is 0, and one digit exactly below 10 |
| `Text.DecimalInjective` | main.go:91-94 | distinct indices render as distinct file names |
| `Attachments.Classify` | main.go:88-97 | the `switch` on the last three characters of the URL; `ClassifyIff` and `ClassifyExamples` state what it accepts |
| `Attachments.ClassifyIff` | main.go:88-97 | a URL is voice or picture exactly when its last three characters are `ogg` or `jpg`; nothing before them matters |
| `Attachments.ClassifyExamples` | main.go:88-97 | `a.ogg` is voice and `b.jpg` is picture; `?type=ogg` is voice (suffix, not extension); `.OGG`, `.jpeg` and `.mp4` are skipped |
| `Attachments.KindOf` | main.go:80-88 | only a link with an `href` whose download succeeded is counted under a kind; `KindOfSuffix` states which kind |
| `Attachments.KindOfSuffix` | main.go:80-97 | a link is counted under kind `k` exactly when it has an `href`, its download succeeded, and its URL's last three characters are `k`'s extension |
| `Attachments.Counts.Bump` | main.go:90-93 | the atomic add raises the counter of its kind by one and leaves the other alone |
| `Attachments.DirPath` | main.go:67-76 | the directory given to `MkdirAll` for a name and kind; `PipelineFacts.PageDirsFirst` and `DialogDirsFirst` state that it is made before any write into it |
| `Attachments.PathOf` | main.go:91-94 | the path formatted by `Sprintf`; `PathOfInjective` and `PathExamples` state its layout and that it determines name, kind and number |
| `Attachments.Next` | main.go:88-93 | the counters after one callback; `NextGet` and `Counts.Bump` state that only the counter of the link's kind moves, by one, and only for a fetched, classified link |
| `Attachments.PathOfInjective` | main.go:91-94 | two output files share a path exactly when they have the same display name, kind and index, even when names contain `/` |
| `Attachments.PathExamples` | main.go:91-94 | index 1 of a voice goes to `<root>/files/<name>/voices/1.ogg`, index 12 of a picture to `.../pictures/12.jpg` |
| `Attachments.Step` | main.go:80-102 | one `Each` callback; `StepWritten` and `StepRequests` state its writes and its downloads |
| `Attachments.Emit` | main.go:79-103 | the whole `Each` loop of a page; `EmitNumbering`, `EmitRequests`, `EmitIncreasing` and `SkippedLinkInvisible` state what it writes and fetches |
| `Attachments.EmitNumbering` | main.go:79-103 | on a page, the writes of each kind are its fetched links of that kind in document order, numbered on from the counter, each with its own bytes |
| `Attachments.EmitRequests` | main.go:80-88 | every link with an `href` is downloaded, in order, whatever its suffix |
| `Attachments.SkippedLinkInvisible` | main.go:80-97 | a link without `href`, with a failed download or with an unsupported suffix, wherever it stands, changes neither the writes nor the counters |
| `Attachments.FailureNumberingExamples` | main.go:82-101 | a failed download takes no number (the next voice is 1); a failed write has taken one (the next voice is 2) |
| `Attachments.EmitIncreasing` | main.go:88-94 | on a page, numbers strictly increase within each kind and lie between the counters before and after; every write uses the page's name |
| `Pipeline.PageRun` | main.go:56-105 | the error of a page is its read, parse or mkdir error and never depends on its links; a failing page moves no counter and only makes directories |
| `Pipeline.DialogRun` | main.go:40-54 | `readDialog` over the entries of a dialog; `PipelineFacts.DialogErrorIff`, `DialogStopsAtFailure`, `DialogNumbering`, `DialogIncreasing` and `DialogDirsFirst` state its contract |
| `Pipeline.WalkRun` | main.go:25-36 | the walk of `main` with line 26 corrected; `PipelineFacts.WalkDialogs`, `WalkErrorIff`, `WalkStopsAtFailure` and `WalkSkipsRoot` state its contract |
| `Pipeline.WalkRunAsWritten` | main.go:25-36 | the walk of `main` as written; `PipelineFacts.RootReadAsOneDialog` states what it does |
| `PipelineFacts.DialogErrorIff` | main.go:42-53 | a dialog fails exactly when one of its pages cannot be read, parsed or given its directories, and then with that page's error |
| `PipelineFacts.DialogStopsAtFailure` | main.go:47-50 | after a failing page, further entries change nothing: no event, no counter, same error |
| `PipelineFacts.PageNumbering` | main.go:66-103 | a page read in full writes its fetched links of each kind numbered on from the counter and advances the counter by their number |
| `PipelineFacts.DialogNumbering` | main.go:40-54 | counters persist across pages, so the i-th fetched link of a kind in the dialog (page order, then document order) gets number start + i + 1; the counters end advanced by the number of such links |
| `PipelineFacts.DialogIncreasing` | main.go:41-54 | across all pages of a dialog, numbers strictly increase within each kind along the log |
| `PipelineFacts.DialogPathsDistinct` | main.go:88-98 | no two writes of one dialog go to the same path |
| `PipelineFacts.PageDirsFirst` | main.go:66-98 | a page makes the directories of its own display name before writing, and every write uses that name |
| `PipelineFacts.DialogDirsFirst` | main.go:42-53 | in a dialog, every file is written into a directory made earlier for the write's own display name and kind (that this is the name of its page is `PageDirsFirst`) |
| `PipelineFacts.WalkDialogs` | main.go:25-33 | the walk hands `readDialog` exactly the entries the filter accepts, in walk order: all of them if no dialog fails; otherwise those up to and including a dispatched dialog that fails, and the walk returns that dialog's own error; none is a community or group chat |
| `PipelineFacts.WalkErrorIff` | main.go:25-36 | the walk fails exactly when a dialog it dispatches fails |
| `PipelineFacts.WalkStopsAtFailure` | main.go:29-35 | after a failing dialog, further entries change neither the events, nor the dialogs read, nor the error |
| `PipelineFacts.WalkSkipsRoot` | main.go:25-31 | with line 26 corrected, the export root's own entry changes nothing: the walk with it in front does exactly what the walk without it does |
| `PipelineFacts.AsWrittenBelowRoot` | main.go:25-31 | below the root, where no entry's base name is its path, the walk as written and the corrected walk agree |
| `PipelineFacts.RootReadAsOneDialog` | main.go:25-53 | as written, the walk first reads the whole export root as one dialog `messages` with one pair of counters from zero; if that fails the walk ends with its error, otherwise every dialog is then read again as the corrected walk reads it |
| `PipelineFacts.OnePageExample` | main.go:56-105 | dialog `12345` with `a.ogg`, `b.jpg` and `c.mp4` makes both directories, fetches all three, writes exactly voice 1 and picture 1, and returns no error |
| `Extractor.Counters.constructor` | main.go:41 | a dialog's counters start at zero |
| `Extractor.Counters.Add` | main.go:90-93 | the counter of the kind is bumped in place and its new value returned |
| `Extractor.Extractor.SaveAttachment` | main.go:80-102 | one callback appends exactly the events of `Step` and bumps at most the one counter of the link's kind |
| `Extractor.Extractor.SaveAttachments` | main.go:79-103 | the loop over a page's links appends the events of `Emit` and advances the counters by the fetched links of each kind |
| `Extractor.Extractor.ReadDialogFile` | main.go:56-105 | appends `PageRun`'s events, leaves the counters where `PageRun` puts them, and returns no error exactly when the page was read, parsed and both directories were made |
| `Extractor.Extractor.ReadDialog` | main.go:40-54 | with fresh counters shared by every page, appends `DialogRun`'s events and returns its error |
| `Extractor.Extractor.Walk` | main.go:19-38 | walks `<root>/messages`, appends `WalkRun`'s events, and returns the dialogs dispatched and the error |

## Findings

| source | as written | input that shows it | evidently intended | confidence | as-written member | corrected member |
|---|---|---|---|---|---|---|
| main.go:26 | `f.Name() == path` compares an entry's base name with its full path, so it never skips the walk root | the root entry of the walk: path `<exe dir>/messages`, name `messages`, a directory; it passes lines 26 and 29 and is handed to `readDialog`, which then reads every `*messages*` page in the export, community and group chats included, with one pair of counters for all of them, before the walk reads each dialog again | skip the walk root (`path == root`) | high; not executed | `PipelineFacts.RootReadAsOneDialog` | `PipelineFacts.WalkSkipsRoot` |

`DialogFilter.RootDispatchedAsWritten` shows the as-written test letting the
root through; `PipelineFacts.RootReadAsOneDialog` shows the effect on the walk.

## Left out

- Pipeline.WalkRun: models the walk with line 26 corrected (`Dispatch` skips the root by path). The walk as written is `Pipeline.WalkRunAsWritten`, and its extra pass over the root is stated only by `PipelineFacts.RootReadAsOneDialog`.
- Extractor.Extractor.Walk: the imperative walk also uses the corrected `Dispatch`, so it does not perform the as-written pass over the whole export root.
- The walk as written reads every page under the root, community and group chats included. Since the walk's entries are a flat list per directory, the model does not say which dialog each of those pages belongs to.

- The directory walks of `filepath.WalkDir` (main.go:25, 42) and `os.Executable` (main.go:20-24): they are file-system I/O. The walk's output is an input: a list of entries (path, base name, is-directory, the entries beneath it) in walk order.
- The walk callback's error argument (`err`, main.go:25, 42): it is not modelled. With a nil entry (the root cannot be read) the source would dereference it.
- A directory whose `ReadDir` fails is reported to the callback a second time, with its entry and the error. The callback ignores the error, so a dialog directory is then handed to `readDialog` again (main.go:25-31), and traversal errors never stop the walk. Walk entries are given as listed, so this repeat is not modelled.
- `os.ReadFile`, `goquery.NewDocumentFromReader` and the CSS selectors (main.go:57-66, 79-80): these are foreign libraries. A page is given as already parsed: its display name and its `href`s.
- `downloadFile` (main.go:121-138): it is an HTTP client. Only its outcome is modelled: a body, or a failure for a transport error, a status other than 200 or a failed body copy.
- `createFile` and `os.MkdirAll` (main.go:67-77, 107-119): they are file-system writes. Their success or failure is an input. A file left half-written by a failed copy is not modelled.
- `sync/atomic` (main.go:90, 93): `Each` calls its callback sequentially. The counters are plain fields and nothing is concurrent.
- `int64` counters: they are modelled as `nat`. An overflow would need 2^63 links in one dialog.
- Logging and `log.Fatalf` (main.go:22, 35, 37, 69, 75): `Walk` returns the error that `main` would log before exiting.
- `Attachments.Classify`: a downloaded URL shorter than three characters makes the source panic at main.go:88. The model takes this as a precondition (`Sliceable`) and does not model the crash. No such URL can be downloaded over HTTP.
- Sanitising the display name: the source uses the scraped text verbatim as a path component, and so does the model (`PathOf`). `PathOfInjective` is about path strings only: two strings such as `A//voices/1.ogg` and `A/voices/1.ogg` name one file on a POSIX disk, and the model does not resolve paths.
- Dialogs that share a display name: two dialogs whose pages carry the same name both number from 1 and write the same targets, so the later one overwrites the earlier one's files. The model records both writes in the log and does not model the file contents on disk.
