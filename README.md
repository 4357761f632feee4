# Wedding invitation: page script and image optimiser, modelled in Dafny

This project models two parts of a static wedding-invitation site:

- **The page script, `invitation/app.js`.** It renders a one-month calendar with the wedding day circled. It finds the header image by probing candidate URLs with `HEAD` requests, and builds the photo gallery by probing numbered file names (`01.jpg` … `50.webp`), falling back to two sample photos. It lists the contacts with `tel:` links that keep only digits and `+`. It opens and closes the footer dialogs. Opening one stops the page behind it from scrolling, and closing any one clears that style again, even when another dialog is still shown.
- **The build script, `invitation/optimize-images.js`.** For the gallery and the header directory it:
  - selects the `.jpg`/`.jpeg`/`.png` files of the directory, case-insensitively, in sorted order (only the first two in test mode);
  - backs each original up unless a backup already exists;
  - converts each file to WebP next to the original;
  - adds up the original and WebP sizes.

  Then it adds up grand totals over both directories.

**Modules:**
- `Wrappers`: `Option`.
- `Text`: decimal rendering, `padStart`, ASCII lower-casing and suffix tests.
- `Seqs`: order-preserving filter.
- `Dom`: an element whose children are appended in order.
- `Calendar`, `Assets`, `Contacts` and `Modals` model the page script.
- `NodePath` models the POSIX `path` functions the build script calls: `extname`, `basename`, `dirname`, and `join` with its normalisation.
- `Selection` models the file selection.
- `Optimizer` models `backupAndOptimize` and `main`.

**Outside effects are inputs:**
- **`urlExists`.** The network check becomes the oracle `urlExists`. Every probing method also returns the URLs it asked about, in order.
- **The file system.** A directory listing (or `Missing`), the set of paths that already exist, an oracle `copyOk` for `copyFileSync`, and an oracle `convert` for `sharp`. `convert` gives the original's and the WebP file's sizes, or `None` when reading, encoding or writing throws.
- **What the script does to the disk.** The backups copied and the WebP files written come back as logs.
- **Exceptions.** A thrown exception ends the script through `main().catch`. It is modelled as the outcome `Failed(file)`, together with whatever was copied and written before it.

**Loops.** Loops in the source are loops here:
- `renderCalendar`'s two loops;
- the probe loops;
- the rendering loops;
- `backupAndOptimize`'s loop and `main`'s step-by-step grand totals.

Each loop is proved against a function that states the whole result. The lemmas beside those functions state what the script promises.

## Model

| member | source | states |
|---|---|---|
| Calendar.RenderCalendar | invitation/app.js:41-81 | With a root: appends the title block and a fresh grid to it. The grid then holds the seven weekday cells, then the day cells. Without a root: nothing happens. |
| Calendar.TotalCells | invitation/app.js:67 | The cell count is the least multiple of 7 that holds the leading blanks and all days. |
| Calendar.DayCellsLayout | invitation/app.js:69-80 | The first `first` cells are blank. The next cells show 1, …, daysInMonth in order at positions `first + d - 1`. Every later cell is blank. |
| Calendar.SelectedCell | invitation/app.js:69-80 | A cell is circled iff the selected day is a day of the month; then exactly the cell showing that day is. |
| Calendar.GridHeader | invitation/app.js:57-63 | The grid starts with the weekday labels Sunday to Saturday, in order. |
| Calendar.ClassName | invitation/app.js:60-75 | A cell's class list is "cell day selected" exactly on the circled day, "cell dow" exactly on a weekday label, and "cell day" on every other cell. |
| Calendar.January2026 | invitation/app.js:65-67 | January 2026 (starts on weekday 4, 31 days) gives 35 cells. The last one is the circled "31". |
| Text.NatToStringInjective | invitation/app.js:74 | Different day numbers are rendered as different texts. |
| Text.PadStart | invitation/app.js:119 | `padStart` gives the string itself when it is long enough, else the pad characters followed by the string, at exactly the width. |
| Assets.FirstExisting | invitation/app.js:9-13 | The first position whose URL exists, with no earlier one existing; `None` iff no URL exists. |
| Assets.RetryUrlsAreHeaderUrls | invitation/app.js:8-20 | The header search's second loop asks about exactly the four URLs of the first, in the same order. |
| Assets.FindSingleHeaderImage | invitation/app.js:6-23 | Returns the first existing header candidate, having asked only up to it. If no candidate exists, it asks about all four twice and falls back to `AU1_0651-2.jpg`. |
| Assets.ProbeIndex | invitation/app.js:118-122 | For one index: the first existing URL over the four extensions, in order, having asked up to and including it. |
| Assets.ProbeNumbered | invitation/app.js:117-123 | The numbered probe gives exactly the found URL of each index from 1 to n, in index order, and asks exactly the searches' URLs. |
| Assets.ProbeSamples | invitation/app.js:125-131 | The fallback probe asks about every sample URL and keeps, in order, those that exist. |
| Assets.ProbeGallery | invitation/app.js:114-131 | The gallery's URLs are the numbered ones, or the existing samples when there are none. The samples are asked about only then. |
| Assets.NumberedItemsShape | invitation/app.js:117-123 | At most one URL per index: the items are, in ascending index order, the found URLs of exactly those indices for which some extension exists. |
| Assets.NumberedUrlsDistinct | invitation/app.js:115-120 | Two candidate URLs for indices in 1..50 are equal only when index and extension are. |
| Assets.FallbackOnlyWhenEmpty | invitation/app.js:125-131 | The sample URLs are asked about iff the numbered probe found nothing. |
| Assets.ItemsFor | invitation/app.js:132-141 | One gallery entry per URL, in the same order, each showing that URL. |
| Assets.AppendItems | invitation/app.js:132-141 | The rendering loop appends exactly those entries, in order. |
| Assets.BuildGallery | invitation/app.js:111-142 | With a carousel: probes as above and appends one entry per URL found, in order. Without one: it neither probes nor renders. |
| Contacts.TelDigitsKeepsExactly | invitation/app.js:188 | The `tel:` target keeps exactly the digits and `+` signs of the phone string, as often as they occur, in order, and nothing else. |
| Contacts.TelDigitsIdempotent | invitation/app.js:188 | Sanitising a sanitised number changes nothing. |
| Contacts.TelDigitsUnchanged | invitation/app.js:188 | A phone string is left as it is iff it holds only digits and `+`. |
| Contacts.RenderContacts | invitation/app.js:171-193 | With a list: appends one row per contact in table order. The span reads "label name"; the link dials the sanitised number and shows the phone as written. |
| Modals.Page.OpenModal | invitation/app.js:159-164 | An existing dialog is shown and scrolling locked. For an unknown id nothing changes. No other dialog changes. |
| Modals.Page.CloseModal | invitation/app.js:165-168 | The dialog is hidden and the body's overflow style cleared (not restored). No other dialog changes. |
| Modals.Page.ClickButton | invitation/app.js:154-156 | Each of the three buttons opens its dialog and leaves the other dialogs as they were. Any other click opens none and changes nothing. |
| Modals.Page.ClickInDialog | invitation/app.js:145-153 | A click on a dialog's `data-close` backdrop or its `.modal-close` button closes that dialog and clears the overflow style. Any other click changes nothing. No other dialog changes. |
| Modals.OpenThenClose | invitation/app.js:159-168 | Opening then closing a dialog leaves it hidden and the page scrollable, whatever the overflow style was before. |
| Selection.WebpNotImage | invitation/optimize-images.js:67 | A name ending in `.webp`, in any case, is never selected. |
| Selection.SelectImagesCorrect | invitation/optimize-images.js:66-68 | The selection is sorted and holds exactly the listing's image names, each as often as in the listing. |
| Selection.SortCorrect | invitation/optimize-images.js:68 | The sort result is ordered and a permutation of its input. |
| Selection.SortedUnique | invitation/optimize-images.js:68 | There is only one sorted arrangement of a collection, so any correct sort gives the same result. |
| Selection.LexLeTotal | invitation/optimize-images.js:68 | The default sort order is total. |
| Selection.LexLeAntisymmetric | invitation/optimize-images.js:68 | The default sort order is antisymmetric. |
| Selection.LexLeTransitive | invitation/optimize-images.js:68 | The default sort order is transitive. |
| Selection.ToProcessShape | invitation/optimize-images.js:76 | Test mode processes exactly the first min(2, n) selected files; otherwise all of them. |
| NodePath.JoinPlainDir | invitation/optimize-images.js:82-83 | `path.join` of a plain relative directory and a plain name is their concatenation with one separator. |
| NodePath.JoinDotDir | invitation/optimize-images.js:82-83 | `path.join("./a/b", name)` is `a/b/name`: normalisation drops the leading `./`. |
| NodePath.DirnameOfChild | invitation/optimize-images.js:28 | The directory of `dir/name` is `dir`. |
| NodePath.BasenameOfChild | invitation/optimize-images.js:26-27 | The base name of `dir/name` is `name`, and its extension is the name's. |
| NodePath.BasenameWithoutOfChild | invitation/optimize-images.js:27 | `basename(dir/name, ext)` strips `ext` exactly when the name ends with it, case-sensitively, and is longer. |
| NodePath.BasenameWithoutTrailingSlash | invitation/optimize-images.js:27 | Trailing separators are skipped before the suffix is stripped: `basename("a.jpg/", ".jpg")` is `"a"`. |
| NodePath.BasenameWithoutShortPortion | invitation/optimize-images.js:27 | When the last portion is a proper tail of the suffix, the trailing separators are kept: `basename("ab/", "xab")` is `"ab/"` and `basename("//", "/")` is `"//"`. |
| Optimizer.WebpPathInPlace | invitation/optimize-images.js:26-29 | Converting `dir/f` in place writes `dir/` followed by the WebP name of `f`. |
| Optimizer.WebpNameLowerExt | invitation/optimize-images.js:26-29 | A lower-case extension is replaced by `.webp`: `a.jpg` gives `a.webp`. |
| Optimizer.WebpNameMixedCaseExt | invitation/optimize-images.js:26-29 | An extension that is not lower case is kept and `.webp` appended: `A.JPG` gives `A.JPG.webp`. |
| Optimizer.SameStemSameWebp | invitation/optimize-images.js:26-29 | `x.jpg`, `x.jpeg` and `x.png` are all written to `x.webp`, so a later one replaces the earlier one's WebP file. |
| Optimizer.GalleryJob | invitation/optimize-images.js:82-94 | A gallery file `f` is read from `pictures/gallery/f`, backed up to `pictures/gallery_original/f` and written as `pictures/gallery/` plus its WebP name. |
| Optimizer.HeaderJob | invitation/optimize-images.js:82-94 | The same for the header directory and its backup directory. |
| Optimizer.ScriptGalleryJobs | invitation/optimize-images.js:122-125 | With the script's own directories, the gallery pass is `Process` over the selected files' jobs. The k-th job backs up `pictures/gallery/f` to `pictures/gallery_original/f` and writes `pictures/gallery/` + the WebP name of `f`. |
| Optimizer.ScriptHeaderJobs | invitation/optimize-images.js:131-134 | The same for the header pass, `pictures/header` and `pictures/header_original`. |
| Optimizer.JobsForAt | invitation/optimize-images.js:81-83 | The k-th file processed is handled under the k-th file's source, backup and WebP paths. |
| Optimizer.BackupAndOptimize | invitation/optimize-images.js:60-104 | A missing directory or no images gives zero totals and touches nothing. Otherwise the files to process are handled in order. |
| Optimizer.ProcessAll | invitation/optimize-images.js:78-103 | The loop with its running totals. Each file copies its backup only when absent, then converts. The first throw ends the run. |
| Optimizer.ProcessCount | invitation/optimize-images.js:102 | A finished run reports `count` equal to the number of files to process, and wrote that many WebP files. |
| Optimizer.ProcessSums | invitation/optimize-images.js:94-96 | A finished run converted every file, and its totals are the sums of the sizes reported per file. |
| Optimizer.ProcessWritten | invitation/optimize-images.js:26-34 | A finished run wrote exactly the files' WebP paths, in list order. |
| Optimizer.ProcessFailure | invitation/optimize-images.js:81-97 | A failed run names the file it stopped at. That file's backup was missing and copying it threw, or its conversion threw. Every earlier file already had its backup or had it copied, and was converted and its WebP written, in order. Nothing was written from that file on, and only files up to it were backed up. |
| Optimizer.CopiesFresh | invitation/optimize-images.js:85-87 | Every backup copied goes to a path that did not exist at the start, and copies a file of the run to that file's backup path. |
| Optimizer.CopiesDistinct | invitation/optimize-images.js:85-87 | No backup path is copied to twice, so no backup is ever overwritten. |
| Optimizer.RerunCopiesNothing | invitation/optimize-images.js:85-87 | When every backup already exists, a run copies nothing. |
| Optimizer.NothingToProcess | invitation/optimize-images.js:61-73 | A missing directory or a listing without images gives totals 0/0/0 and no copies or writes. |
| Optimizer.TestModeAtMostTwo | invitation/optimize-images.js:76 | In test mode a directory contributes at most two files. |
| Optimizer.OptimizeAll | invitation/optimize-images.js:106-136 | `--test` among the arguments selects test mode. The gallery pass runs, then the header pass on the file system the gallery pass left behind. A gallery failure ends the program. |
| Optimizer.AddUp | invitation/optimize-images.js:118-136 | The grand totals, updated step by step, equal the summary of the two passes. |
| Optimizer.GrandTotals | invitation/optimize-images.js:118-136 | The program finishes iff both passes do. Its totals are the sums of the two passes' totals. Its writes are the gallery's followed by the header's. |
| Optimizer.TestModeAtMostFour | invitation/optimize-images.js:124-133 | A test run processes at most four images. |

## Left out

- `setupMap`, `renderAccounts`, the clipboard/Kakao sharing code, `setHeroImage`, the lightbox, loader and reveal animations: not part of this model.
- Modals.Page.ClickInDialog: takes whether the click landed on a `data-close` element or on the `.modal-close` button as two flags. Event dispatch and bubbling are not modelled.
- The `Date` computation of the month's first weekday and length: these two numbers are parameters of `Calendar.RenderCalendar`. `Calendar.January2026` covers the page's own values.
- `urlExists`, `fetch`, `fs`, `sharp` and `async`/`await` ordering: external effects. They are the oracles described above. For one run, the oracles give fixed answers.
- `formatBytes`, the savings percentages and all console output: floating point and logging. Nothing the model states depends on them. `main` divides by zero when nothing was processed; only the printed savings change.
- The QUALITY and effort settings passed to `sharp`: they only affect the encoder, which is the `convert` oracle.
- `process.exit(1)` after an uncaught error: modelled as the outcome `Failed(file)`. A file whose backup copy throws is not in the copy log.
- Optimizer.OptimizeAll: takes the script's four directories as a `Layout` parameter. The script's own are `Optimizer.Directories`. For those, `ScriptGalleryJobs` and `ScriptHeaderJobs` state the paths. They take the listing's entries to be plain names, as `readdirSync` returns them.
- Optimizer.BackupAndOptimize: computes each file's paths (the `Job`s) before the loop instead of inside it. These are pure functions of the file name, so the results are the same.
- Selection.SortCorrect: orders strings by character code, while `Array.prototype.sort` compares UTF-16 code units. The two differ only for characters outside the Basic Multilingual Plane.
- Selection.IsImageName: lower-cases ASCII letters only. The regular expression's `i` flag also folds some non-ASCII letters, but none of those can match `jpg`, `jpeg` or `png` in a way that changes the result.
- NodePath: the lemmas about `path.join`, `path.normalize` and `path.basename` cover relative directories made of plain portions and plain file names. Those are the shapes the script uses. For other inputs, nothing is proved about how the functions compare with Node.
