/**
  The batch image optimiser: for each selected image of a directory, back
  the original up unless a backup already exists, convert it to WebP next
  to the original, and add up the sizes; then the same for the header
  directory, and grand totals over both.

  The file system is abstract. A directory listing is given (or `Missing`),
  `present` is the set of paths that already exist, `copyOk(src, dst)` says
  whether a copy succeeds and `convert(src, webp)` gives the sizes of the
  original and of the written WebP file, or `None` when reading, encoding or
  writing throws. Copies made and WebP files written are returned as logs.
 */
module Optimizer {
  import opened Wrappers
  import opened Text
  import opened Seqs
  import opened NodePath
  import opened Selection

  const GalleryDir := "./pictures/gallery"
  const HeaderDir := "./pictures/header"
  const BackupGallery := "./pictures/gallery_original"
  const BackupHeader := "./pictures/header_original"
  const TestFlag := "--test"

  datatype Sizes = Sizes(original: nat, webp: nat)
  datatype Totals = Totals(totalOriginal: nat, totalWebP: nat, count: nat)
  datatype Listing = Missing | Entries(names: seq<string>)
  /** `Failed(file)`: processing `file` threw, which ends the whole run. */
  datatype Outcome = Done(totals: Totals) | Failed(file: string)
  datatype Copy = Copy(src: string, dst: string)
  datatype Run = Run(outcome: Outcome, copies: seq<Copy>, written: seq<string>)
  /** The paths one file of a directory is processed under. */
  datatype Job = Job(file: string, sourcePath: string, backupPath: string, webpPath: string)

  const Zero := Totals(0, 0, 0)

  // -------------------------------------------------------------- WebP path

  /**
    Where `optimizeImage(inputPath, outputPath)` writes: the directory of
    the output path, and the input's base name with its lower-cased
    extension stripped, followed by `.webp`.
   */
  function WebpPath(inputPath: string, outputPath: string): string {
    var ext := Lower(Extname(inputPath));
    var baseName := BasenameWithout(inputPath, ext);
    Join(Dirname(outputPath), baseName + ".webp")
  }

  /**
    The WebP name of a plain file name: the extension comes off only when it
    is already lower case, since the lower-cased extension must match the
    name's own ending exactly.
   */
  function WebpName(f: string): string {
    var ext := Lower(ExtOf(f));
    (if 0 < |ext| < |f| && EndsWith(f, ext) then f[..|f| - |ext|] else f) + ".webp"
  }

  lemma ExtOfShape(f: string)
    ensures |ExtOf(f)| < |f| || ExtOf(f) == ""
    ensures EndsWith(f, ExtOf(f))
  {
  }

  /** The WebP name of a plain name is plain. */
  lemma WebpNamePlain(f: string)
    requires Plain(f)
    ensures Plain(WebpName(f))
  {
    var ext := Lower(ExtOf(f));
    var base := if 0 < |ext| < |f| && EndsWith(f, ext) then f[..|f| - |ext|] else f;
    var w := base + ".webp";
    assert w[|w| - 1] == 'p';
    forall k | 0 <= k < |w| ensures w[k] != '/' {
      if k < |base| {
        assert base[k] == f[k];
        assert f[k] in f;
      } else {
        assert w[k] == ".webp"[k - |base|];
      }
    }
  }

  /** The name part of the in-place WebP path. */
  lemma WebpBaseInPlace(dir: string, f: string)
    requires Plain(f)
    ensures BasenameWithout(dir + "/" + f, Lower(Extname(dir + "/" + f))) + ".webp" == WebpName(f)
  {
    var ext := Lower(ExtOf(f));
    BasenameOfChild(dir, f);
    ExtOfShape(f);
    assert Lower(Extname(dir + "/" + f)) == ext;
    BasenameWithoutOfChild(dir, f, ext);
  }

  /** Converting `dir/f` in place writes `dir/` followed by the WebP name of `f`. */
  lemma WebpPathInPlace(dir: string, f: string)
    requires PlainDir(dir) && Plain(f)
    requires dir != "" && dir[0] != '/'
    ensures WebpPath(dir + "/" + f, dir + "/" + f) == dir + "/" + WebpName(f)
  {
    WebpBaseInPlace(dir, f);
    DirnameOfChild(dir, f);
    WebpNamePlain(f);
    JoinPlainDir(dir, WebpName(f));
  }

  /**
    The job of a plain name in a directory written `./a/b`, backed up to
    one written `./c/d`: the paths lose their leading `./`, and the WebP
    file sits next to the source.
   */
  lemma DotDirJob(source: seq<string>, backup: seq<string>, f: string)
    requires source != [] && forall k :: 0 <= k < |source| ==> Plain(source[k])
    requires backup != [] && forall k :: 0 <= k < |backup| ==> Plain(backup[k])
    requires Plain(f)
    ensures JobFor(JoinSegs(["."] + source), JoinSegs(["."] + backup), f)
         == Job(f, JoinSegs(source) + "/" + f, JoinSegs(backup) + "/" + f, JoinSegs(source) + "/" + WebpName(f))
  {
    JoinDotDir(source, f);
    JoinDotDir(backup, f);
    PlainDirOf(source);
    JoinSegsHead(source);
    assert source[0][0] in source[0];
    WebpPathInPlace(JoinSegs(source), f);
  }

  /** Gallery images: `./pictures/gallery/a.jpg` is backed up to `pictures/gallery_original/a.jpg` and written as `pictures/gallery/a.webp`. */
  lemma GalleryJob(f: string)
    requires Plain(f)
    ensures JobFor(GalleryDir, BackupGallery, f)
         == Job(f, "pictures/gallery" + "/" + f, "pictures/gallery_original" + "/" + f, "pictures/gallery" + "/" + WebpName(f))
  {
    GalleryPortions();
    DotDirJob(["pictures", "gallery"], ["pictures", "gallery_original"], f);
  }

  /** `./a/b` and `a/b` as portions. */
  lemma DotPortions(a: string, b: string)
    ensures JoinSegs(["."] + [a, b]) == "." + "/" + a + "/" + b
    ensures JoinSegs([a, b]) == a + "/" + b
  {
    var all := ["."] + [a, b];
    assert all == [".", a, b];
    assert all[..2] == [".", a] && all[2] == b;
    assert [".", a][..1] == ["."];
    assert JoinSegs([".", a]) == "." + "/" + a;
    assert JoinSegs(all) == JoinSegs([".", a]) + "/" + b;
    assert [a, b][..1] == [a];
  }

  /** The gallery directories as portions: `./pictures/gallery` and `./pictures/gallery_original`. */
  lemma GalleryPortions()
    ensures GalleryDir == JoinSegs(["."] + ["pictures", "gallery"]) && JoinSegs(["pictures", "gallery"]) == "pictures/gallery"
    ensures BackupGallery == JoinSegs(["."] + ["pictures", "gallery_original"]) && JoinSegs(["pictures", "gallery_original"]) == "pictures/gallery_original"
  {
    DotPortions("pictures", "gallery");
    DotPortions("pictures", "gallery_original");
    assert "." + "/" + "pictures" + "/" + "gallery" == GalleryDir;
    assert "." + "/" + "pictures" + "/" + "gallery_original" == BackupGallery;
    assert "pictures" + "/" + "gallery" == "pictures/gallery";
    assert "pictures" + "/" + "gallery_original" == "pictures/gallery_original";
  }

  /** The header image: `./pictures/header/a.jpg` is backed up to `pictures/header_original/a.jpg` and written as `pictures/header/a.webp`. */
  lemma HeaderJob(f: string)
    requires Plain(f)
    ensures JobFor(HeaderDir, BackupHeader, f)
         == Job(f, "pictures/header" + "/" + f, "pictures/header_original" + "/" + f, "pictures/header" + "/" + WebpName(f))
  {
    HeaderPortions();
    DotDirJob(["pictures", "header"], ["pictures", "header_original"], f);
  }

  /** The header directories as portions: `./pictures/header` and `./pictures/header_original`. */
  lemma HeaderPortions()
    ensures HeaderDir == JoinSegs(["."] + ["pictures", "header"]) && JoinSegs(["pictures", "header"]) == "pictures/header"
    ensures BackupHeader == JoinSegs(["."] + ["pictures", "header_original"]) && JoinSegs(["pictures", "header_original"]) == "pictures/header_original"
  {
    DotPortions("pictures", "header");
    DotPortions("pictures", "header_original");
    assert "." + "/" + "pictures" + "/" + "header" == HeaderDir;
    assert "." + "/" + "pictures" + "/" + "header_original" == BackupHeader;
    assert "pictures" + "/" + "header" == "pictures/header";
    assert "pictures" + "/" + "header_original" == "pictures/header_original";
  }

  /** A lower-case extension is replaced: `a.jpg` becomes `a.webp`. */
  lemma WebpNameLowerExt(f: string)
    requires ExtOf(f) != "" && Lower(ExtOf(f)) == ExtOf(f)
    ensures WebpName(f) == f[..|f| - |ExtOf(f)|] + ".webp"
  {
    ExtOfShape(f);
  }

  /** Any other extension stays, and `.webp` is appended: `A.JPG` becomes `A.JPG.webp`. */
  lemma WebpNameMixedCaseExt(f: string)
    requires Lower(ExtOf(f)) != ExtOf(f)
    ensures WebpName(f) == f + ".webp"
  {
    ExtOfShape(f);
  }

  /** The extension of a name ending in `.` and letters without another `.` is that ending. */
  lemma ExtOfEnding(stem: string, ext: string)
    requires stem != "" && |ext| >= 2 && ext[0] == '.' && '.' !in ext[1..]
    ensures ExtOf(stem + ext) == ext
  {
    var f := stem + ext;
    forall j | |stem| < j < |f| ensures f[j] != '.' {
      assert f[j] == ext[1..][j - |stem| - 1];
    }
    LastIndexOfAt(f, '.', |stem|);
    assert f[|stem|..] == ext;
  }

  /**
    Images that differ only in their lower-case extension are written to
    the same WebP file: a later one in the list replaces an earlier one's
    WebP version.
   */
  lemma SameStemSameWebp(stem: string)
    requires stem != ""
    ensures WebpName(stem + ".jpg") == stem + ".webp"
    ensures WebpName(stem + ".jpeg") == stem + ".webp"
    ensures WebpName(stem + ".png") == stem + ".webp"
  {
    LowerImageEndings();
    WebpNameOfLowerEnding(stem, ".jpg");
    WebpNameOfLowerEnding(stem, ".jpeg");
    WebpNameOfLowerEnding(stem, ".png");
  }

  /** The three image endings are lower case and hold one `.`, in front. */
  lemma LowerImageEndings()
    ensures '.' !in ".jpg"[1..] && '.' !in ".jpeg"[1..] && '.' !in ".png"[1..]
    ensures Lower(".jpg") == ".jpg" && Lower(".jpeg") == ".jpeg" && Lower(".png") == ".png"
  {
    assert ".jpg"[1..] == "jpg" && ".jpeg"[1..] == "jpeg" && ".png"[1..] == "png";
  }

  lemma WebpNameOfLowerEnding(stem: string, ext: string)
    requires stem != "" && |ext| >= 2 && ext[0] == '.' && '.' !in ext[1..] && Lower(ext) == ext
    ensures WebpName(stem + ext) == stem + ".webp"
  {
    ExtOfEnding(stem, ext);
    WebpNameLowerExt(stem + ext);
    assert (stem + ext)[..|stem|] == stem;
  }

  // ------------------------------------------------------- backupAndOptimize

  /** The source and backup paths of `file`, and where its WebP version goes. */
  function JobFor(sourceDir: string, backupDir: string, file: string): Job {
    var sourcePath := Join(sourceDir, file);
    Job(file, sourcePath, Join(backupDir, file), WebpPath(sourcePath, sourcePath))
  }

  function JobsFor(sourceDir: string, backupDir: string, files: seq<string>): (jobs: seq<Job>)
    ensures |jobs| == |files|
  {
    if files == [] then [] else [JobFor(sourceDir, backupDir, files[0])] + JobsFor(sourceDir, backupDir, files[1..])
  }

  /** The job of each file, in order. */
  lemma {:induction false} JobsForAt(sourceDir: string, backupDir: string, files: seq<string>, k: nat)
    requires k < |files|
    ensures JobsFor(sourceDir, backupDir, files)[k] == JobFor(sourceDir, backupDir, files[k])
  {
    if k > 0 {
      JobsForAt(sourceDir, backupDir, files[1..], k - 1);
    }
  }

  /**
    One file after another, left to right: copy the original to the backup
    path when that path does not exist yet, then convert it to WebP. The
    totals count the files converted and add up their sizes; the first
    failure ends the run with what was copied and written so far.
   */
  function Process(jobs: seq<Job>, present: set<string>,
                   copyOk: (string, string) -> bool, convert: (string, string) -> Option<Sizes>): Run
    decreases |jobs|
  {
    if jobs == [] then Run(Done(Zero), [], [])
    else
      var job := jobs[0];
      var copying := job.backupPath !in present;
      if copying && !copyOk(job.sourcePath, job.backupPath) then Run(Failed(job.file), [], [])
      else
        var copies := if copying then [Copy(job.sourcePath, job.backupPath)] else [];
        var afterCopy := if copying then present + {job.backupPath} else present;
        match convert(job.sourcePath, job.webpPath)
        case None => Run(Failed(job.file), copies, [])
        case Some(sizes) =>
          var rest := Process(jobs[1..], afterCopy + {job.webpPath}, copyOk, convert);
          Run(AddSizes(sizes, rest.outcome), copies + rest.copies, [job.webpPath] + rest.written)
  }

  /** One file's sizes added to a run's totals; a failure stays a failure. */
  function AddSizes(sizes: Sizes, outcome: Outcome): Outcome {
    match outcome
    case Failed(file) => Failed(file)
    case Done(t) => Done(Totals(sizes.original + t.totalOriginal, sizes.webp + t.totalWebP, 1 + t.count))
  }

  /** What `backupAndOptimize(sourceDir, backupDir, testMode)` does to a directory with the given listing. */
  function BackupAndOptimizeSpec(sourceDir: string, backupDir: string, testMode: bool, listing: Listing,
                                 present: set<string>, copyOk: (string, string) -> bool,
                                 convert: (string, string) -> Option<Sizes>): Run
  {
    match listing
    case Missing => Run(Done(Zero), [], [])
    case Entries(names) =>
      var files := SelectImages(names);
      if files == [] then Run(Done(Zero), [], [])
      else Process(JobsFor(sourceDir, backupDir, ToProcess(files, testMode)), present, copyOk, convert)
  }

  /** The totals accumulated so far in front of the rest of a run. */
  function Prepend(totalOriginal: nat, totalWebP: nat, count: nat, copies: seq<Copy>, written: seq<string>, rest: Run): Run {
    var outcome := match rest.outcome
      case Failed(file) => Failed(file)
      case Done(t) => Done(Totals(totalOriginal + t.totalOriginal, totalWebP + t.totalWebP, count + t.count));
    Run(outcome, copies + rest.copies, written + rest.written)
  }

  /** `backupAndOptimize`: the early returns, then the loop over the files to process. */
  method BackupAndOptimize(sourceDir: string, backupDir: string, testMode: bool, listing: Listing,
                           present: set<string>, copyOk: (string, string) -> bool,
                           convert: (string, string) -> Option<Sizes>)
    returns (run: Run)
    ensures run == BackupAndOptimizeSpec(sourceDir, backupDir, testMode, listing, present, copyOk, convert)
  {
    if listing.Missing? {
      return Run(Done(Zero), [], []);
    }
    var files := SelectImages(listing.names);
    if |files| == 0 {
      return Run(Done(Zero), [], []);
    }
    var filesToProcess := ToProcess(files, testMode);
    run := ProcessAll(JobsFor(sourceDir, backupDir, filesToProcess), present, copyOk, convert);
  }

  /**
    The loop of `backupAndOptimize` over the files to process, each with its
    paths, and its accumulators; `count` is the number of files to process.
   */
  method ProcessAll(jobs: seq<Job>, present: set<string>, copyOk: (string, string) -> bool,
                    convert: (string, string) -> Option<Sizes>)
    returns (run: Run)
    ensures run == Process(jobs, present, copyOk, convert)
  {
    ghost var spec := Process(jobs, present, copyOk, convert);
    var totalOriginal: nat, totalWebP: nat := 0, 0;
    var copies, written := [], [];
    var onDisk := present;
    var i := 0;
    assert jobs[0..] == jobs;
    PrependNothing(spec);
    while i < |jobs|
      invariant 0 <= i <= |jobs|
      invariant spec == Prepend(totalOriginal, totalWebP, i, copies, written, Process(jobs[i..], onDisk, copyOk, convert))
    {
      var job := jobs[i];
      assert jobs[i..][0] == job && jobs[i..][1..] == jobs[i + 1..];
      ghost var copies0, onDisk0 := copies, onDisk;
      ghost var here := Process(jobs[i..], onDisk0, copyOk, convert);
      ghost var copied: seq<Copy> := [];
      if job.backupPath !in onDisk {
        if !copyOk(job.sourcePath, job.backupPath) {
          assert here == Run(Failed(job.file), [], []);
          PrependFailed(totalOriginal, totalWebP, i, copies, written, job.file, []);
          return Run(Failed(job.file), copies, written);
        }
        copied := [Copy(job.sourcePath, job.backupPath)];
        copies := copies + [Copy(job.sourcePath, job.backupPath)];
        onDisk := onDisk + {job.backupPath};
      }
      var result := convert(job.sourcePath, job.webpPath);
      if result.None? {
        assert here == Run(Failed(job.file), copied, []);
        PrependFailed(totalOriginal, totalWebP, i, copies0, written, job.file, copied);
        return Run(Failed(job.file), copies, written);
      }
      ghost var next := Process(jobs[i + 1..], onDisk + {job.webpPath}, copyOk, convert);
      assert here == Run(AddSizes(result.value, next.outcome), copied + next.copies, [job.webpPath] + next.written);
      PrependAdvance(totalOriginal, totalWebP, i, copies0, written, result.value, copied, job.webpPath, next);
      assert copies == copies0 + copied;
      written := written + [job.webpPath];
      onDisk := onDisk + {job.webpPath};
      totalOriginal := totalOriginal + result.value.original;
      totalWebP := totalWebP + result.value.webp;
      i := i + 1;
    }
    assert Process(jobs[i..], onDisk, copyOk, convert) == Run(Done(Zero), [], []);
    PrependEnd(totalOriginal, totalWebP, i, copies, written);
    return Run(Done(Totals(totalOriginal, totalWebP, |jobs|)), copies, written);
  }

  /** Nothing accumulated yet. */
  lemma PrependNothing(r: Run)
    ensures Prepend(0, 0, 0, [], [], r) == r
  {
    assert [] + r.copies == r.copies && [] + r.written == r.written;
  }

  /** Moving one converted file from the rest of a run into the accumulators. */
  lemma PrependAdvance(totalOriginal: nat, totalWebP: nat, count: nat, copies: seq<Copy>, written: seq<string>,
                       sizes: Sizes, copied: seq<Copy>, webpPath: string, rest: Run)
    ensures Prepend(totalOriginal, totalWebP, count, copies, written,
                    Run(AddSizes(sizes, rest.outcome), copied + rest.copies, [webpPath] + rest.written))
         == Prepend(totalOriginal + sizes.original, totalWebP + sizes.webp, count + 1,
                    copies + copied, written + [webpPath], rest)
  {
    assert copies + (copied + rest.copies) == (copies + copied) + rest.copies;
    assert written + ([webpPath] + rest.written) == (written + [webpPath]) + rest.written;
  }

  /** A failure in the rest of a run ends it with what was copied before and during the failing file. */
  lemma PrependFailed(totalOriginal: nat, totalWebP: nat, count: nat, copies: seq<Copy>, written: seq<string>,
                      file: string, copied: seq<Copy>)
    ensures Prepend(totalOriginal, totalWebP, count, copies, written, Run(Failed(file), copied, []))
         == Run(Failed(file), copies + copied, written)
  {
    assert written + [] == written;
  }

  /** Nothing left: the accumulators are the totals. */
  lemma PrependEnd(totalOriginal: nat, totalWebP: nat, count: nat, copies: seq<Copy>, written: seq<string>)
    ensures Prepend(totalOriginal, totalWebP, count, copies, written, Run(Done(Zero), [], []))
         == Run(Done(Totals(totalOriginal, totalWebP, count)), copies, written)
  {
    assert copies + [] == copies && written + [] == written;
  }

  // ------------------------------------------------------------------ lemmas

  /** The paths that exist once the run's first job was handled. */
  function Next(job: Job, present: set<string>): set<string> {
    (if job.backupPath !in present then present + {job.backupPath} else present) + {job.webpPath}
  }

  /** A finished run has converted every file, once each: `count` is the number of files to process. */
  lemma {:induction false} ProcessCount(jobs: seq<Job>, present: set<string>,
                                        copyOk: (string, string) -> bool, convert: (string, string) -> Option<Sizes>)
    ensures var r := Process(jobs, present, copyOk, convert);
      r.outcome.Done? ==> r.outcome.totals.count == |jobs| && |r.written| == |jobs|
    decreases |jobs|
  {
    if jobs != [] {
      ProcessCount(jobs[1..], Next(jobs[0], present), copyOk, convert);
    }
  }

  /** What converting a job reports, with no sizes when it throws. */
  function SizesFor(job: Job, convert: (string, string) -> Option<Sizes>): Sizes {
    match convert(job.sourcePath, job.webpPath)
    case Some(sizes) => sizes
    case None => Sizes(0, 0)
  }

  function SumOriginal(jobs: seq<Job>, convert: (string, string) -> Option<Sizes>): nat {
    if jobs == [] then 0 else SizesFor(jobs[0], convert).original + SumOriginal(jobs[1..], convert)
  }

  function SumWebP(jobs: seq<Job>, convert: (string, string) -> Option<Sizes>): nat {
    if jobs == [] then 0 else SizesFor(jobs[0], convert).webp + SumWebP(jobs[1..], convert)
  }

  /** A missing directory or a listing without images gives zero totals and touches nothing. */
  lemma NothingToProcess(sourceDir: string, backupDir: string, testMode: bool, listing: Listing,
                         present: set<string>, copyOk: (string, string) -> bool,
                         convert: (string, string) -> Option<Sizes>)
    requires listing.Missing? || SelectImages(listing.names) == []
    ensures BackupAndOptimizeSpec(sourceDir, backupDir, testMode, listing, present, copyOk, convert)
         == Run(Done(Totals(0, 0, 0)), [], [])
  {
  }

  /** A finished run converted every file and its totals are the sums of the reported sizes. */
  lemma {:induction false} ProcessSums(jobs: seq<Job>, present: set<string>,
                                       copyOk: (string, string) -> bool, convert: (string, string) -> Option<Sizes>)
    ensures var r := Process(jobs, present, copyOk, convert);
      r.outcome.Done? ==>
        && (forall k :: 0 <= k < |jobs| ==> convert(jobs[k].sourcePath, jobs[k].webpPath).Some?)
        && r.outcome.totals.totalOriginal == SumOriginal(jobs, convert)
        && r.outcome.totals.totalWebP == SumWebP(jobs, convert)
    decreases |jobs|
  {
    if jobs != [] {
      ProcessSums(jobs[1..], Next(jobs[0], present), copyOk, convert);
      var r := Process(jobs, present, copyOk, convert);
      if r.outcome.Done? {
        forall k | 0 < k < |jobs| ensures convert(jobs[k].sourcePath, jobs[k].webpPath).Some? {
          assert jobs[1..][k - 1] == jobs[k];
        }
      }
    }
  }

  /** A finished run wrote one WebP file per file, in list order. */
  lemma {:induction false} ProcessWritten(jobs: seq<Job>, present: set<string>,
                                          copyOk: (string, string) -> bool, convert: (string, string) -> Option<Sizes>)
    ensures var r := Process(jobs, present, copyOk, convert);
      r.outcome.Done? ==> |r.written| == |jobs| && forall k :: 0 <= k < |jobs| ==> r.written[k] == jobs[k].webpPath
    decreases |jobs|
  {
    if jobs != [] {
      ProcessWritten(jobs[1..], Next(jobs[0], present), copyOk, convert);
      var r := Process(jobs, present, copyOk, convert);
      if r.outcome.Done? {
        forall k | 0 < k < |jobs| ensures r.written[k] == jobs[k].webpPath {
          assert jobs[1..][k - 1] == jobs[k];
        }
      }
    }
  }

  /** The paths that exist when `jobs[k]` is reached: `present` after the first `k` jobs. */
  function PresentAfter(jobs: seq<Job>, present: set<string>, k: nat): set<string>
    requires k <= |jobs|
    decreases k
  {
    if k == 0 then present else PresentAfter(jobs[1..], Next(jobs[0], present), k - 1)
  }

  /**
    The failed run `r`, started with the paths `present`, stopped at
    `jobs[k]`: that file's backup was missing and copying it threw, or its
    conversion threw; every file before it had its backup already or had it
    copied, and was converted and written, in order; nothing was written
    from `jobs[k]` on, and only files up to it were backed up.
   */
  predicate StopsAt(jobs: seq<Job>, present: set<string>, k: nat, r: Run, copyOk: (string, string) -> bool,
                    convert: (string, string) -> Option<Sizes>)
    requires k < |jobs| && r.outcome.Failed?
  {
    && jobs[k].file == r.outcome.file
    && ((jobs[k].backupPath !in PresentAfter(jobs, present, k) && !copyOk(jobs[k].sourcePath, jobs[k].backupPath))
        || convert(jobs[k].sourcePath, jobs[k].webpPath).None?)
    && |r.written| == k
    && (forall j :: 0 <= j < k ==>
          && (jobs[j].backupPath in PresentAfter(jobs, present, j) || copyOk(jobs[j].sourcePath, jobs[j].backupPath))
          && convert(jobs[j].sourcePath, jobs[j].webpPath).Some?
          && r.written[j] == jobs[j].webpPath)
    && (forall c :: c in r.copies ==> exists j :: 0 <= j <= k && c == Copy(jobs[j].sourcePath, jobs[j].backupPath))
  }

  /** A failed run names the first file whose backup copy or conversion threw. */
  lemma {:induction false} ProcessFailure(jobs: seq<Job>, present: set<string>,
                                          copyOk: (string, string) -> bool, convert: (string, string) -> Option<Sizes>)
    ensures var r := Process(jobs, present, copyOk, convert);
      r.outcome.Failed? ==> exists k: nat :: k < |jobs| && StopsAt(jobs, present, k, r, copyOk, convert)
    decreases |jobs|
  {
    if jobs != [] {
      var job := jobs[0];
      var r := Process(jobs, present, copyOk, convert);
      var copying := job.backupPath !in present;
      if r.outcome.Failed? {
        if copying && !copyOk(job.sourcePath, job.backupPath) {
          assert StopsAt(jobs, present, 0, r, copyOk, convert);
        } else if convert(job.sourcePath, job.webpPath).None? {
          assert StopsAt(jobs, present, 0, r, copyOk, convert);
        } else {
          var next := Next(job, present);
          var rest := Process(jobs[1..], next, copyOk, convert);
          var copied := if copying then [Copy(job.sourcePath, job.backupPath)] else [];
          assert r == Run(AddSizes(convert(job.sourcePath, job.webpPath).value, rest.outcome),
                          copied + rest.copies, [job.webpPath] + rest.written);
          ProcessFailure(jobs[1..], next, copyOk, convert);
          var k': nat :| k' < |jobs[1..]| && StopsAt(jobs[1..], next, k', rest, copyOk, convert);
          StopsAtStep(jobs, present, k', rest, copied, copyOk, convert);
        }
      }
    }
  }

  /** Backing up, converting and writing one more file in front keeps a failed run's stopping point, one file later. */
  lemma StopsAtStep(jobs: seq<Job>, present: set<string>, k': nat, rest: Run, copied: seq<Copy>,
                    copyOk: (string, string) -> bool, convert: (string, string) -> Option<Sizes>)
    requires jobs != [] && k' < |jobs[1..]| && rest.outcome.Failed?
    requires StopsAt(jobs[1..], Next(jobs[0], present), k', rest, copyOk, convert)
    requires jobs[0].backupPath in present || copyOk(jobs[0].sourcePath, jobs[0].backupPath)
    requires convert(jobs[0].sourcePath, jobs[0].webpPath).Some?
    requires forall c :: c in copied ==> c == Copy(jobs[0].sourcePath, jobs[0].backupPath)
    ensures StopsAt(jobs, present, k' + 1, Run(rest.outcome, copied + rest.copies, [jobs[0].webpPath] + rest.written), copyOk, convert)
  {
    var r := Run(rest.outcome, copied + rest.copies, [jobs[0].webpPath] + rest.written);
    var next := Next(jobs[0], present);
    var k := k' + 1;
    assert jobs[k] == jobs[1..][k'];
    assert PresentAfter(jobs, present, k) == PresentAfter(jobs[1..], next, k');
    forall j | 0 <= j < k
      ensures && (jobs[j].backupPath in PresentAfter(jobs, present, j) || copyOk(jobs[j].sourcePath, jobs[j].backupPath))
              && convert(jobs[j].sourcePath, jobs[j].webpPath).Some?
              && r.written[j] == jobs[j].webpPath
    {
      if j > 0 {
        assert jobs[j] == jobs[1..][j - 1];
        assert r.written[j] == rest.written[j - 1];
        assert PresentAfter(jobs, present, j) == PresentAfter(jobs[1..], next, j - 1);
      }
    }
    forall c | c in r.copies ensures exists j :: 0 <= j <= k && c == Copy(jobs[j].sourcePath, jobs[j].backupPath) {
      if c in rest.copies {
        var j :| 0 <= j <= k' && c == Copy(jobs[1..][j].sourcePath, jobs[1..][j].backupPath);
        assert jobs[j + 1] == jobs[1..][j];
      } else {
        assert c in copied;
      }
    }
  }

  /**
    A backup is made only for a path that did not exist when the run
    started, and always as a copy of a file of the run to its backup path.
   */
  lemma {:induction false} CopiesFresh(jobs: seq<Job>, present: set<string>,
                                       copyOk: (string, string) -> bool, convert: (string, string) -> Option<Sizes>)
    ensures var r := Process(jobs, present, copyOk, convert);
      forall c :: c in r.copies ==> c.dst !in present
    ensures var r := Process(jobs, present, copyOk, convert);
      forall c :: c in r.copies ==> exists job :: job in jobs && c == Copy(job.sourcePath, job.backupPath)
    decreases |jobs|
  {
    if jobs != [] {
      var next := Next(jobs[0], present);
      CopiesFresh(jobs[1..], next, copyOk, convert);
      var rest := Process(jobs[1..], next, copyOk, convert);
      forall c | c in rest.copies ensures exists job :: job in jobs && c == Copy(job.sourcePath, job.backupPath) {
        var job :| job in jobs[1..] && c == Copy(job.sourcePath, job.backupPath);
        assert job in jobs;
      }
      assert jobs[0] in jobs;
    }
  }

  /** No backup path is copied to twice in one run, so no backup made by the run is overwritten either. */
  lemma {:induction false} CopiesDistinct(jobs: seq<Job>, present: set<string>,
                                          copyOk: (string, string) -> bool, convert: (string, string) -> Option<Sizes>)
    ensures var r := Process(jobs, present, copyOk, convert);
      forall i, j :: 0 <= i < j < |r.copies| ==> r.copies[i].dst != r.copies[j].dst
    decreases |jobs|
  {
    if jobs != [] {
      var job := jobs[0];
      var next := Next(job, present);
      CopiesDistinct(jobs[1..], next, copyOk, convert);
      CopiesFresh(jobs[1..], next, copyOk, convert);
      var rest := Process(jobs[1..], next, copyOk, convert);
      var r := Process(jobs, present, copyOk, convert);
      if job.backupPath !in present && |r.copies| > |rest.copies| {
        assert r.copies == [Copy(job.sourcePath, job.backupPath)] + rest.copies;
        forall j | 0 < j < |r.copies| ensures r.copies[0].dst != r.copies[j].dst {
          assert r.copies[j] == rest.copies[j - 1];
          assert rest.copies[j - 1] in rest.copies;
        }
      }
    }
  }

  /** A second run over backed-up files copies nothing. */
  lemma RerunCopiesNothing(jobs: seq<Job>, present: set<string>,
                           copyOk: (string, string) -> bool, convert: (string, string) -> Option<Sizes>)
    requires forall job :: job in jobs ==> job.backupPath in present
    ensures Process(jobs, present, copyOk, convert).copies == []
  {
    CopiesFresh(jobs, present, copyOk, convert);
  }

  /** In test mode a directory contributes at most two files. */
  lemma TestModeAtMostTwo(sourceDir: string, backupDir: string, listing: Listing,
                          present: set<string>, copyOk: (string, string) -> bool,
                          convert: (string, string) -> Option<Sizes>)
    ensures var r := BackupAndOptimizeSpec(sourceDir, backupDir, true, listing, present, copyOk, convert);
      r.outcome.Done? ==> r.outcome.totals.count <= 2 && |r.written| <= 2
  {
    if listing.Entries? && SelectImages(listing.names) != [] {
      var files := ToProcess(SelectImages(listing.names), true);
      ProcessCount(JobsFor(sourceDir, backupDir, files), present, copyOk, convert);
    }
  }

  // ------------------------------------------------------------------- main

  /** The four directories `main` works on. */
  datatype Layout = Layout(galleryDir: string, backupGallery: string, headerDir: string, backupHeader: string)

  /** The script's own directories. */
  const Directories := Layout(GalleryDir, BackupGallery, HeaderDir, BackupHeader)

  /** A selected file of a listing of plain names is itself a plain name. */
  lemma SelectedPlain(names: seq<string>, testMode: bool, k: nat)
    requires forall i :: 0 <= i < |names| ==> Plain(names[i])
    requires k < |ToProcess(SelectImages(names), testMode)|
    ensures Plain(ToProcess(SelectImages(names), testMode)[k])
  {
    var files := SelectImages(names);
    ToProcessShape(files, testMode);
    assert ToProcess(files, testMode)[k] == files[k];
    SelectImagesCorrect(names);
    assert files[k] in files;
  }

  /**
    With the script's own directories, the gallery pass backs up and
    converts each selected file `f` of the gallery listing (whose entries,
    as `readdir` returns them, are plain names) under
    `pictures/gallery/f`, `pictures/gallery_original/f` and
    `pictures/gallery/` followed by its WebP name.
   */
  lemma ScriptGalleryJobs(args: seq<string>, names: seq<string>, k: nat, present: set<string>,
                          copyOk: (string, string) -> bool, convert: (string, string) -> Option<Sizes>)
    requires forall i :: 0 <= i < |names| ==> Plain(names[i])
    requires k < |ToProcess(SelectImages(names), TestFlag in args)|
    ensures var files := ToProcess(SelectImages(names), TestFlag in args);
      && GalleryRun(Directories, args, Entries(names), present, copyOk, convert)
         == Process(JobsFor(Directories.galleryDir, Directories.backupGallery, files), present, copyOk, convert)
      && JobsFor(Directories.galleryDir, Directories.backupGallery, files)[k]
         == Job(files[k], "pictures/gallery" + "/" + files[k], "pictures/gallery_original" + "/" + files[k],
                "pictures/gallery" + "/" + WebpName(files[k]))
  {
    var files := ToProcess(SelectImages(names), TestFlag in args);
    assert SelectImages(names) != [];
    SelectedPlain(names, TestFlag in args, k);
    JobsForAt(GalleryDir, BackupGallery, files, k);
    GalleryJob(files[k]);
  }

  /** The same for the header pass and the header directories. */
  lemma ScriptHeaderJobs(args: seq<string>, names: seq<string>, k: nat, present: set<string>,
                         copyOk: (string, string) -> bool, convert: (string, string) -> Option<Sizes>)
    requires forall i :: 0 <= i < |names| ==> Plain(names[i])
    requires k < |ToProcess(SelectImages(names), TestFlag in args)|
    ensures var files := ToProcess(SelectImages(names), TestFlag in args);
      && BackupAndOptimizeSpec(Directories.headerDir, Directories.backupHeader, TestFlag in args, Entries(names), present, copyOk, convert)
         == Process(JobsFor(Directories.headerDir, Directories.backupHeader, files), present, copyOk, convert)
      && JobsFor(Directories.headerDir, Directories.backupHeader, files)[k]
         == Job(files[k], "pictures/header" + "/" + files[k], "pictures/header_original" + "/" + files[k],
                "pictures/header" + "/" + WebpName(files[k]))
  {
    var files := ToProcess(SelectImages(names), TestFlag in args);
    assert SelectImages(names) != [];
    SelectedPlain(names, TestFlag in args, k);
    JobsForAt(HeaderDir, BackupHeader, files, k);
    HeaderJob(files[k]);
  }

  /** The paths that exist after a run: those before, the backups it copied and the WebP files it wrote. */
  function Afterwards(present: set<string>, run: Run): set<string> {
    present + Destinations(run.copies) + Paths(run.written)
  }

  function Destinations(copies: seq<Copy>): set<string> {
    if copies == [] then {} else Destinations(copies[..|copies| - 1]) + {copies[|copies| - 1].dst}
  }

  function Paths(written: seq<string>): set<string> {
    if written == [] then {} else Paths(written[..|written| - 1]) + {written[|written| - 1]}
  }

  /** The gallery pass of `main`. */
  function GalleryRun(dirs: Layout, args: seq<string>, galleryListing: Listing, present: set<string>,
                      copyOk: (string, string) -> bool, convert: (string, string) -> Option<Sizes>): Run
  {
    BackupAndOptimizeSpec(dirs.galleryDir, dirs.backupGallery, TestFlag in args, galleryListing, present, copyOk, convert)
  }

  /** The header pass of `main`, over the file system the gallery pass left behind. */
  function HeaderRun(dirs: Layout, args: seq<string>, galleryListing: Listing, headerListing: Listing, present: set<string>,
                     copyOk: (string, string) -> bool, convert: (string, string) -> Option<Sizes>): Run
  {
    var gallery := GalleryRun(dirs, args, galleryListing, present, copyOk, convert);
    BackupAndOptimizeSpec(dirs.headerDir, dirs.backupHeader, TestFlag in args, headerListing, Afterwards(present, gallery), copyOk, convert)
  }

  /**
    What `main` reports after both passes: a failure of the gallery pass
    ends everything; otherwise the copies and writes of both passes, and
    either the header's failure or the grand totals.
   */
  function Summary(gallery: Run, header: Run): Run {
    if gallery.outcome.Failed? then gallery
    else
      var outcome := match header.outcome
        case Failed(file) => Failed(file)
        case Done(h) =>
          var g := gallery.outcome.totals;
          Done(Totals(g.totalOriginal + h.totalOriginal, g.totalWebP + h.totalWebP, g.count + h.count));
      Run(outcome, gallery.copies + header.copies, gallery.written + header.written)
  }

  /**
    `main`, run with `Directories`, given the command-line arguments after
    the script name: test mode when they include `--test`, the gallery
    pass, then the header pass, adding each pass's totals to the grand
    totals. A failure in the gallery ends the program before the header is
    looked at.
   */
  method OptimizeAll(dirs: Layout, args: seq<string>, galleryListing: Listing, headerListing: Listing, present: set<string>,
                     copyOk: (string, string) -> bool, convert: (string, string) -> Option<Sizes>)
    returns (run: Run)
    ensures run == Summary(GalleryRun(dirs, args, galleryListing, present, copyOk, convert),
                           HeaderRun(dirs, args, galleryListing, headerListing, present, copyOk, convert))
  {
    var testMode := TestFlag in args;
    var galleryResults := BackupAndOptimize(dirs.galleryDir, dirs.backupGallery, testMode, galleryListing, present, copyOk, convert);
    if galleryResults.outcome.Failed? {
      return galleryResults;
    }
    var headerResults := BackupAndOptimize(dirs.headerDir, dirs.backupHeader, testMode, headerListing,
                                           Afterwards(present, galleryResults), copyOk, convert);
    run := AddUp(galleryResults, headerResults);
  }

  /** The grand totals of `main`, updated step by step from the two passes' results. */
  method AddUp(galleryResults: Run, headerResults: Run) returns (run: Run)
    requires galleryResults.outcome.Done?
    ensures run == Summary(galleryResults, headerResults)
  {
    var grandTotalOriginal: nat, grandTotalWebP: nat, grandTotalCount: nat := 0, 0, 0;
    grandTotalOriginal := grandTotalOriginal + galleryResults.outcome.totals.totalOriginal;
    grandTotalWebP := grandTotalWebP + galleryResults.outcome.totals.totalWebP;
    grandTotalCount := grandTotalCount + galleryResults.outcome.totals.count;
    var copies := galleryResults.copies + headerResults.copies;
    var written := galleryResults.written + headerResults.written;
    if headerResults.outcome.Failed? {
      return Run(headerResults.outcome, copies, written);
    }
    grandTotalOriginal := grandTotalOriginal + headerResults.outcome.totals.totalOriginal;
    grandTotalWebP := grandTotalWebP + headerResults.outcome.totals.totalWebP;
    grandTotalCount := grandTotalCount + headerResults.outcome.totals.count;
    return Run(Done(Totals(grandTotalOriginal, grandTotalWebP, grandTotalCount)), copies, written);
  }

  /**
    The grand totals are the sums of the two passes' totals, and the
    program finishes exactly when both passes do; the header pass sees the
    gallery pass's backups and WebP files.
   */
  lemma GrandTotals(gallery: Run, header: Run)
    ensures Summary(gallery, header).outcome.Done? <==> gallery.outcome.Done? && header.outcome.Done?
    ensures Summary(gallery, header).outcome.Done? ==>
      var t, g, h := Summary(gallery, header).outcome.totals, gallery.outcome.totals, header.outcome.totals;
      && t.totalOriginal == g.totalOriginal + h.totalOriginal
      && t.totalWebP == g.totalWebP + h.totalWebP
      && t.count == g.count + h.count
    ensures gallery.outcome.Done? ==> Summary(gallery, header).written == gallery.written + header.written
  {
  }

  /** A test run processes at most four images: two of the gallery and two of the header. */
  lemma TestModeAtMostFour(dirs: Layout, args: seq<string>, galleryListing: Listing, headerListing: Listing, present: set<string>,
                           copyOk: (string, string) -> bool, convert: (string, string) -> Option<Sizes>)
    requires TestFlag in args
    ensures var run := Summary(GalleryRun(dirs, args, galleryListing, present, copyOk, convert),
                               HeaderRun(dirs, args, galleryListing, headerListing, present, copyOk, convert));
      run.outcome.Done? ==> run.outcome.totals.count <= 4 && |run.written| <= 4
  {
    var gallery := GalleryRun(dirs, args, galleryListing, present, copyOk, convert);
    TestModeAtMostTwo(dirs.galleryDir, dirs.backupGallery, galleryListing, present, copyOk, convert);
    TestModeAtMostTwo(dirs.headerDir, dirs.backupHeader, headerListing, Afterwards(present, gallery), copyOk, convert);
  }
}
