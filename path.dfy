/**
  The parts of Node's POSIX `path` module the image optimiser uses:
  `extname`, `basename` (with and without a suffix to strip), `dirname` and
  `join`, which normalises its result.
 */
module NodePath {
  import opened Wrappers
  import opened Text

  /** The position of the last occurrence of `c` in `s`. */
  function LastIndexOf(s: string, c: char): (r: Option<nat>)
    ensures r.Some? ==> r.value < |s| && s[r.value] == c && forall j :: r.value < j < |s| ==> s[j] != c
    ensures r.None? ==> forall j :: 0 <= j < |s| ==> s[j] != c
  {
    if s == [] then None
    else if s[|s| - 1] == c then Some(|s| - 1)
    else LastIndexOf(s[..|s| - 1], c)
  }

  /** `p` without its trailing separators. */
  function TrimTrailingSlashes(p: string): (r: string)
    ensures |r| <= |p| && r == p[..|r|]
    ensures r == [] || r[|r| - 1] != '/'
  {
    if p != [] && p[|p| - 1] == '/' then TrimTrailingSlashes(p[..|p| - 1]) else p
  }

  /** `path.basename(p)`: the last portion of `p`, trailing separators ignored. */
  function Basename(p: string): string {
    var t := TrimTrailingSlashes(p);
    match LastIndexOf(t, '/')
    case Some(k) => t[k + 1..]
    case None => t
  }

  /**
    The extension of a single portion: from its last `.` on, unless there is
    none, the portion starts with it, or the portion is `..`.
   */
  function ExtOf(base: string): string {
    match LastIndexOf(base, '.')
    case None => ""
    case Some(k) => if k == 0 || base == ".." then "" else base[k..]
  }

  /** `path.extname(p)`. */
  function Extname(p: string): string {
    ExtOf(Basename(p))
  }

  /**
    `path.basename(p, suffix)` for a non-empty suffix no longer than `p`:
    `""` when the suffix is all of `p`; `p` itself when `p` is only
    separators. Otherwise Node scans the last portion from its end against
    the suffix:
    - a portion ending with the suffix loses it, unless the two are equal;
    - a portion that is a proper ending of the suffix is returned with the
      separators that follow it;
    - any other portion is returned as it is.
    Any other suffix is ignored.
   */
  function BasenameWithout(p: string, suffix: string): string {
    if 0 < |suffix| <= |p| then
      if suffix == p then ""
      else
        var t := TrimTrailingSlashes(p);
        if t == "" then p
        else
          var start := PortionStart(t);
          var base := t[start..];
          if EndsWith(base, suffix) then (if |suffix| < |base| then base[..|base| - |suffix|] else base)
          else if EndsWith(suffix, base) then p[start..]
          else base
    else Basename(p)
  }

  /** Where the last portion of `t` starts: just after its last separator. */
  function PortionStart(t: string): (start: nat)
    ensures start <= |t|
  {
    match LastIndexOf(t, '/')
    case Some(k) => k + 1
    case None => 0
  }

  /**
    The scan of `path.dirname` from position `i` down to 1: the position of
    the first separator met after at least one other character, or -1.
   */
  function DirnameEnd(p: string, i: int, matchedSlash: bool): (r: int)
    requires i < |p|
    ensures r == -1 || 1 <= r <= i
    decreases i
  {
    if i < 1 then -1
    else if p[i] == '/' then (if !matchedSlash then i else DirnameEnd(p, i - 1, true))
    else DirnameEnd(p, i - 1, false)
  }

  /** `path.dirname(p)`. */
  function Dirname(p: string): string {
    if p == "" then "."
    else
      var end := DirnameEnd(p, |p| - 1, true);
      if end == -1 then (if p[0] == '/' then "/" else ".")
      else if p[0] == '/' && end == 1 then "//"
      else p[..end]
  }

  /** The portions of `p` between separators, empty ones included. */
  function Split(p: string): (segs: seq<string>)
    ensures |segs| >= 1
  {
    match LastIndexOf(p, '/')
    case None => [p]
    case Some(k) => Split(p[..k]) + [p[k + 1..]]
  }

  /** Portions joined with single separators. */
  function JoinSegs(segs: seq<string>): string {
    if segs == [] then ""
    else if |segs| == 1 then segs[0]
    else JoinSegs(segs[..|segs| - 1]) + "/" + segs[|segs| - 1]
  }

  /**
    One step of normalisation: empty and `.` portions vanish, `..` removes
    the previous portion (or is kept at the front of a relative path), any
    other portion is appended.
   */
  function Step(resolved: seq<string>, seg: string, allowAboveRoot: bool): seq<string> {
    if seg == "" || seg == "." then resolved
    else if seg == ".." then
      if resolved != [] && resolved[|resolved| - 1] != ".." then resolved[..|resolved| - 1]
      else if allowAboveRoot then resolved + [".."]
      else resolved
    else resolved + [seg]
  }

  /** Normalisation of a list of portions, left to right. */
  function Resolve(segs: seq<string>, allowAboveRoot: bool): seq<string> {
    if segs == [] then []
    else Step(Resolve(segs[..|segs| - 1], allowAboveRoot), segs[|segs| - 1], allowAboveRoot)
  }

  /** `path.normalize(p)`. */
  function Normalize(p: string): string {
    if p == "" then "."
    else
      var isAbsolute := p[0] == '/';
      var trailing := p[|p| - 1] == '/';
      var r := JoinSegs(Resolve(Split(p), !isAbsolute));
      if r == "" then (if isAbsolute then "/" else if trailing then "./" else ".")
      else (if isAbsolute then "/" else "") + r + (if trailing then "/" else "")
  }

  /** `path.join(a, b)`: the non-empty arguments joined with a separator, then normalised. */
  function Join(a: string, b: string): string {
    var joined := if a == "" then b else if b == "" then a else a + "/" + b;
    if joined == "" then "." else Normalize(joined)
  }

  // ------------------------------------------------------------------ lemmas

  /** An ordinary file or directory name: not empty, not `.` or `..`, no separator. */
  predicate Plain(seg: string) {
    seg != "" && seg != "." && seg != ".." && '/' !in seg
  }

  lemma SplitSnoc(a: string, b: string)
    requires '/' !in b
    ensures Split(a + "/" + b) == Split(a) + [b]
  {
    var p := a + "/" + b;
    LastSlashOfChild(a, b);
    assert p[..|a|] == a && p[|a| + 1..] == b;
  }

  /** Splitting undoes joining, for portions without separators. */
  lemma {:induction false} SplitJoinSegs(segs: seq<string>)
    requires segs != [] && NoSeparators(segs)
    ensures Split(JoinSegs(segs)) == segs
  {
    if |segs| == 1 {
      SplitNoSlash(segs[0]);
    } else {
      var init, last := segs[..|segs| - 1], segs[|segs| - 1];
      SplitJoinSegs(init);
      JoinSegsSnoc(segs);
      SplitSnoc(JoinSegs(init), last);
      assert segs == init + [last];
    }
  }

  /** No portion of `segs` contains a separator. */
  predicate NoSeparators(segs: seq<string>) {
    segs == [] || (NoSeparators(segs[..|segs| - 1]) && '/' !in segs[|segs| - 1])
  }

  lemma {:induction false} NoSeparatorsOf(segs: seq<string>)
    requires forall k :: 0 <= k < |segs| ==> '/' !in segs[k]
    ensures NoSeparators(segs)
  {
    if segs != [] {
      var init := segs[..|segs| - 1];
      assert forall k :: 0 <= k < |init| ==> init[k] == segs[k];
      NoSeparatorsOf(init);
    }
  }

  lemma SplitNoSlash(p: string)
    requires '/' !in p
    ensures Split(p) == [p] && JoinSegs([p]) == p
  {
    assert LastIndexOf(p, '/') == None;
  }

  lemma JoinSegsSnoc(segs: seq<string>)
    requires |segs| > 1
    ensures JoinSegs(segs) == JoinSegs(segs[..|segs| - 1]) + "/" + segs[|segs| - 1]
  {
  }

  /** Plain portions are already normalised. */
  lemma {:induction false} ResolvePlain(segs: seq<string>, allowAboveRoot: bool)
    requires forall k :: 0 <= k < |segs| ==> Plain(segs[k])
    ensures Resolve(segs, allowAboveRoot) == segs
  {
    if segs != [] {
      ResolvePlain(segs[..|segs| - 1], allowAboveRoot);
    }
  }

  /**
    Joining a relative directory and a plain name: the directory's
    normalised portions, a separator, and the name.
   */
  lemma JoinPlainName(dir: string, name: string)
    requires dir != "" && dir[0] != '/'
    requires Resolve(Split(dir), true) != []
    requires Plain(name)
    ensures Join(dir, name) == JoinSegs(Resolve(Split(dir), true)) + "/" + name
  {
    var joined := dir + "/" + name;
    var segs := Resolve(Split(dir), true);
    ResolveSnocPlain(dir, name);
    assert joined[0] == dir[0];
    assert joined[|joined| - 1] == name[|name| - 1];
    assert name[|name| - 1] in name;
    var all := segs + [name];
    assert all[..|all| - 1] == segs;
    assert JoinSegs(all) == JoinSegs(segs) + "/" + name;
    NormalizeRelative(joined);
  }

  /** Appending a plain name appends it to the normalised portions. */
  lemma ResolveSnocPlain(dir: string, name: string)
    requires Plain(name)
    ensures Resolve(Split(dir + "/" + name), true) == Resolve(Split(dir), true) + [name]
  {
    SplitSnoc(dir, name);
    var all := Split(dir) + [name];
    assert all[..|all| - 1] == Split(dir);
  }

  /** A relative path without a trailing separator normalises to its resolved portions joined. */
  lemma NormalizeRelative(p: string)
    requires p != "" && p[0] != '/' && p[|p| - 1] != '/'
    requires JoinSegs(Resolve(Split(p), true)) != ""
    ensures Normalize(p) == JoinSegs(Resolve(Split(p), true))
  {
  }

  /** A directory written as plain portions joined by separators. */
  predicate PlainDir(dir: string) {
    dir == JoinSegs(Split(dir)) && forall k :: 0 <= k < |Split(dir)| ==> Plain(Split(dir)[k])
  }

  /** Joining a plain directory and a plain name is plain concatenation. */
  lemma JoinPlainDir(dir: string, name: string)
    requires PlainDir(dir) && Plain(name)
    ensures Join(dir, name) == dir + "/" + name
  {
    var segs := Split(dir);
    ResolvePlain(segs, true);
    assert Plain(segs[0]);
    JoinSegsHead(segs);
    assert segs[0][0] in segs[0];
    JoinPlainName(dir, name);
  }

  lemma {:induction false} JoinSegsHead(segs: seq<string>)
    requires segs != [] && segs[0] != ""
    ensures JoinSegs(segs) != "" && JoinSegs(segs)[0] == segs[0][0]
  {
    if |segs| > 1 {
      JoinSegsHead(segs[..|segs| - 1]);
    }
  }

  /** The `dirname` scan over a final portion without separators stops at the separator before it. */
  lemma {:induction false} DirnameEndScan(p: string, d: nat, i: int, matchedSlash: bool)
    requires 1 <= d < i < |p| && p[d] == '/'
    requires forall j :: d < j <= i ==> p[j] != '/'
    ensures DirnameEnd(p, i, matchedSlash) == d
    decreases i
  {
    if i - 1 > d {
      DirnameEndScan(p, d, i - 1, false);
    }
  }

  /** A `c` with no `c` after it is the last occurrence. */
  lemma LastIndexOfAt(s: string, c: char, k: nat)
    requires k < |s| && s[k] == c && forall j :: k < j < |s| ==> s[j] != c
    ensures LastIndexOf(s, c) == Some(k)
  {
  }

  /** The separator before a name without separators is the last one. */
  lemma LastSlashOfChild(dir: string, name: string)
    requires '/' !in name
    ensures LastIndexOf(dir + "/" + name, '/') == Some(|dir|)
  {
    NoSlashAfter(dir + "/", name);
    LastIndexOfAt(dir + "/" + name, '/', |dir|);
  }

  lemma NoSlashAfter(prefix: string, name: string)
    requires '/' !in name
    ensures forall j :: |prefix| <= j < |prefix + name| ==> (prefix + name)[j] != '/'
  {
    forall j | |prefix| <= j < |prefix + name|
      ensures (prefix + name)[j] != '/'
    {
      assert (prefix + name)[j] == name[j - |prefix|];
    }
  }

  /** The directory of `dir/name` is `dir`. */
  lemma DirnameOfChild(dir: string, name: string)
    requires dir != "" && dir[0] != '/' && name != "" && '/' !in name
    ensures Dirname(dir + "/" + name) == dir
  {
    var p := dir + "/" + name;
    forall j | |dir| < j < |p| ensures p[j] != '/' {
      assert p[j] == name[j - |dir| - 1];
    }
    DirnameEndScan(p, |dir|, |p| - 1, true);
    assert p[0] == dir[0];
    assert p[..|dir|] == dir;
  }

  /** The last portion of `dir/name` is `name`. */
  lemma BasenameOfChild(dir: string, name: string)
    requires name != "" && '/' !in name
    ensures Basename(dir + "/" + name) == name
    ensures Extname(dir + "/" + name) == ExtOf(name)
  {
    var p := dir + "/" + name;
    assert p[|p| - 1] == name[|name| - 1];
    assert name[|name| - 1] in name;
    assert TrimTrailingSlashes(p) == p;
    LastSlashOfChild(dir, name);
    assert p[|dir| + 1..] == name;
  }

  /** `basename(dir/name, suffix)` for a suffix no longer than the name strips it from the name. */
  lemma BasenameWithoutOfChild(dir: string, name: string, suffix: string)
    requires name != "" && '/' !in name && |suffix| <= |name|
    ensures BasenameWithout(dir + "/" + name, suffix)
         == if 0 < |suffix| < |name| && EndsWith(name, suffix) then name[..|name| - |suffix|] else name
  {
    BasenameOfChild(dir, name);
    var p := dir + "/" + name;
    assert |suffix| < |p|;
    assert TrimTrailingSlashes(p) == p by {
      assert p[|p| - 1] == name[|name| - 1];
      assert name[|name| - 1] in name;
    }
    LastSlashOfChild(dir, name);
    assert p[PortionStart(p)..] == name;
  }

  /**
    A last portion that is only the end of the suffix keeps its trailing
    separators, and a path of separators is returned whole.
   */
  lemma BasenameWithoutShortPortion()
    ensures BasenameWithout("ab/", "xab") == "ab/"
    ensures BasenameWithout("//", "/") == "//"
  {
    assert TrimTrailingSlashes("ab/") == "ab" by {
      assert "ab/"[..2] == "ab";
    }
    assert LastIndexOf("ab", '/') == None;
    assert "xab"[1..] == "ab";
    assert TrimTrailingSlashes("//") == "" by {
      assert "//"[..1] == "/";
      assert "/"[..0] == "";
    }
  }

  /** A portion ending with the suffix loses it, trailing separators ignored. */
  lemma BasenameWithoutTrailingSlash()
    ensures BasenameWithout("a.jpg/", ".jpg") == "a"
  {
    assert TrimTrailingSlashes("a.jpg/") == "a.jpg" by {
      assert "a.jpg/"[..5] == "a.jpg";
    }
    assert LastIndexOf("a.jpg", '/') == None;
    assert "a.jpg"[1..] == ".jpg";
  }

  /** A leading `.` portion vanishes and plain portions stay. */
  lemma {:induction false} ResolveDotPlain(segs: seq<string>, allowAboveRoot: bool)
    requires forall k :: 0 <= k < |segs| ==> Plain(segs[k])
    ensures Resolve(["."] + segs, allowAboveRoot) == segs
  {
    if segs != [] {
      var all := ["."] + segs;
      assert all[..|all| - 1] == ["."] + segs[..|segs| - 1];
      ResolveDotPlain(segs[..|segs| - 1], allowAboveRoot);
    }
  }

  /** Plain portions joined by separators form a plain directory. */
  lemma PlainDirOf(segs: seq<string>)
    requires segs != [] && forall k :: 0 <= k < |segs| ==> Plain(segs[k])
    ensures PlainDir(JoinSegs(segs))
  {
    NoSeparatorsOf(segs);
    SplitJoinSegs(segs);
  }

  /** `["."] + segs` has no separators when `segs` is plain. */
  lemma DotSegsNoSlash(segs: seq<string>)
    requires forall k :: 0 <= k < |segs| ==> Plain(segs[k])
    ensures forall k :: 0 <= k < |["."] + segs| ==> '/' !in (["."] + segs)[k]
  {
    var all := ["."] + segs;
    forall k | 0 <= k < |all| ensures '/' !in all[k] {
      if k > 0 {
        assert all[k] == segs[k - 1];
      }
    }
  }

  /** `path.join("./a/b", name)` is `a/b/name`: the leading `./` goes away. */
  lemma JoinDotDir(segs: seq<string>, name: string)
    requires segs != [] && forall k :: 0 <= k < |segs| ==> Plain(segs[k])
    requires Plain(name)
    ensures Join(JoinSegs(["."] + segs), name) == JoinSegs(segs) + "/" + name
  {
    var all := ["."] + segs;
    var dir := JoinSegs(all);
    DotSegsNoSlash(segs);
    NoSeparatorsOf(all);
    SplitJoinSegs(all);
    assert Split(dir) == all;
    ResolveDotPlain(segs, true);
    assert Resolve(Split(dir), true) == segs;
    JoinSegsHead(all);
    assert dir[0] == '.';
    JoinPlainName(dir, name);
  }
}
