/**
  Which files of a directory listing the image optimiser processes:
  `readdirSync(dir).filter(f => /\.(jpg|jpeg|png)$/i.test(f)).sort()`, and
  in test mode only the first two of them.
 */
module Selection {
  import opened Text
  import opened Seqs

  /**
    The name ends in `.jpg`, `.jpeg` or `.png`, in any mix of upper and
    lower case.
   */
  predicate IsImageName(f: string) {
    EndsWithIgnoreCase(f, ".jpg") || EndsWithIgnoreCase(f, ".jpeg") || EndsWithIgnoreCase(f, ".png")
  }

  /** A suffix test that ignores case fails when the lower-cased last characters differ. */
  lemma LastCharMismatch(f: string, suffix: string)
    requires |f| > 0 && |suffix| > 0 && LowerChar(f[|f| - 1]) != suffix[|suffix| - 1]
    ensures !EndsWithIgnoreCase(f, suffix)
  {
    if |suffix| <= |f| {
      assert Lower(f[|f| - |suffix|..])[|suffix| - 1] == LowerChar(f[|f| - 1]);
    }
  }

  /** `.webp` files, whatever their case, are never selected: the last letter gives them away. */
  lemma WebpNotImage(f: string)
    requires EndsWithIgnoreCase(f, ".webp")
    ensures !IsImageName(f)
  {
    assert LowerChar(f[|f| - 1]) == 'p' by {
      assert Lower(f[|f| - 5..])[4] == LowerChar(f[|f| - 1]);
    }
    LastCharMismatch(f, ".jpg");
    LastCharMismatch(f, ".jpeg");
    LastCharMismatch(f, ".png");
  }

  // ----------------------------------------------------------------- order

  /**
    The order of the default `Array.prototype.sort`: lexicographic, comparing
    character codes, a proper prefix before the longer string.
   */
  predicate LexLe(a: string, b: string)
    decreases |a|
  {
    if a == [] then true
    else if b == [] then false
    else if a[0] != b[0] then a[0] < b[0]
    else LexLe(a[1..], b[1..])
  }

  lemma {:induction false} LexLeTotal(a: string, b: string)
    ensures LexLe(a, b) || LexLe(b, a)
    decreases |a|
  {
    if a != [] && b != [] && a[0] == b[0] {
      LexLeTotal(a[1..], b[1..]);
    }
  }

  lemma {:induction false} LexLeReflexive(a: string)
    ensures LexLe(a, a)
    decreases |a|
  {
    if a != [] {
      LexLeReflexive(a[1..]);
    }
  }

  lemma {:induction false} LexLeAntisymmetric(a: string, b: string)
    requires LexLe(a, b) && LexLe(b, a)
    ensures a == b
    decreases |a|
  {
    if a != [] {
      LexLeAntisymmetric(a[1..], b[1..]);
      assert a == [a[0]] + a[1..] && b == [b[0]] + b[1..];
    }
  }

  lemma {:induction false} LexLeTransitive(a: string, b: string, c: string)
    requires LexLe(a, b) && LexLe(b, c)
    ensures LexLe(a, c)
    decreases |a|
  {
    if a != [] && b != [] && c != [] && a[0] == b[0] && b[0] == c[0] {
      LexLeTransitive(a[1..], b[1..], c[1..]);
    }
  }

  predicate Sorted(s: seq<string>) {
    forall i, j :: 0 <= i < j < |s| ==> LexLe(s[i], s[j])
  }

  // ------------------------------------------------------------------ sort

  function Insert(x: string, s: seq<string>): seq<string> {
    if s == [] then [x]
    else if LexLe(x, s[0]) then [x] + s
    else [s[0]] + Insert(x, s[1..])
  }

  /** The sorted arrangement of `s` (by insertion). */
  function Sort(s: seq<string>): seq<string> {
    if s == [] then [] else Insert(s[0], Sort(s[1..]))
  }

  lemma {:induction false} InsertCount(x: string, s: seq<string>)
    ensures multiset(Insert(x, s)) == multiset(s) + multiset{x}
  {
    if s != [] && !LexLe(x, s[0]) {
      InsertCount(x, s[1..]);
      assert s == [s[0]] + s[1..];
    }
  }

  lemma {:induction false} InsertSorted(x: string, s: seq<string>)
    requires Sorted(s)
    ensures Sorted(Insert(x, s))
  {
    if s == [] {
    } else if LexLe(x, s[0]) {
      forall j | 0 < j < |s| ensures LexLe(x, s[j]) {
        LexLeTransitive(x, s[0], s[j]);
      }
    } else {
      LexLeTotal(x, s[0]);
      var rest := Insert(x, s[1..]);
      InsertSorted(x, s[1..]);
      InsertCount(x, s[1..]);
      forall j | 0 <= j < |rest| ensures LexLe(s[0], rest[j]) {
        assert rest[j] in multiset(rest);
        if rest[j] != x {
          assert rest[j] in multiset(s[1..]);
          var k :| 0 <= k < |s[1..]| && s[1..][k] == rest[j];
          assert s[k + 1] == rest[j];
        }
      }
    }
  }

  /** `Sort(s)` is ordered and holds exactly the elements of `s`. */
  lemma {:induction false} SortCorrect(s: seq<string>)
    ensures Sorted(Sort(s))
    ensures multiset(Sort(s)) == multiset(s)
  {
    if s != [] {
      SortCorrect(s[1..]);
      InsertSorted(s[0], Sort(s[1..]));
      InsertCount(s[0], Sort(s[1..]));
      assert s == [s[0]] + s[1..];
    }
  }

  /** Equal collections with equal first elements have equal rests. */
  lemma TailsSameElements<T>(a: seq<T>, b: seq<T>)
    requires a != [] && b != [] && a[0] == b[0] && multiset(a) == multiset(b)
    ensures multiset(a[1..]) == multiset(b[1..])
  {
    calc {
      multiset(a[1..]);
      { assert a == [a[0]] + a[1..]; }
      multiset(a) - multiset{a[0]};
      { assert b == [b[0]] + b[1..]; }
      multiset(b[1..]);
    }
  }

  /** A sorted sequence starts with a least element of the collection. */
  lemma SortedHeadLeast(a: seq<string>, x: string)
    requires Sorted(a) && x in multiset(a)
    ensures LexLe(a[0], x)
  {
    var i :| 0 <= i < |a| && a[i] == x;
    if i == 0 {
      LexLeReflexive(x);
    }
  }

  /**
    There is only one ordered arrangement of a collection of strings, so
    any correct sort, whatever its algorithm, gives `Sort(s)`.
   */
  lemma {:induction false} SortedUnique(a: seq<string>, b: seq<string>)
    requires Sorted(a) && Sorted(b) && multiset(a) == multiset(b)
    ensures a == b
    decreases |a|
  {
    if a != [] {
      assert a[0] in multiset(b);
      assert b != [];
      assert b[0] in multiset(a);
      SortedHeadLeast(b, a[0]);
      SortedHeadLeast(a, b[0]);
      LexLeAntisymmetric(a[0], b[0]);
      assert a == [a[0]] + a[1..];
      TailsSameElements(a, b);
      SortedUnique(a[1..], b[1..]);
      assert b == [b[0]] + b[1..];
    }
  }

  // -------------------------------------------------------------- selection

  /** The image files of a listing, sorted. */
  function SelectImages(names: seq<string>): seq<string> {
    Sort(Filter(names, IsImageName))
  }

  /** `testMode ? files.slice(0, 2) : files`. */
  function ToProcess(files: seq<string>, testMode: bool): seq<string> {
    if testMode then files[..if |files| < 2 then |files| else 2] else files
  }

  /**
    The selection is sorted and holds exactly the listing's image names, each
    as often as the listing holds it, and nothing else.
   */
  lemma SelectImagesCorrect(names: seq<string>)
    ensures Sorted(SelectImages(names))
    ensures forall f :: multiset(SelectImages(names))[f] == if IsImageName(f) then multiset(names)[f] else 0
    ensures forall f :: f in SelectImages(names) <==> f in names && IsImageName(f)
  {
    var images := Filter(names, IsImageName);
    SortCorrect(images);
    FilterCounts(names, IsImageName);
    FilterMembers(names, IsImageName);
    forall f ensures f in SelectImages(names) <==> f in images {
      assert f in SelectImages(names) <==> f in multiset(SelectImages(names));
      assert f in images <==> f in multiset(images);
    }
  }

  /** In test mode exactly the first `min(2, n)` selected files are processed; otherwise all of them. */
  lemma ToProcessShape(files: seq<string>, testMode: bool)
    ensures testMode ==> |ToProcess(files, true)| == (if |files| < 2 then |files| else 2)
    ensures ToProcess(files, testMode) == files[..|ToProcess(files, testMode)|]
    ensures !testMode ==> ToProcess(files, false) == files
  {
  }
}
