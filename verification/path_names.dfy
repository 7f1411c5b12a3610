/** How a course name is derived from the path of a PDF file: the POSIX
    `os.path.basename` and `os.path.splitext` the program relies on, and the
    two `str.replace` calls it applies to the result. */
module PathNames {

  /** The index of the last `c` among the first `n` characters of `s`, or -1
      when there is none. */
  function LastBefore(s: string, c: char, n: nat): (r: int)
    requires n <= |s|
    ensures -1 <= r < n
    ensures r >= 0 ==> s[r] == c
    ensures forall k | r < k < n :: s[k] != c
  {
    if n == 0 then -1
    else if s[n - 1] == c then n - 1
    else LastBefore(s, c, n - 1)
  }

  /** `s.rfind(c)` for a single character: the index of the last `c` in `s`,
      or -1 when there is none. */
  function RFind(s: string, c: char): (r: int)
    ensures IsLast(s, c, r)
  {
    LastBefore(s, c, |s|)
  }

  /** POSIX `os.path.basename`: everything after the last `/`. The result is
      the longest suffix of the path that contains no `/`. */
  function Basename(p: string): (b: string)
    ensures '/' !in b
    ensures |b| <= |p| && b == p[|p| - |b|..]
    ensures |b| < |p| ==> p[|p| - |b| - 1] == '/'
  {
    p[RFind(p, '/') + 1..]
  }

  /** Every character of `p[a..b]` is a dot. */
  predicate DotsOnly(p: string, a: int, b: int)
    requires 0 <= a <= b <= |p|
  {
    forall i | a <= i < b :: p[i] == '.'
  }

  predicate AllDots(s: string) {
    DotsOnly(s, 0, |s|)
  }

  /** POSIX `os.path.splitext`: the split is at the last dot, provided that
      dot lies in the final path component and something other than a dot
      precedes it within that component; otherwise the extension is empty. */
  function SplitExt(p: string): (r: (string, string))
    ensures r.0 + r.1 == p
  {
    var sep := RFind(p, '/');
    var dot := RFind(p, '.');
    if dot > sep && !DotsOnly(p, sep + 1, dot) then
      SplitAt(p, dot)
    else
      (p, "")
  }

  /** `p` cut in two at index `k`. */
  function SplitAt(p: string, k: int): (r: (string, string))
    requires 0 <= k <= |p|
    ensures r.0 + r.1 == p
    ensures |r.0| == k
  {
    (p[..k], p[k..])
  }

  /** Independent description of a file extension: `p[k..]` is an extension
      when `p[k]` is the last dot, nothing after it is a `/`, and some
      character of the final path component before it is not a dot. */
  ghost predicate ExtensionAt(p: string, k: int) {
    && 0 <= k < |p|
    && p[k] == '.'
    && (forall i | k < i < |p| :: p[i] != '.' && p[i] != '/')
    && exists j | 0 <= j < k :: p[j] != '.' && SlashFree(p, j, k)
  }

  /** No `/` among `p[j..k]`. */
  ghost predicate SlashFree(p: string, j: int, k: int)
    requires 0 <= j <= k <= |p|
  {
    forall i | j <= i < k :: p[i] != '/'
  }

  /** `r` is the index of the last `c` in `s`, or -1 when there is none. */
  ghost predicate IsLast(s: string, c: char, r: int) {
    && -1 <= r < |s|
    && (r >= 0 ==> s[r] == c)
    && forall k | r < k < |s| :: s[k] != c
  }

  /** When `splitext` splits, what it cuts off is an extension. */
  lemma {:induction false} SplitIsExtension(p: string, sep: int, dot: int)
    requires IsLast(p, '/', sep) && IsLast(p, '.', dot)
    requires dot > sep && !DotsOnly(p, sep + 1, dot)
    ensures ExtensionAt(p, dot)
  {
    var j :| sep + 1 <= j < dot && p[j] != '.';
    AfterLastSlash(p, sep, j, dot);
  }

  /** Everything after the last `/` is free of `/`. */
  lemma {:induction false} AfterLastSlash(p: string, sep: int, j: int, k: int)
    requires IsLast(p, '/', sep) && sep < j <= k <= |p|
    ensures SlashFree(p, j, k)
  {
  }

  /** An extension starts at the last dot. */
  lemma {:induction false} ExtensionAtLastDot(p: string, dot: int, k: int)
    requires IsLast(p, '.', dot) && ExtensionAt(p, k)
    ensures k == dot
  {
  }

  /** Every extension starts at the last dot, after the last `/`, and is
      preceded in its component by something other than a dot: exactly the
      case in which `splitext` splits. */
  lemma {:induction false} ExtensionIsSplit(p: string, sep: int, dot: int, k: int)
    requires IsLast(p, '/', sep) && IsLast(p, '.', dot)
    requires ExtensionAt(p, k)
    ensures k == dot && dot > sep && !DotsOnly(p, sep + 1, dot)
  {
    ExtensionAtLastDot(p, dot, k);
    var j :| 0 <= j < k && p[j] != '.' && SlashFree(p, j, k);
    assert sep < k;
    assert sep < j;
  }

  /** `SplitExt` removes an extension exactly when the path has one, and then
      removes precisely that extension. */
  lemma {:induction false} SplitExtMatchesExtensionAt(p: string)
    ensures SplitExt(p).1 != "" ==> ExtensionAt(p, |SplitExt(p).0|)
    ensures forall k | 0 <= k < |p| && ExtensionAt(p, k) :: SplitExt(p).0 == p[..k]
  {
    var sep := RFind(p, '/');
    var dot := RFind(p, '.');
    if dot > sep && !DotsOnly(p, sep + 1, dot) {
      SplitIsExtension(p, sep, dot);
    }
    forall k | 0 <= k < |p| && ExtensionAt(p, k)
      ensures SplitExt(p).0 == p[..k]
    {
      ExtensionIsSplit(p, sep, dot, k);
    }
  }

  /** `s.replace(a, b)` for single characters: every `a` becomes `b`. */
  function ReplaceChar(s: string, a: char, b: char): string {
    seq(|s|, i requires 0 <= i < |s| => if s[i] == a then b else s[i])
  }

  predicate IsSeparator(c: char) {
    c == '_' || c == '-'
  }

  /** The base file name without its extension. */
  function Stem(path: string): string {
    SplitExt(Basename(path)).0
  }

  /** The course name `create_course_from_file` derives from a file path:
      the stem with every `_` and then every `-` replaced by a space. */
  function CourseName(path: string): string {
    ReplaceChar(ReplaceChar(Stem(path), '_', ' '), '-', ' ')
  }

  /** Replacing `_` and then `-` by spaces keeps the length, changes
      exactly the separators, and leaves none behind; a `/` survives only
      where the input had one. */
  lemma {:induction false} SeparatorsBecomeSpaces(stem: string)
    ensures var name := ReplaceChar(ReplaceChar(stem, '_', ' '), '-', ' ');
      && |name| == |stem|
      && (forall i | 0 <= i < |name| ::
            name[i] == (if IsSeparator(stem[i]) then ' ' else stem[i]))
      && '_' !in name && '-' !in name
      && ('/' in name ==> '/' in stem)
  {
  }

  /** The stem is a prefix of the base name, so it has no `/`. */
  lemma {:induction false} StemIsPrefix(path: string)
    ensures Stem(path) <= Basename(path)
    ensures '/' !in Stem(path)
  {
    var b := Basename(path);
    var r := SplitExt(b);
    assert r.0 == b[..|r.0|];
  }

  /** The course name has the stem's length, agrees with it everywhere but
      at separators, which become spaces, and so holds no `_`, no `-` and
      (the stem being part of a base name) no `/`. */
  lemma {:induction false} CourseNameShape(path: string)
    ensures var name := CourseName(path);
      && |name| == |Stem(path)|
      && (forall i | 0 <= i < |name| ::
            name[i] == (if IsSeparator(Stem(path)[i]) then ' ' else Stem(path)[i]))
      && '_' !in name && '-' !in name && '/' !in name
  {
    SeparatorsBecomeSpaces(Stem(path));
    StemIsPrefix(path);
  }

  /** The stem is a prefix of the base name; what is cut off is empty or a
      single dot-led extension of the final component. */
  lemma {:induction false} StemDropsOnlyFinalExtension(path: string)
    ensures var b := Basename(path);
      && Stem(path) <= b
      && (Stem(path) == b || ExtensionAt(b, |Stem(path)|))
      && (Stem(path) == b <==> forall k | 0 <= k < |b| :: !ExtensionAt(b, k))
  {
    SplitExtMatchesExtensionAt(Basename(path));
  }

  /** An extension, when there is one, is unique. */
  lemma {:induction false} ExtensionAtUnique(p: string, k1: int, k2: int)
    requires ExtensionAt(p, k1) && ExtensionAt(p, k2)
    ensures k1 == k2
  {
  }

  /** Joining a folder and a file name with `/` and taking the base name
      gives the file name back. */
  lemma {:induction false} BasenameOfJoin(dir: string, file: string)
    requires '/' !in file
    ensures Basename(dir + "/" + file) == file
  {
    var p := dir + "/" + file;
    var b := Basename(p);
    assert p[|dir|] == '/';
    assert b == p[|dir| + 1..];
  }

  /** For a file `dir/name` whose name has an extension starting at `k`,
      the stem is the name up to `k`: the folder and only the final
      extension are dropped. */
  lemma {:induction false} StemOfFile(dir: string, file: string, k: int)
    requires '/' !in file && ExtensionAt(file, k)
    ensures Stem(dir + "/" + file) == file[..k]
  {
    BasenameOfJoin(dir, file);
    SplitExtMatchesExtensionAt(file);
    ExtensionAtUnique(file, k, |SplitExt(file).0|);
  }

  /** A file name `base.pdf`, as the batch's `*.pdf` listing yields, has
      the stem `base` in any folder, provided `base` is not made of dots
      only (`..pdf` has no extension). */
  lemma {:induction false} PdfStem(dir: string, base: string)
    requires '/' !in base && !AllDots(base)
    ensures Stem(dir + "/" + (base + ".pdf")) == base
  {
    var file := base + ".pdf";
    var k := |base|;
    var j :| 0 <= j < |base| && base[j] != '.';
    assert file[j] == base[j];
    assert ExtensionAt(file, k);
    StemOfFile(dir, file, k);
    assert file[..k] == base;
  }

  /** Without separators in the stem, the course name is the stem itself. */
  lemma {:induction false} NoSeparatorsKeepsStem(path: string)
    requires '_' !in Stem(path) && '-' !in Stem(path)
    ensures CourseName(path) == Stem(path)
  {
    CourseNameShape(path);
  }

  /** The worked example of the program's naming rule: in any folder,
      `intro_to-biology.pdf` yields the course name `intro to biology`. */
  lemma {:induction false} CourseNameExample(dir: string, base: string)
    requires base == "intro_to-biology"
    ensures CourseName(dir + "/" + (base + ".pdf")) == "intro to biology"
  {
    assert base[0] != '.';
    PdfStem(dir, base);
    var p := dir + "/" + (base + ".pdf");
    CourseNameShape(p);
    SeparatorsExample(Stem(p), CourseName(p));
  }

  /** Only the last extension is removed: `a.b.pdf` keeps its inner dot. */
  lemma {:induction false} OnlyLastExtensionRemoved(dir: string, base: string)
    requires base == "a.b"
    ensures CourseName(dir + "/" + (base + ".pdf")) == "a.b"
  {
    assert base[0] != '.';
    PdfStem(dir, base);
    NoSeparatorsKeepsStem(dir + "/" + (base + ".pdf"));
  }

  /** A name whose only dot is its leading one (`.hidden`) has no extension,
      so it is kept whole. */
  lemma {:induction false} LeadingDotIsNotExtension(dir: string, file: string)
    requires '/' !in file && |file| > 0 && file[0] == '.' && '.' !in file[1..]
    ensures Stem(dir + "/" + file) == file
  {
    BasenameOfJoin(dir, file);
    SplitExtMatchesExtensionAt(file);
  }

  lemma {:induction false} SeparatorsExample(stem: string, name: string)
    requires stem == "intro_to-biology"
    requires |name| == |stem|
    requires forall i | 0 <= i < |name| :: name[i] == (if IsSeparator(stem[i]) then ' ' else stem[i])
    ensures name == "intro to biology"
  {
    var want := "intro to biology";
    assert name[0] == want[0] && name[5] == want[5] && name[8] == want[8];
    forall i | 0 <= i < |want|
      ensures name[i] == want[i]
    {
    }
  }
}
