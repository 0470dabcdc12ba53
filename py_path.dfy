/**
 * The POSIX `os.path` functions the converter uses: `splitext` (which picks
 * the part of a file name the dispatch looks at), `split` and `basename`
 * (behind the script's `path_leaf`), and `join`.
 */
module PyPath {
  import opened PyStr

  /** Some character of `p[lo..hi]` is not a dot. */
  predicate HasNonDot(p: string, lo: int, hi: int)
    requires 0 <= lo <= hi <= |p|
  {
    exists k :: lo <= k < hi && p[k] != '.'
  }

  /**
   * `os.path.splitext(p)`: splits at the last dot of the last path
   * component, unless everything before that dot in the component is dots
   * (so ".mp3" and "..mp3" have no extension). The extension keeps its dot.
   */
  function SplitExt(p: string): (r: (string, string))
    ensures r.0 + r.1 == p
    ensures r.1 == "" || (r.1[0] == '.' && '.' !in r.1[1..] && '/' !in r.1)
  {
    var sep := RFind(p, '/');
    var dot := RFind(p, '.');
    if dot > sep && HasNonDot(p, sep + 1, dot) then
      assert forall k :: 1 <= k < |p[dot..]| ==> p[dot..][k] == p[dot + k];
      (p[..dot], p[dot..])
    else (p, "")
  }

  /** `os.path.splitext(filename)[1][1:]`: the extension without its dot. */
  function Extension(filename: string): (r: string)
    ensures '.' !in r && '/' !in r
    ensures r != "" ==> Stem(filename) + "." + r == filename
  {
    var ext := SplitExt(filename).1;
    if ext == "" then "" else
      assert forall k :: 0 <= k < |ext[1..]| ==> ext[1..][k] == ext[k + 1];
      assert ext == "." + ext[1..];
      ext[1..]
  }

  /** `os.path.splitext(filename)[0]`. */
  function Stem(filename: string): (r: string)
    ensures |r| <= |filename| && r == filename[..|r|]
  {
    var (stem, ext) := SplitExt(filename);
    assert filename[..|stem|] == (stem + ext)[..|stem|];
    stem
  }

  /**
   * A file name made of a stem and a dot-free extension splits back into
   * that stem and that extension, whatever dots the stem itself holds, as
   * long as the stem is not only dots.
   */
  lemma SplitExtOfDotted(stem: string, ext: string)
    requires '/' !in stem && '/' !in ext && '.' !in ext
    requires exists k :: 0 <= k < |stem| && stem[k] != '.'
    ensures SplitExt(stem + "." + ext) == (stem, "." + ext)
    ensures Extension(stem + "." + ext) == ext && Stem(stem + "." + ext) == stem
  {
    var p := stem + "." + ext;
    RFindAt(p, '/', -1);
    RFindAt(p, '.', |stem|);
    var k :| 0 <= k < |stem| && stem[k] != '.';
    assert p[k] == stem[k];
    assert HasNonDot(p, 0, |stem|);
    assert p[..|stem|] == stem;
    assert p[|stem|..] == "." + ext;
  }

  /** A hidden file such as ".mp3" has no extension: the leading dot does not count. */
  lemma HiddenNameHasNoExtension(rest: string)
    requires '/' !in rest && '.' !in rest
    ensures SplitExt("." + rest) == ("." + rest, "")
    ensures Extension("." + rest) == ""
  {
    var p := "." + rest;
    RFindAt(p, '/', -1);
    RFindAt(p, '.', 0);
  }

  /** A name without any dot has no extension. */
  lemma NoDotNoExtension(p: string)
    requires '.' !in p
    ensures SplitExt(p) == (p, "") && Extension(p) == ""
  {
    RFindAt(p, '.', -1);
  }

  /** Every character of `s` is `c`. */
  predicate AllChar(s: string, c: char) {
    forall k :: 0 <= k < |s| ==> s[k] == c
  }

  /**
   * `os.path.split(p)`: the head (everything up to the last slash, with
   * trailing slashes dropped unless it is only slashes) and the tail.
   */
  function SplitPath(p: string): (r: (string, string))
    ensures '/' !in r.1 && |r.1| <= |p| && r.1 == p[|p| - |r.1|..]
    ensures |r.1| == |p| || p[|p| - |r.1| - 1] == '/'
  {
    var i := RFind(p, '/') + 1;
    assert forall k :: 0 <= k < |p[i..]| ==> p[i..][k] == p[i + k];
    var head := p[..i];
    var tail := p[i..];
    (if head != "" && !AllChar(head, '/') then RStripChar(head, '/') else head, tail)
  }

  /** `os.path.basename(p)`: everything after the last slash. */
  function Basename(p: string): (r: string)
    ensures '/' !in r
    ensures |r| <= |p| && r == p[|p| - |r|..]
    ensures |r| == |p| || p[|p| - |r| - 1] == '/'
  {
    var i := RFind(p, '/') + 1;
    assert forall k :: 0 <= k < |p[i..]| ==> p[i..][k] == p[i + k];
    p[i..]
  }

  /** The script's `path_leaf`: the tail of `os.path.split`, or the basename of the head when the tail is empty. */
  function PathLeaf(path: string): (r: string)
    ensures '/' !in r
  {
    var (head, tail) := SplitPath(path);
    if tail != "" then
      var i := RFind(path, '/') + 1;
      assert forall k :: 0 <= k < |tail| ==> tail[k] == path[i + k];
      tail
    else Basename(head)
  }

  /** `path_leaf` gives the last component of a path. */
  lemma PathLeafOfComponent(dir: string, leaf: string)
    requires leaf != "" && '/' !in leaf
    ensures PathLeaf(dir + "/" + leaf) == leaf
  {
    var p := dir + "/" + leaf;
    RFindAt(p, '/', |dir|);
    assert p[|dir| + 1..] == leaf;
    assert SplitPath(p).1 == leaf;
  }

  /** A name without a slash is its own leaf. */
  lemma PathLeafOfName(leaf: string)
    requires '/' !in leaf
    ensures PathLeaf(leaf) == leaf
  {
    RFindAt(leaf, '/', -1);
    assert leaf[0..] == leaf;
  }

  /** `path_leaf` ignores a trailing slash: it still gives the last component. */
  lemma PathLeafOfDirectory(dir: string, leaf: string)
    requires leaf != "" && '/' !in leaf
    ensures PathLeaf(dir + "/" + leaf + "/") == leaf
  {
    var p := dir + "/" + leaf;
    var q := p + "/";
    RFindAt(q, '/', |p|);
    assert q[..|q|] == q;
    assert q[|q|..] == "";
    assert q[|q| - 2] == leaf[|leaf| - 1];
    assert !AllChar(q, '/');
    assert q[..|q| - 1] == p;
    assert RStripChar(p, '/') == p;
    assert RStripChar(q, '/') == p;
    assert SplitPath(q) == (p, "");
    RFindAt(p, '/', |dir|);
    assert p[|dir| + 1..] == leaf;
    assert Basename(p) == leaf;
  }

  /**
   * `os.path.join(a, b)`: `b` alone when it is absolute, otherwise `b`
   * appended to `a` with a slash unless `a` is empty or already ends in one.
   */
  function Join(a: string, b: string): (r: string)
    ensures |b| <= |r| && r[|r| - |b|..] == b
    ensures (|b| > 0 && b[0] == '/') || (|a| <= |r| && r[..|a|] == a)
  {
    if |b| > 0 && b[0] == '/' then b
    else if a == "" || a[|a| - 1] == '/' then a + b
    else a + "/" + b
  }

  /** Joining onto the same directory two names that start with the same character gives the same path only for the same name. */
  lemma JoinInjective(a: string, b1: string, b2: string)
    requires |b1| > 0 && |b2| > 0 && b1[0] == b2[0]
    requires Join(a, b1) == Join(a, b2)
    ensures b1 == b2
  {
    if b1[0] != '/' {
      var pre := if a == "" || a[|a| - 1] == '/' then a else a + "/";
      assert Join(a, b1) == pre + b1 && Join(a, b2) == pre + b2;
      assert b1 == (pre + b1)[|pre|..];
      assert b2 == (pre + b2)[|pre|..];
    }
  }
}
