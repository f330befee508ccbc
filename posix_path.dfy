/** The parts of Python's `posixpath` that the workdir search uses, on path strings. */
module PosixPath {

  predicate AllSlashes(s: string)
  {
    forall j | 0 <= j < |s| :: s[j] == '/'
  }

  /** `os.path.join(a, b)` for a relative `b`. */
  function JoinPath(a: string, b: string): string
  {
    if a == "" then b
    else if a[|a| - 1] == '/' then a + b
    else a + "/" + b
  }

  /** The position just after the last `/`, or 0 when there is none. */
  function SlashEnd(p: string): (i: nat)
    ensures i <= |p|
    ensures i > 0 ==> p[i - 1] == '/'
    ensures forall j | i <= j < |p| :: p[j] != '/'
  {
    if p == [] then 0
    else if p[|p| - 1] == '/' then |p|
    else SlashEnd(p[..|p| - 1])
  }

  /** `s.rstrip('/')`. */
  function RStripSlash(s: string): (r: string)
    ensures |r| <= |s| && r == s[..|r|]
    ensures r == "" || r[|r| - 1] != '/'
    ensures forall j | |r| <= j < |s| :: s[j] == '/'
    ensures s != "" && s[|s| - 1] == '/' ==> |r| < |s|
  {
    if s != [] && s[|s| - 1] == '/' then RStripSlash(s[..|s| - 1]) else s
  }

  /**
   * `os.path.split(p)[0]`: everything up to the last slash, with the
   * trailing slashes removed unless it is made of slashes only.
   */
  function SplitHead(p: string): string
  {
    var head := p[..SlashEnd(p)];
    if head != "" && !AllSlashes(head) then RStripSlash(head) else head
  }

  /**
   * The head never grows, and it shrinks unless it is empty or made of
   * slashes only.
   */
  lemma SplitHeadShrinks(p: string)
    ensures |SplitHead(p)| <= |p|
    ensures SplitHead(p) != "" && !AllSlashes(SplitHead(p)) ==> |SplitHead(p)| < |p|
  {
    var head := p[..SlashEnd(p)];
    if head != "" && !AllSlashes(head) {
      assert head[|head| - 1] == '/';
    } else if head != "" {
      assert SplitHead(p) == head;
    }
  }

  /** The head is the start of the path. */
  lemma SplitHeadIsPrefix(p: string)
    ensures |SplitHead(p)| <= |p| && SplitHead(p) == p[..|SplitHead(p)|]
  {
    var head := p[..SlashEnd(p)];
    if head != "" && !AllSlashes(head) {
      var r := RStripSlash(head);
      assert r == head[..|r|];
      assert head[..|r|] == p[..|r|];
    }
  }

  /** `//` is its own parent: `split` keeps a head made of slashes as it is. */
  lemma DoubleSlashIsOwnHead(p: string)
    requires p == "//"
    ensures SplitHead(p) == "//"
  {
    assert SlashEnd(p) == 2;
    assert p[..2] == p;
  }

  /** Under `//`, the parent of a top-level directory is `//`. */
  lemma DoubleSlashTopHead(p: string)
    requires p == "//srv"
    ensures SplitHead(p) == "//"
  {
    assert p[..|p| - 1] == "//sr" && "//sr"[..3] == "//s" && "//s"[..2] == "//";
    assert SlashEnd("//") == 2;
    assert SlashEnd("//s") == 2;
    assert SlashEnd("//sr") == 2;
    assert SlashEnd(p) == 2;
    assert p[..2] == "//" && AllSlashes("//");
  }
}
