/**
 * The pattern `git@.+:(.+)/(.+)\.git` as Python's `re.search` applies it to
 * a clone URL: the match starts at the leftmost position where one exists,
 * and the greedy `.+` groups make the colon, the slash and the `.git` each
 * the last one that still lets the rest match. `.` matches every character
 * except a newline.
 */
module GitUrlPattern {
  import opened Wrappers

  /** The literal parts of the pattern. */
  datatype Token = GitAt | Colon | Slash | GitSuffix

  function Width(t: Token): nat
  {
    match t
    case GitAt => 4
    case Colon => 1
    case Slash => 1
    case GitSuffix => 4
  }

  /** `t` occurs in `u` at `i`, compared character by character. */
  predicate TokenAt(u: string, t: Token, i: int)
  {
    0 <= i && i + Width(t) <= |u| &&
    match t
    case GitAt => u[i] == 'g' && u[i + 1] == 'i' && u[i + 2] == 't' && u[i + 3] == '@'
    case Colon => u[i] == ':'
    case Slash => u[i] == '/'
    case GitSuffix => u[i] == '.' && u[i + 1] == 'g' && u[i + 2] == 'i' && u[i + 3] == 't'
  }

  /** Positions of one match: `git@` at `s`, `:` at `c`, `/` at `p` and `.git` at `q`. */
  datatype Match = Match(s: int, c: int, p: int, q: int)

  /** The text between `git@` and `.git` holds no newline. */
  predicate NoNewline(u: string, lo: int, hi: int)
    requires 0 <= lo && hi <= |u|
  {
    forall i | lo <= i < hi :: u[i] != '\n'
  }

  /** Every way the pattern can match `u`; each `.+` takes at least one character. */
  predicate IsMatch(u: string, m: Match)
  {
    && TokenAt(u, GitAt, m.s)
    && m.s + 4 < m.c && TokenAt(u, Colon, m.c)
    && m.c + 1 < m.p && TokenAt(u, Slash, m.p)
    && m.p + 1 < m.q && TokenAt(u, GitSuffix, m.q)
    && NoNewline(u, m.s + 4, m.q)
  }

  /** The last position `i` in `lo..hi` where `t` occurs. */
  function LastOccurrence(u: string, t: Token, lo: int, hi: int): (r: Option<int>)
    ensures r.Some? ==> lo <= r.value <= hi && TokenAt(u, t, r.value)
    decreases hi - lo
  {
    if hi < lo then None
    else if TokenAt(u, t, hi) then Some(hi)
    else LastOccurrence(u, t, lo, hi - 1)
  }

  lemma {:induction false} LastOccurrenceIsLast(u: string, t: Token, lo: int, hi: int, j: int)
    requires lo <= j <= hi && TokenAt(u, t, j)
    ensures LastOccurrence(u, t, lo, hi).Some? && j <= LastOccurrence(u, t, lo, hi).value
    decreases hi - lo
  {
    if !TokenAt(u, t, hi) {
      LastOccurrenceIsLast(u, t, lo, hi - 1, j);
    }
  }

  /** The first newline at or after `i`, or the end of `u`. */
  function LineEnd(u: string, i: nat): (r: nat)
    requires i <= |u|
    ensures i <= r <= |u| && NoNewline(u, i, r)
    ensures r < |u| ==> u[r] == '\n'
    decreases |u| - i
  {
    if i == |u| || u[i] == '\n' then i else LineEnd(u, i + 1)
  }

  /**
   * The match the regex engine settles on when it tries position `s`: with
   * the greedy groups backtracking from the right, the last `.git` of the
   * line, then the last slash before it, then the last colon before that.
   */
  function MatchAt(u: string, s: nat): Option<Match>
  {
    if !TokenAt(u, GitAt, s) then None
    else
      var q := LastGitSuffix(u, s);
      if q.None? then None
      else
        var p := LastSlash(u, s, q.value);
        if p.None? then None
        else
          var c := LastColon(u, s, p.value);
          if c.None? then None
          else Some(Match(s, c.value, p.value, q.value))
  }

  /** The last `.git` that ends before the line does, leaving room for `.+:.+/.+` after `git@`. */
  function LastGitSuffix(u: string, s: nat): Option<int>
    requires s + 4 <= |u|
  {
    LastOccurrence(u, GitSuffix, s + 9, LineEnd(u, s + 4) - 4)
  }

  function LastSlash(u: string, s: nat, q: int): Option<int>
  {
    LastOccurrence(u, Slash, s + 7, q - 2)
  }

  function LastColon(u: string, s: nat, p: int): Option<int>
  {
    LastOccurrence(u, Colon, s + 5, p - 2)
  }

  /** `re.search`: the first start position from `from` on where the pattern matches. */
  function SearchFrom(u: string, from: nat): Option<Match>
    decreases |u| - from
  {
    if from > |u| then None
    else if MatchAt(u, from).Some? then MatchAt(u, from)
    else SearchFrom(u, from + 1)
  }

  function Search(u: string): Option<Match>
  {
    SearchFrom(u, 0)
  }

  /** The two groups: the project and the repository. */
  function Groups(u: string, m: Match): (string, string)
    requires IsMatch(u, m)
  {
    (u[m.c + 1..m.p], u[m.p + 1..m.q])
  }

  lemma MatchAtIsMatch(u: string, s: nat)
    requires MatchAt(u, s).Some?
    ensures IsMatch(u, MatchAt(u, s).value) && MatchAt(u, s).value.s == s
  {
    var e := LineEnd(u, s + 4);
    var q := LastGitSuffix(u, s).value;
    assert q + 4 <= e;
    assert NoNewline(u, s + 4, q);
  }

  /** A `.git` after `git@` with no newline in between lies before the line's end. */
  lemma GitSuffixBeforeLineEnd(u: string, m: Match)
    requires IsMatch(u, m) && m.s >= 0
    ensures m.q + 4 <= LineEnd(u, m.s + 4)
  {
  }

  /** Every match starting at `s` has its colon, slash and `.git` at or before the engine's. */
  lemma {:induction false} MatchAtIsGreatest(u: string, m: Match)
    requires IsMatch(u, m) && m.s >= 0
    ensures MatchAt(u, m.s).Some?
    ensures var r := MatchAt(u, m.s).value; m.c <= r.c && m.p <= r.p && m.q <= r.q
  {
    var s: nat := m.s;
    GitSuffixBeforeLineEnd(u, m);
    LastOccurrenceIsLast(u, GitSuffix, s + 9, LineEnd(u, s + 4) - 4, m.q);
    var q := LastGitSuffix(u, s).value;
    LastOccurrenceIsLast(u, Slash, s + 7, q - 2, m.p);
    var p := LastSlash(u, s, q).value;
    LastOccurrenceIsLast(u, Colon, s + 5, p - 2, m.c);
    var c := LastColon(u, s, p).value;
    assert MatchAt(u, s) == Some(Match(s, c, p, q));
  }

  lemma NoStartPastEnd(u: string, s: nat)
    requires s > |u|
    ensures MatchAt(u, s).None?
  {
    assert !TokenAt(u, GitAt, s);
  }

  lemma {:induction false} SearchFromIsLeftmost(u: string, from: nat)
    ensures SearchFrom(u, from).Some? ==>
      var m := SearchFrom(u, from).value;
      from <= m.s && MatchAt(u, m.s) == Some(m) && forall s: nat | from <= s < m.s :: MatchAt(u, s).None?
    ensures SearchFrom(u, from).None? ==> forall s: nat | from <= s :: MatchAt(u, s).None?
    decreases |u| - from
  {
    if from <= |u| && MatchAt(u, from).None? {
      SearchFromIsLeftmost(u, from + 1);
    }
    if from > |u| {
      forall s: nat | from <= s ensures MatchAt(u, s).None? {
        NoStartPastEnd(u, s);
      }
    }
    if from <= |u| && MatchAt(u, from).Some? {
      MatchAtIsMatch(u, from);
    }
  }

  /**
   * The search finds a match exactly when there is one; it starts no later
   * than any other match, and among the matches at its start its colon,
   * slash and `.git` come last, which is what the greedy groups select.
   */
  lemma SearchIsLeftmostGreedy(u: string)
    ensures Search(u).Some? ==> IsMatch(u, Search(u).value)
    ensures Search(u).Some? ==> forall m | IsMatch(u, m) ::
      var r := Search(u).value;
      r.s <= m.s && (m.s == r.s ==> m.c <= r.c && m.p <= r.p && m.q <= r.q)
    ensures Search(u).None? <==> forall m :: !IsMatch(u, m)
  {
    SearchFromIsLeftmost(u, 0);
    if Search(u).Some? {
      MatchAtIsMatch(u, Search(u).value.s);
    }
    forall m | IsMatch(u, m)
      ensures Search(u).Some?
      ensures Search(u).Some? ==> var r := Search(u).value; r.s <= m.s && (m.s == r.s ==> m.c <= r.c && m.p <= r.p && m.q <= r.q)
    {
      MatchAtIsGreatest(u, m);
    }
  }

  /**
   * A match starting where the search starts, with no `:` before its slash,
   * no `/` before its `.git` and no `.git` after it that could extend the
   * greedy groups, is the one the search returns.
   */
  lemma {:induction false} SearchFindsLastTokens(u: string, m: Match)
    requires IsMatch(u, m) && m.s == 0
    requires m.q + 4 == |u|
    requires forall i | m.p < i < m.q - 1 :: !TokenAt(u, Slash, i)
    requires forall i | m.c < i < m.p - 1 :: !TokenAt(u, Colon, i)
    ensures Search(u) == Some(m)
  {
    SearchIsLeftmostGreedy(u);
  }

  lemma NestedProjectUrlTokens(u: string)
    requires u == "git@gitlab.com:group/sub/repo.git"
    ensures IsMatch(u, Match(0, 14, 24, 29)) && |u| == 33
    ensures forall i | 24 < i < 28 :: !TokenAt(u, Slash, i)
    ensures forall i | 14 < i < 23 :: !TokenAt(u, Colon, i)
    ensures u[15..24] == "group/sub" && u[25..29] == "repo"
  {
    NestedProjectUrlMatches(u);
    NestedProjectUrlGaps(u);
    NestedProjectUrlGroups(u);
  }

  lemma NestedProjectUrlMatches(u: string)
    requires u == "git@gitlab.com:group/sub/repo.git"
    ensures IsMatch(u, Match(0, 14, 24, 29)) && |u| == 33
  {
    assert TokenAt(u, GitAt, 0) && TokenAt(u, Colon, 14) && TokenAt(u, Slash, 24) && TokenAt(u, GitSuffix, 29);
    assert NoNewline(u, 4, 29) by {
      forall i | 4 <= i < 29 ensures u[i] != '\n' { }
    }
  }

  lemma NestedProjectUrlGaps(u: string)
    requires u == "git@gitlab.com:group/sub/repo.git"
    ensures forall i | 24 < i < 28 :: !TokenAt(u, Slash, i)
    ensures forall i | 14 < i < 23 :: !TokenAt(u, Colon, i)
  {
  }

  lemma NestedProjectUrlGroups(u: string)
    requires u == "git@gitlab.com:group/sub/repo.git"
    ensures u[15..24] == "group/sub" && u[25..29] == "repo"
  {
  }

  /**
   * With a subgroup in the path, the greedy first group takes everything up
   * to the last slash: the project is `group/sub` and the repository `repo`.
   */
  lemma NestedProjectUrl(u: string)
    requires u == "git@gitlab.com:group/sub/repo.git"
    ensures Search(u) == Some(Match(0, 14, 24, 29))
    ensures IsMatch(u, Match(0, 14, 24, 29)) && Groups(u, Match(0, 14, 24, 29)) == ("group/sub", "repo")
  {
    NestedProjectUrlTokens(u);
    SearchFindsLastTokens(u, Match(0, 14, 24, 29));
  }
}
