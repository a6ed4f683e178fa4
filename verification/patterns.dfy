/** The regular expressions the engine matches command text against, evaluated
    the way Python's `re.search` does: the leftmost starting position where the
    pattern matches, and at that position greedy quantifiers backtracking from
    their longest choice. Only the shapes the engine uses are modelled:

      kw [-]?[F]+ [^ ]+\.a                      (does the text name an archive?)
      kw [-]?[F]+ ([^ ]*lib([^ ]+)\.a)          (group 1: archive, group 2: name)
      kw [-]?[F]+ ([^ ]*lib([^ ]+)\.a.bc)       (the same for a bitcode archive)

    where F is a set of flag letters (never '-' or ' '). */
module Patterns {
  import opened Strings

  const ArCreateFlags: set<char> := {'c', 'r', 'u', 'q', 's'}
  const ArQuickFlags: set<char> := {'q', 'c'}
  const LinkOutputFlags: set<char> := {'o'}

  /** No flag letter is whitespace. */
  lemma {:induction false} FlagLettersVisible()
    ensures forall c :: c in ArCreateFlags ==> !IsSpace(c)
    ensures forall c :: c in ArQuickFlags ==> !IsSpace(c)
    ensures forall c :: c in LinkOutputFlags ==> !IsSpace(c)
  {
  }

  /** Length of the run of characters from `chars` starting at `i`. */
  function RunOf(s: string, i: nat, chars: set<char>): (n: nat)
    requires i <= |s|
    ensures i + n <= |s|
    ensures i + n < |s| ==> s[i + n] !in chars
    decreases |s| - i
  {
    if i < |s| && s[i] in chars then 1 + RunOf(s, i + 1, chars) else 0
  }

  /** Length of the run of characters other than ' ' (the class `[^ ]`) starting at `i`. */
  function NonBlankRun(s: string, i: nat): (n: nat)
    requires i <= |s|
    ensures i + n <= |s|
    ensures i + n < |s| ==> s[i + n] == ' '
    decreases |s| - i
  {
    if i < |s| && s[i] != ' ' then 1 + NonBlankRun(s, i + 1) else 0
  }

  /** `kw [-]?[flags]+ ` at position `p`: the position after the final blank. */
  function FlagHead(s: string, p: nat, kw: string, flags: set<char>): (q: Option<nat>)
    requires p <= |s|
    ensures q.Some? ==> p + |kw| + 3 <= q.value <= |s| && StartsWith(s[p..], kw)
  {
    var f := p + |kw| + 1;
    if f <= |s| && s[p..p + |kw|] == kw && s[p + |kw|] == ' ' then
      var g := if f < |s| && s[f] == '-' then f + 1 else f;
      var n := RunOf(s, g, flags);
      if n > 0 && g + n < |s| && s[g + n] == ' ' then Some(g + n + 1) else None
    else None
  }

  /** `\.a` at `j`; with `bc`, `\.a.bc`, whose unescaped dot is any character but a newline. */
  predicate DotAAt(s: string, j: nat, bc: bool) {
    && j + 2 <= |s| && s[j] == '.' && s[j + 1] == 'a'
    && (bc ==> j + 5 <= |s| && s[j + 2] != '\n' && s[j + 3] == 'b' && s[j + 4] == 'c')
  }

  /** The largest `j` in `[lo, hi]` where `DotAAt(s, j, bc)` holds. */
  function LastDotA(s: string, lo: nat, hi: int, bc: bool): (r: Option<nat>)
    ensures r.Some? ==> lo <= r.value <= hi && DotAAt(s, r.value, bc)
    ensures r.Some? ==> forall k: nat :: r.value < k <= hi ==> !DotAAt(s, k, bc)
    ensures r.None? ==> forall k: nat :: lo <= k <= hi ==> !DotAAt(s, k, bc)
    decreases hi - lo
  {
    if hi < lo then None
    else if DotAAt(s, hi, bc) then Some(hi)
    else LastDotA(s, lo, hi - 1, bc)
  }

  predicate LibAt(s: string, i: nat) {
    i + 3 <= |s| && s[i] == 'l' && s[i + 1] == 'i' && s[i + 2] == 'b'
  }

  /** The largest `i` in `[lo, hi]` where "lib" starts. */
  function LastLib(s: string, lo: nat, hi: int): (r: Option<nat>)
    ensures r.Some? ==> lo <= r.value <= hi && LibAt(s, r.value)
    ensures r.Some? ==> forall k: nat :: r.value < k <= hi ==> !LibAt(s, k)
    ensures r.None? ==> forall k: nat :: lo <= k <= hi ==> !LibAt(s, k)
    decreases hi - lo
  {
    if hi < lo then None
    else if LibAt(s, hi) then Some(hi)
    else LastLib(s, lo, hi - 1)
  }

  /** Groups 1 and 2 of a library match. */
  datatype LibMatch = LibMatch(path: string, name: string)

  /** `([^ ]*lib([^ ]+)\.a)` (or `...\.a.bc)` when `bc`) anchored at `q`. The greedy
      `[^ ]*` backtracks to the last "lib" that leaves room for a non-empty name
      before some `\.a`, and the greedy `[^ ]+` then reaches the last `\.a`. */
  function LibGroupAt(s: string, q: nat, bc: bool): (m: Option<LibMatch>)
    requires q <= |s|
    ensures m.Some? ==> m.value.name != []
  {
    var run := NonBlankRun(s, q);
    match LastDotA(s, q + 4, q + run - 2, bc)
    case None => None
    case Some(j) =>
      match LastLib(s, q, j - 4)
      case None => None
      case Some(i) => Some(LibMatch(s[q..j + (if bc then 5 else 2)], s[i + 3..j]))
  }

  /** `[^ ]+\.a` anchored at `q`. */
  predicate ArchiveAt(s: string, q: nat)
    requires q <= |s|
  {
    LastDotA(s, q + 1, q + NonBlankRun(s, q) - 2, false).Some?
  }

  /** re.search for `kw [-]?[flags]+ ([^ ]*lib([^ ]+)\.a)` (`\.a.bc` when `bc`),
      trying the starting positions from `p` on. */
  function SearchLib(s: string, p: nat, kw: string, flags: set<char>, bc: bool): Option<LibMatch>
    requires p <= |s|
    decreases |s| - p
  {
    var here := match FlagHead(s, p, kw, flags)
      case Some(q) => LibGroupAt(s, q, bc)
      case None => None;
    if here.Some? then here
    else if p == |s| then None
    else SearchLib(s, p + 1, kw, flags, bc)
  }

  /** re.search for `kw [-]?[flags]+ [^ ]+\.a`, from position `p` on. */
  predicate SearchArchive(s: string, p: nat, kw: string, flags: set<char>)
    requires p <= |s|
    decreases |s| - p
  {
    || (FlagHead(s, p, kw, flags).Some? && ArchiveAt(s, FlagHead(s, p, kw, flags).value))
    || (p < |s| && SearchArchive(s, p + 1, kw, flags))
  }

  /** A successful archive search was found at some position, whose head and
      archive argument the lemma exhibits. */
  lemma {:induction false} ArchiveMatchPosition(s: string, p: nat, kw: string, flags: set<char>)
    returns (m: nat, q: nat)
    requires p <= |s| && SearchArchive(s, p, kw, flags)
    ensures p <= m <= |s| && FlagHead(s, m, kw, flags) == Some(q) && q <= |s| && ArchiveAt(s, q)
    decreases |s| - p
  {
    if FlagHead(s, p, kw, flags).Some? && ArchiveAt(s, FlagHead(s, p, kw, flags).value) {
      m, q := p, FlagHead(s, p, kw, flags).value;
    } else {
      m, q := ArchiveMatchPosition(s, p + 1, kw, flags);
    }
  }

  /** A successful library search matched at some position, with the group
      found at the end of that position's flag head. */
  lemma {:induction false} SearchLibFound(s: string, p: nat, kw: string, flags: set<char>, bc: bool)
    returns (m: nat, q: nat)
    requires p <= |s| && SearchLib(s, p, kw, flags, bc).Some?
    ensures p <= m <= |s| && FlagHead(s, m, kw, flags) == Some(q) && q <= |s|
    ensures LibGroupAt(s, q, bc) == SearchLib(s, p, kw, flags, bc)
    decreases |s| - p
  {
    match FlagHead(s, p, kw, flags)
    case Some(q0) =>
      if LibGroupAt(s, q0, bc).Some? {
        m, q := p, q0;
      } else {
        m, q := SearchLibFound(s, p + 1, kw, flags, bc);
      }
    case None =>
      m, q := SearchLibFound(s, p + 1, kw, flags, bc);
  }

  /** `path` is some directory part, then "lib", `name` and ".a" (for a
      bitcode archive, ".a" then any character and "bc"). */
  predicate LibShaped(path: string, name: string, bc: bool) {
    var tail := if bc then 5 else 2;
    && |path| >= |name| + 3 + tail
    && path[..|path| - tail + 2] == path[..|path| - |name| - 3 - tail] + "lib" + name + ".a"
    && (bc ==> path[|path| - 2..] == "bc")
  }

  /** The archive a library group names has the shape the pattern describes. */
  lemma {:induction false} LibGroupShape(s: string, q: nat, bc: bool)
    requires q <= |s| && LibGroupAt(s, q, bc).Some?
    ensures LibShaped(LibGroupAt(s, q, bc).value.path, LibGroupAt(s, q, bc).value.name, bc)
  {
    var i, j := GroupIndices(s, q, bc);
    GroupParts(s, q, i, j, bc);
  }

  /** Where a library group's "lib" and suffix start. */
  lemma {:induction false} GroupIndices(s: string, q: nat, bc: bool) returns (i: nat, j: nat)
    requires q <= |s| && LibGroupAt(s, q, bc).Some?
    ensures q <= i && i + 3 <= j && LibAt(s, i) && DotAAt(s, j, bc)
    ensures LibGroupAt(s, q, bc).value == LibMatch(s[q..j + (if bc then 5 else 2)], s[i + 3..j])
  {
    j := LastDotA(s, q + 4, q + NonBlankRun(s, q) - 2, bc).value;
    i := LastLib(s, q, j - 4).value;
  }

  /** The group text from `q` to the end of the suffix at `j`, with "lib" at `i`. */
  lemma {:induction false} GroupParts(s: string, q: nat, i: nat, j: nat, bc: bool)
    requires q <= i && i + 3 <= j && LibAt(s, i) && DotAAt(s, j, bc)
    ensures LibShaped(s[q..j + (if bc then 5 else 2)], s[i + 3..j], bc)
  {
    var tail := if bc then 5 else 2;
    var path, name := s[q..j + tail], s[i + 3..j];
    assert path[..|path| - tail + 2] == s[q..j + 2];
    assert path[..|path| - |name| - 3 - tail] == s[q..i];
    SliceLib(s, q, i, j);
    if bc {
      assert path[|path| - 2..] == [s[j + 3], s[j + 4]];
    }
  }

  lemma {:induction false} SliceLib(s: string, q: nat, i: nat, j: nat)
    requires q <= i && i + 3 <= j && j + 2 <= |s|
    requires LibAt(s, i) && s[j] == '.' && s[j + 1] == 'a'
    ensures s[q..j + 2] == s[q..i] + "lib" + s[i + 3..j] + ".a"
  {
    assert s[i..i + 3] == "lib";
    assert s[j..j + 2] == ".a";
    SliceSplit(s, q, i, j + 2);
    SliceSplit(s, i, i + 3, j + 2);
    SliceSplit(s, i + 3, j, j + 2);
  }

  lemma {:induction false} SliceSplit(s: string, a: nat, b: nat, c: nat)
    requires a <= b <= c <= |s|
    ensures s[a..c] == s[a..b] + s[b..c]
  {
  }

  lemma {:induction false} RunOfIn(s: string, i: nat, chars: set<char>)
    requires i <= |s|
    ensures forall k :: i <= k < i + RunOf(s, i, chars) ==> s[k] in chars
    decreases |s| - i
  {
    if i < |s| && s[i] in chars {
      RunOfIn(s, i + 1, chars);
    }
  }

  lemma {:induction false} RunOfExact(s: string, i: nat, n: nat, chars: set<char>)
    requires i + n <= |s|
    requires forall k :: i <= k < i + n ==> s[k] in chars
    requires i + n == |s| || s[i + n] !in chars
    ensures RunOf(s, i, chars) == n
    decreases n
  {
    if n > 0 {
      RunOfExact(s, i + 1, n - 1, chars);
    }
  }

  lemma {:induction false} NonBlankRunExact(s: string, i: nat, n: nat)
    requires i + n <= |s|
    requires forall k :: i <= k < i + n ==> s[k] != ' '
    requires i + n == |s| || s[i + n] == ' '
    ensures NonBlankRun(s, i) == n
    decreases n
  {
    if n > 0 {
      NonBlankRunExact(s, i + 1, n - 1);
    }
  }

  lemma {:induction false} NonBlankRunIn(s: string, i: nat)
    requires i <= |s|
    ensures forall k :: i <= k < i + NonBlankRun(s, i) ==> s[k] != ' '
    decreases |s| - i
  {
    if i < |s| && s[i] != ' ' {
      NonBlankRunIn(s, i + 1);
    }
  }

  lemma {:induction false} LastLibIs(s: string, lo: nat, hi: int, a: nat)
    requires lo <= a <= hi && LibAt(s, a)
    requires forall k: nat :: a < k <= hi ==> !LibAt(s, k)
    ensures LastLib(s, lo, hi) == Some(a)
    decreases hi - a
  {
    if hi > a {
      LastLibIs(s, lo, hi - 1, a);
    }
  }

  lemma {:induction false} LastDotAIs(s: string, lo: nat, hi: int, a: nat, bc: bool)
    requires lo <= a <= hi && DotAAt(s, a, bc)
    requires forall k: nat :: a < k <= hi ==> !DotAAt(s, k, bc)
    ensures LastDotA(s, lo, hi, bc) == Some(a)
    decreases hi - a
  {
    if hi > a {
      LastDotAIs(s, lo, hi - 1, a, bc);
    }
  }

  /** What a flag head fixes about the text: the keyword, the blank after it,
      a last flag character just before the final blank. */
  lemma {:induction false} FlagHeadShape(s: string, p: nat, kw: string, flags: set<char>)
    requires p <= |s| && FlagHead(s, p, kw, flags).Some?
    ensures s[p..p + |kw|] == kw && s[p + |kw|] == ' '
    ensures p + |kw| + 1 <= FlagHead(s, p, kw, flags).value - 2
    ensures s[FlagHead(s, p, kw, flags).value - 1] == ' '
    ensures s[FlagHead(s, p, kw, flags).value - 2] in flags
  {
    var f := p + |kw| + 1;
    var g := if f < |s| && s[f] == '-' then f + 1 else f;
    RunOfIn(s, g, flags);
  }

  /** A text in which a keyword with flags is followed by an archive argument
      has at least three words. */
  lemma {:induction false} HeadAndArchiveWords(s: string, m: nat, kw: string, flags: set<char>, q: nat)
    requires m <= |s| && FlagHead(s, m, kw, flags) == Some(q) && q <= |s| && ArchiveAt(s, q)
    requires kw != [] && !IsSpace(kw[0])
    requires forall c :: c in flags ==> !IsSpace(c)
    ensures |Split(s)| >= 3
  {
    FlagHeadShape(s, m, kw, flags);
    assert s[m] == s[m..m + |kw|][0];
    var j := LastDotA(s, q + 1, q + NonBlankRun(s, q) - 2, false).value;
    ThreeWords(s, m + |kw|, q - 1, m, q - 2, j);
  }

  /** A text with two blanks and a visible character before, between and
      after them has at least three words. */
  lemma {:induction false} ThreeWords(s: string, x: nat, y: nat, i: nat, j: nat, k: nat)
    requires i < x < j < y < k < |s| && s[x] == ' ' && s[y] == ' '
    requires !IsSpace(s[i]) && !IsSpace(s[j]) && !IsSpace(s[k])
    ensures |Split(s)| >= 3
  {
    var a, b, c := s[..x], s[x + 1..y], s[y + 1..];
    assert |Split(a)| >= 1 by {
      assert a[i] == s[i];
      SplitNonEmpty(a, i);
    }
    assert |Split(b)| >= 1 by {
      assert b[j - x - 1] == s[j];
      SplitNonEmpty(b, j - x - 1);
    }
    assert |Split(c)| >= 1 by {
      assert c[k - y - 1] == s[k];
      SplitNonEmpty(c, k - y - 1);
    }
    SplitAtTwoBlanks(s, x, y);
  }

  /** Two blanks cut a text into three parts whose words, in order, are the
      text's words. */
  lemma {:induction false} SplitAtTwoBlanks(s: string, x: nat, y: nat)
    requires x < y < |s| && s[x] == ' ' && s[y] == ' '
    ensures Split(s) == Split(s[..x]) + (Split(s[x + 1..y]) + Split(s[y + 1..]))
  {
    var a, b, c := s[..x], s[x + 1..y], s[y + 1..];
    assert s == a + [' '] + (b + [' '] + c);
    SplitAppend(a, ' ', b + [' '] + c);
    SplitAppend(b, ' ', c);
  }
}
