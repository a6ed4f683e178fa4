/** Text and list helpers with the meaning Python gives them in the rewrite
    engine: str.split(), " ".join, re.split('\s'), str.startswith/endswith,
    the `in` test on strings, list.index, list.remove, os.path.basename and
    os.path.join (POSIX). */
module Strings {

  datatype Option<T> = None | Some(value: T)

  /** The characters that str.split() and the regex class \s treat as whitespace. */
  predicate IsSpace(c: char) {
    || c == ' ' || c == '\t' || c == '\n' || c == '\r' || c == '\U{0B}' || c == '\U{0C}'
    || ('\U{1C}' <= c <= '\U{1F}') || c == '\U{85}' || c == '\U{A0}' || c == '\U{1680}'
    || ('\U{2000}' <= c <= '\U{200A}') || c == '\U{2028}' || c == '\U{2029}'
    || c == '\U{202F}' || c == '\U{205F}' || c == '\U{3000}'
  }

  predicate StartsWith(s: string, p: string) {
    |p| <= |s| && s[..|p|] == p
  }

  predicate EndsWith(s: string, p: string) {
    |p| <= |s| && s[|s| - |p|..] == p
  }

  /** Python's `p in s` for strings. */
  predicate Contains(s: string, p: string)
    decreases |s|
  {
    StartsWith(s, p) || (|s| > 0 && Contains(s[1..], p))
  }

  lemma {:induction false} ContainsAt(s: string, p: string, i: nat)
    requires i + |p| <= |s| && s[i..i + |p|] == p
    ensures Contains(s, p)
    decreases i
  {
    if i > 0 {
      assert s[1..][i - 1..i - 1 + |p|] == s[i..i + |p|];
      ContainsAt(s[1..], p, i - 1);
    }
  }

  /** A word of a command line: non-empty, without whitespace. */
  predicate IsWord(w: string) {
    w != [] && forall k :: 0 <= k < |w| ==> !IsSpace(w[k])
  }

  predicate AllWords(ws: seq<string>) {
    forall i :: 0 <= i < |ws| ==> IsWord(ws[i])
  }

  /** Number of whitespace characters `s` starts with. */
  function LeadingSpaces(s: string): (i: nat)
    ensures i <= |s|
    ensures i < |s| ==> !IsSpace(s[i])
  {
    if s != [] && IsSpace(s[0]) then 1 + LeadingSpaces(s[1..]) else 0
  }

  /** Length of the longest whitespace-free prefix of `s`. */
  function WordLength(s: string): (n: nat)
    ensures n <= |s|
    ensures s != [] && !IsSpace(s[0]) ==> n >= 1
    ensures n < |s| ==> IsSpace(s[n])
  {
    if s != [] && !IsSpace(s[0]) then 1 + WordLength(s[1..]) else 0
  }

  lemma {:induction false} LeadingSpacesAreSpaces(s: string)
    ensures forall k :: 0 <= k < LeadingSpaces(s) ==> IsSpace(s[k])
  {
    if s != [] && IsSpace(s[0]) {
      LeadingSpacesAreSpaces(s[1..]);
    }
  }

  lemma {:induction false} WordHasNoSpace(s: string)
    ensures forall k :: 0 <= k < WordLength(s) ==> !IsSpace(s[k])
  {
    if s != [] && !IsSpace(s[0]) {
      WordHasNoSpace(s[1..]);
    }
  }

  /** Python's `s.split()`: the maximal whitespace-free runs of `s`, in order. */
  function Split(s: string): (ws: seq<string>)
    decreases |s|
  {
    var t := s[LeadingSpaces(s)..];
    if t == [] then []
    else
      var n := WordLength(t);
      [t[..n]] + Split(t[n..])
  }

  /** Every piece `Split` yields is a word. */
  lemma {:induction false} SplitWords(s: string)
    ensures AllWords(Split(s))
    decreases |s|
  {
    var t := s[LeadingSpaces(s)..];
    if t != [] {
      var n := WordLength(t);
      WordHasNoSpace(t);
      assert IsWord(t[..n]);
      SplitWords(t[n..]);
    }
  }

  /** Python's `sep.join(ts)`. */
  function Join(ts: seq<string>, sep: string): string
  {
    if ts == [] then []
    else if |ts| == 1 then ts[0]
    else ts[0] + sep + Join(ts[1..], sep)
  }

  /** Joining a word in front of a non-empty list puts one separator between. */
  lemma {:induction false} JoinCons(x: string, ts: seq<string>, sep: string)
    requires ts != []
    ensures Join([x] + ts, sep) == x + sep + Join(ts, sep)
  {
    assert ([x] + ts)[1..] == ts;
  }

  /** Python's `re.split('\s', s)`: cut at every single whitespace character. */
  function Fields(s: string): (fs: seq<string>)
    ensures |fs| >= 1
    decreases |s|
  {
    var n := WordLength(s);
    if n == |s| then [s] else [s[..n]] + Fields(s[n + 1..])
  }

  /** Python's `s.split(c)` for a one-character separator. */
  function SplitOn(s: string, c: char): (fs: seq<string>)
    ensures |fs| >= 1
    decreases |s|
  {
    var n := LengthBefore(s, c);
    if n == |s| then [s] else [s[..n]] + SplitOn(s[n + 1..], c)
  }

  /** Length of the longest prefix of `s` free of `c`. */
  function LengthBefore(s: string, c: char): (n: nat)
    ensures n <= |s| && c !in s[..n]
    ensures n == |s| || s[n] == c
  {
    if s != [] && s[0] != c then 1 + LengthBefore(s[1..], c) else 0
  }

  lemma {:induction false} LeadingOfSpaces(a: string, x: string)
    requires forall k :: 0 <= k < |a| ==> IsSpace(a[k])
    ensures LeadingSpaces(a + x) == |a| + LeadingSpaces(x)
  {
    if a != [] {
      assert (a + x)[1..] == a[1..] + x;
      LeadingOfSpaces(a[1..], x);
    } else {
      assert a + x == x;
    }
  }

  lemma {:induction false} LeadingBeforeWord(a: string, x: string)
    requires LeadingSpaces(a) < |a|
    ensures LeadingSpaces(a + x) == LeadingSpaces(a)
  {
    if IsSpace(a[0]) {
      assert (a + x)[1..] == a[1..] + x;
      LeadingBeforeWord(a[1..], x);
    }
  }

  lemma {:induction false} WordLengthBeforeSpace(t: string, c: char, b: string)
    requires IsSpace(c)
    ensures WordLength(t + [c] + b) == WordLength(t)
  {
    if t != [] && !IsSpace(t[0]) {
      assert (t + [c] + b)[1..] == t[1..] + [c] + b;
      WordLengthBeforeSpace(t[1..], c, b);
    }
  }

  /** Leading whitespace does not change the words. */
  lemma {:induction false} SplitAfterSpaces(a: string, x: string)
    requires forall k :: 0 <= k < |a| ==> IsSpace(a[k])
    ensures Split(a + x) == Split(x)
  {
    LeadingOfSpaces(a, x);
    SameSuffix(a, x, LeadingSpaces(x));
    SplitSameRest(a + x, x);
  }

  /** `Split` only looks at what follows the leading whitespace. */
  lemma {:induction false} SplitSameRest(s: string, x: string)
    requires s[LeadingSpaces(s)..] == x[LeadingSpaces(x)..]
    ensures Split(s) == Split(x)
  {
  }

  lemma {:induction false} SameSuffix(a: string, x: string, i: nat)
    requires i <= |x|
    ensures (a + x)[|a| + i..] == x[i..]
  {
  }

  /** Whitespace glues word lists: splitting `a c b` splits `a` and `b` apart. */
  lemma {:induction false} SplitAppend(a: string, c: char, b: string)
    requires IsSpace(c)
    ensures Split(a + [c] + b) == Split(a) + Split(b)
    decreases |a|
  {
    var t := a[LeadingSpaces(a)..];
    if t == [] {
      SplitBlankAppend(a, c, b);
    } else {
      var rest := t[WordLength(t)..];
      SplitAppend(rest, c, b);
      SplitAppendStep(a, c, b);
    }
  }

  /** A blank `a` followed by whitespace contributes no words. */
  lemma {:induction false} SplitBlankAppend(a: string, c: char, b: string)
    requires IsSpace(c) && LeadingSpaces(a) == |a|
    ensures Split(a + [c] + b) == Split(a) + Split(b)
  {
    SpacesThenSpace(a, c);
    SplitAfterSpaces(a + [c], b);
    BlankHasNoWords(a);
  }

  lemma {:induction false} SpacesThenSpace(a: string, c: char)
    requires IsSpace(c) && LeadingSpaces(a) == |a|
    ensures forall k :: 0 <= k < |a + [c]| ==> IsSpace((a + [c])[k])
  {
    LeadingSpacesAreSpaces(a);
  }

  lemma {:induction false} BlankHasNoWords(a: string)
    requires LeadingSpaces(a) == |a|
    ensures Split(a) == []
  {
    assert a[LeadingSpaces(a)..] == [];
  }

  /** The first word of `a` is the first word of `a c b`; the rest follows. */
  lemma {:induction false} SplitAppendStep(a: string, c: char, b: string)
    requires IsSpace(c) && LeadingSpaces(a) < |a|
    requires var t := a[LeadingSpaces(a)..];
             var rest := t[WordLength(t)..];
             Split(rest + [c] + b) == Split(rest) + Split(b)
    ensures Split(a + [c] + b) == Split(a) + Split(b)
  {
    var t := a[LeadingSpaces(a)..];
    var n := WordLength(t);
    FirstWordShared(a, c, b);
    ConsAssoc(t[..n], Split(t[n..]), Split(b));
  }

  /** `a` and `a c b` start with the same word, and what follows it in
      `a c b` is what follows it in `a`, then `c b`. */
  lemma {:induction false} FirstWordShared(a: string, c: char, b: string)
    requires IsSpace(c) && LeadingSpaces(a) < |a|
    ensures var t := a[LeadingSpaces(a)..];
            var s := a + [c] + b;
            var u := s[LeadingSpaces(s)..];
            && u != []
            && u[..WordLength(u)] == t[..WordLength(t)]
            && u[WordLength(u)..] == t[WordLength(t)..] + [c] + b
  {
    var s := a + [c] + b;
    var i := LeadingSpaces(a);
    LeadingBeforeWord(a, [c] + b);
    assert s == a + ([c] + b);
    var t := a[i..];
    DropConcat(a, [c] + b, i);
    assert t + ([c] + b) == t + [c] + b;
    var n := WordLength(t);
    WordLengthBeforeSpace(t, c, b);
    assert (t + [c] + b)[..n] == t[..n];
    assert (t + [c] + b)[n..] == t[n..] + [c] + b;
  }

  lemma {:induction false} DropConcat(a: string, x: string, i: nat)
    requires i <= |a|
    ensures (a + x)[i..] == a[i..] + x
  {
  }

  lemma {:induction false} ConsAssoc(x: string, ys: seq<string>, zs: seq<string>)
    ensures [x] + (ys + zs) == ([x] + ys) + zs
  {
  }

  lemma {:induction false} ConcatAssoc<T>(a: seq<T>, b: seq<T>, c: seq<T>, d: seq<T>)
    ensures a + b + c + d == a + (b + c + d)
  {
    assert a + b + c == a + (b + c);
    assert a + (b + c) + d == a + (b + c + d);
  }

  lemma {:induction false} PairAssoc<T>(a: seq<T>, x: T, y: T, b: seq<T>)
    ensures a + [x] + ([y] + b) == a + [x, y] + b
  {
    assert [x] + [y] == [x, y];
  }

  lemma {:induction false} TripleAssoc<T>(x: T, y: T, z: T, b: seq<T>)
    ensures [x] + ([y] + ([z] + b)) == [x, y, z] + b
  {
    assert [x] + ([y] + [z]) == [x, y, z];
  }

  lemma {:induction false} SplitWord(w: string)
    requires IsWord(w)
    ensures Split(w) == [w]
  {
    WordLengthOfWord(w);
    assert w[0..] == w;
    assert w[..|w|] == w;
    assert Split(w[|w|..]) == [];
  }

  lemma {:induction false} WordLengthOfWord(w: string)
    requires forall k :: 0 <= k < |w| ==> !IsSpace(w[k])
    ensures WordLength(w) == |w|
  {
    if w != [] {
      WordLengthOfWord(w[1..]);
    }
  }

  /** Round trip: splitting words joined by single spaces gives the words back. */
  lemma {:induction false} SplitJoin(ws: seq<string>)
    requires AllWords(ws)
    ensures Split(Join(ws, " ")) == ws
    decreases |ws|
  {
    if ws == [] {
      assert Join(ws, " ") == [];
    } else if |ws| == 1 {
      assert Join(ws, " ") == ws[0];
      SplitWord(ws[0]);
      assert ws == [ws[0]];
    } else {
      AllWordsTail(ws);
      SplitJoin(ws[1..]);
      SplitJoinStep(ws);
    }
  }

  /** Dropping the first word keeps a list of words. */
  lemma {:induction false} AllWordsTail(ws: seq<string>)
    requires AllWords(ws) && ws != []
    ensures AllWords(ws[1..])
  {
    var tail := ws[1..];
    forall i | 0 <= i < |tail| ensures IsWord(tail[i]) {
      assert tail[i] == ws[i + 1];
    }
  }

  /** One step of the round trip: the first word followed by the rest. */
  lemma {:induction false} SplitJoinStep(ws: seq<string>)
    requires |ws| >= 2 && IsWord(ws[0])
    requires Split(Join(ws[1..], " ")) == ws[1..]
    ensures Split(Join(ws, " ")) == ws
  {
    assert Join(ws, " ") == ws[0] + " " + Join(ws[1..], " ");
    SplitJoinCons(ws[0], Join(ws[1..], " "));
    assert ws == [ws[0]] + ws[1..];
  }

  /** A word, a blank and the rest split into the word and the rest's words. */
  lemma {:induction false} SplitJoinCons(w: string, rest: string)
    requires IsWord(w)
    ensures Split(w + " " + rest) == [w] + Split(rest)
  {
    SplitWord(w);
    SplitAppend(w, ' ', rest);
    assert w + " " + rest == w + [' '] + rest;
  }

  /** The strings of `ws` other than the empty one, in order. */
  function NonBlank(ws: seq<string>): (r: seq<string>)
    ensures forall w :: w in r <==> w in ws && w != []
  {
    if ws == [] then []
    else if ws[0] == [] then NonBlank(ws[1..])
    else [ws[0]] + NonBlank(ws[1..])
  }

  /** Every string of the list is a word or empty. */
  predicate WordsOrBlanks(ws: seq<string>) {
    forall i :: 0 <= i < |ws| ==> ws[i] == [] || IsWord(ws[i])
  }

  /** Joining words and empty strings with single blanks and splitting the
      line again gives the words back, the empty strings gone. */
  lemma {:induction false} SplitJoinBlank(ws: seq<string>)
    requires WordsOrBlanks(ws)
    ensures Split(Join(ws, " ")) == NonBlank(ws)
    decreases |ws|
  {
    if ws == [] {
      assert Join(ws, " ") == [];
    } else if |ws| == 1 {
      assert Join(ws, " ") == ws[0];
      assert NonBlank(ws) == (if ws[0] == [] then [] else [ws[0]]) + NonBlank([]);
      if ws[0] == [] {
        assert Split([]) == [];
      } else {
        SplitWord(ws[0]);
      }
    } else {
      var rest := Join(ws[1..], " ");
      assert WordsOrBlanks(ws[1..]) by {
        forall i | 0 <= i < |ws[1..]| ensures ws[1..][i] == [] || IsWord(ws[1..][i]) {
          assert ws[1..][i] == ws[i + 1];
        }
      }
      SplitJoinBlank(ws[1..]);
      assert Join(ws, " ") == ws[0] + " " + rest;
      if ws[0] == [] {
        assert ws[0] + " " + rest == [] + [' '] + rest;
        SplitAppend([], ' ', rest);
        assert Split([]) == [];
      } else {
        SplitJoinCons(ws[0], rest);
      }
    }
  }

  /** A word set off by single blanks splits out as itself. */
  lemma {:induction false} SplitAround(a: string, w: string, b: string)
    requires IsWord(w)
    ensures Split(a + " " + w + " " + b) == Split(a) + [w] + Split(b)
  {
    var tail := w + " " + b;
    assert a + " " + w + " " + b == a + [' '] + tail;
    SplitAppend(a, ' ', tail);
    SplitJoinCons(w, b);
  }

  /** A string holding a non-whitespace character yields at least one word. */
  lemma {:induction false} SplitNonEmpty(s: string, k: nat)
    requires k < |s| && !IsSpace(s[k])
    ensures |Split(s)| >= 1
  {
    LeadingSpacesAreSpaces(s);
  }

  lemma {:induction false} FieldsAfterWord(w: string, c: char, rest: string)
    requires forall k :: 0 <= k < |w| ==> !IsSpace(w[k])
    requires IsSpace(c)
    ensures Fields(w + [c] + rest) == [w] + Fields(rest)
  {
    WordLengthOfWord(w);
    WordLengthBeforeSpace(w, c, rest);
    assert (w + [c] + rest)[..|w|] == w;
    assert (w + [c] + rest)[|w| + 1..] == rest;
  }

  lemma {:induction false} LengthBeforeFree(a: string, c: char, b: string)
    requires c !in a
    ensures LengthBefore(a + [c] + b, c) == |a|
  {
    if a != [] {
      assert (a + [c] + b)[1..] == a[1..] + [c] + b;
      LengthBeforeFree(a[1..], c, b);
    }
  }

  lemma {:induction false} LengthBeforeAll(a: string, c: char)
    requires c !in a
    ensures LengthBefore(a, c) == |a|
  {
    if a != [] {
      LengthBeforeAll(a[1..], c);
    }
  }

  /** Round trip: splitting lines joined by `c` at `c` gives the lines back. */
  lemma {:induction false} SplitOnJoin(ls: seq<string>, c: char)
    requires |ls| >= 1
    requires forall i :: 0 <= i < |ls| ==> c !in ls[i]
    ensures SplitOn(Join(ls, [c]), c) == ls
    decreases |ls|
  {
    if |ls| == 1 {
      LengthBeforeAll(ls[0], c);
    } else {
      SplitOnJoin(ls[1..], c);
      var rest := Join(ls[1..], [c]);
      assert Join(ls, [c]) == ls[0] + [c] + rest;
      SplitOnCons(ls[0], c, rest);
      assert ls == [ls[0]] + ls[1..];
    }
  }

  /** A line free of `c`, then `c`, splits off as the first piece. */
  lemma {:induction false} SplitOnCons(a: string, c: char, rest: string)
    requires c !in a
    ensures SplitOn(a + [c] + rest, c) == [a] + SplitOn(rest, c)
  {
    LengthBeforeFree(a, c, rest);
    assert (a + [c] + rest)[..|a|] == a;
    assert (a + [c] + rest)[|a| + 1..] == rest;
  }

  /** Python's `xs.index(x)`. */
  function IndexOf<T(==)>(xs: seq<T>, x: T): (i: nat)
    requires x in xs
    ensures i < |xs| && xs[i] == x && x !in xs[..i]
  {
    if xs[0] == x then 0
    else
      assert x in xs[1..];
      1 + IndexOf(xs[1..], x)
  }

  /** Python's `xs.remove(x)`: drop the first occurrence. */
  function RemoveFirst<T(==)>(xs: seq<T>, x: T): (r: seq<T>)
    requires x in xs
    ensures multiset(r) == multiset(xs) - multiset{x}
  {
    if xs[0] == x then
      assert xs == [xs[0]] + xs[1..];
      xs[1..]
    else
      assert x in xs[1..];
      var r := [xs[0]] + RemoveFirst(xs[1..], x);
      assert xs == [xs[0]] + xs[1..];
      r
  }

  /** Keeps the first occurrence of every element, dropping those in `seen`. */
  function Dedup(xs: seq<string>, seen: set<string>): (r: seq<string>)
    ensures forall x :: x in r <==> x in xs && x !in seen
    ensures Distinct(r)
    ensures |r| <= |xs|
  {
    if xs == [] then []
    else if xs[0] in seen then Dedup(xs[1..], seen)
    else [xs[0]] + Dedup(xs[1..], seen + {xs[0]})
  }

  predicate Distinct<T(==)>(xs: seq<T>) {
    forall i, j :: 0 <= i < j < |xs| ==> xs[i] != xs[j]
  }

  /** First-occurrence de-duplication: the same elements, each once. */
  function NoDuplicates(xs: seq<string>): (r: seq<string>)
    ensures forall x :: x in r <==> x in xs
    ensures Distinct(r)
    ensures |r| <= |xs|
  {
    Dedup(xs, {})
  }

  lemma {:induction false} DedupDistinct(xs: seq<string>, seen: set<string>)
    requires Distinct(xs)
    requires forall x :: x in xs ==> x !in seen
    ensures Dedup(xs, seen) == xs
    decreases |xs|
  {
    if xs != [] {
      DistinctTail(xs);
      DedupDistinct(xs[1..], seen + {xs[0]});
      assert xs == [xs[0]] + xs[1..];
    }
  }

  /** The rest of a list without repetitions has none and lacks the head. */
  lemma {:induction false} DistinctTail(xs: seq<string>)
    requires Distinct(xs) && xs != []
    ensures Distinct(xs[1..]) && xs[0] !in xs[1..]
  {
    forall x | x in xs[1..] ensures x != xs[0] {
      var j :| 0 <= j < |xs[1..]| && xs[1..][j] == x;
      assert xs[j + 1] == x;
    }
  }

  /** De-duplicating twice is the same as de-duplicating once. */
  lemma {:induction false} NoDuplicatesIdempotent(xs: seq<string>)
    ensures NoDuplicates(NoDuplicates(xs)) == NoDuplicates(xs)
  {
    DedupDistinct(NoDuplicates(xs), {});
  }

  /** os.path.basename: the part after the last '/'. */
  function Basename(p: string): (b: string)
    ensures EndsWith(p, b) && '/' !in b
    ensures |b| < |p| ==> p[|p| - |b| - 1] == '/'
  {
    if p == [] then []
    else if p[|p| - 1] == '/' then []
    else
      var b := Basename(p[..|p| - 1]) + [p[|p| - 1]];
      assert p[|p| - |b|..] == p[..|p| - 1][|p| - 1 - (|b| - 1)..] + [p[|p| - 1]];
      b
  }

  /** os.path.join(a, b) for two POSIX paths. */
  function PathJoin(a: string, b: string): (r: string)
    ensures EndsWith(r, b)
    ensures StartsWith(b, "/") ==> r == b
  {
    if StartsWith(b, "/") then b
    else if a == [] || EndsWith(a, "/") then a + b
    else a + "/" + b
  }
}
