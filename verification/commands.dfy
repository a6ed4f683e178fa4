/** Recorded commands, the toolchain the rewrite rules target, and the token
    passes several rules share. */
module Commands {
  import opened Strings

  /** A recorded shell command line and the directory it runs in. */
  datatype Command = Command(bashcmd: string, curdir: string)

  /** The build constants the rules use: the compiler, linker and archiver
      programs, the optimizer flags to strip, and the marker added to
      executable outputs. */
  datatype Toolchain = Toolchain(
    clang: string,
    llvmLink: string,
    llvmAr: string,
    optimizerFlags: set<string>,
    execFileExtension: string)

  /** The ways a rewrite can fail: an exception the rule raises, or the
      termination of the run when a link script cannot be handled. */
  datatype Error =
    | IndexError                 // a list index past the end
    | ValueError                 // list.remove of an absent element
    | LinkScriptUnreadable       // open() of the link script failed
    | NoTransformerForLinkScript // exit(-1): no rule handles the script's command

  datatype Result<T> = Ok(value: T) | Err(error: Error)

  /** `bashcmd.split()[1:]`: the words after the program name. */
  function Args(s: string): (args: seq<string>)
    ensures AllWords(args)
  {
    var ws := Split(s);
    SplitWords(s);
    if ws == [] then [] else ws[1..]
  }

  /** `t[:-2] + ".bc" if t.endswith(".o") else t`. */
  function RenameObject(t: string): string
  {
    if EndsWith(t, ".o") then t[..|t| - 2] + ".bc" else t
  }

  /** A renamed token never names an object file any more, keeps its stem, and
      renaming twice changes nothing further. */
  lemma {:induction false} RenameObjectSpec(t: string)
    ensures !EndsWith(RenameObject(t), ".o")
    ensures EndsWith(t, ".o") ==>
              EndsWith(RenameObject(t), ".bc") && RenameObject(t)[..|RenameObject(t)| - 3] == t[..|t| - 2]
    ensures !EndsWith(t, ".o") ==> RenameObject(t) == t
    ensures RenameObject(RenameObject(t)) == RenameObject(t)
  {
    var r := RenameObject(t);
    if EndsWith(t, ".o") {
      assert r[|r| - 1] == 'c';
    }
  }

  /** A renamed word is still a word. */
  lemma {:induction false} RenameObjectWord(t: string)
    requires IsWord(t)
    ensures IsWord(RenameObject(t))
  {
    if EndsWith(t, ".o") {
      var r := RenameObject(t);
      forall k | 0 <= k < |r| ensures !IsSpace(r[k]) {
        if k < |t| - 2 {
          assert r[k] == t[k];
        }
      }
    }
  }

  /** `[RenameObject(t) for t in ts]`. */
  function RenameObjects(ts: seq<string>): (r: seq<string>)
    ensures |r| == |ts|
    ensures forall i :: 0 <= i < |ts| ==> r[i] == RenameObject(ts[i])
  {
    if ts == [] then [] else [RenameObject(ts[0])] + RenameObjects(ts[1..])
  }

  /** After the rename no token ends in ".o", and tokens that did not are kept. */
  lemma {:induction false} RenameObjectsSpec(ts: seq<string>)
    ensures forall t :: t in RenameObjects(ts) ==> !EndsWith(t, ".o")
    ensures forall i :: 0 <= i < |ts| && !EndsWith(ts[i], ".o") ==> RenameObjects(ts)[i] == ts[i]
    ensures AllWords(ts) ==> AllWords(RenameObjects(ts))
  {
    var r := RenameObjects(ts);
    forall t | t in r ensures !EndsWith(t, ".o") {
      var i :| 0 <= i < |r| && r[i] == t;
      RenameObjectSpec(ts[i]);
    }
    forall i | 0 <= i < |ts| && !EndsWith(ts[i], ".o") ensures r[i] == ts[i] {
      RenameObjectSpec(ts[i]);
    }
    if AllWords(ts) {
      forall i | 0 <= i < |r| ensures IsWord(r[i]) {
        RenameObjectWord(ts[i]);
      }
    }
  }

  /** `[t for t in ts if t not in flags]`. */
  function WithoutFlags(ts: seq<string>, flags: set<string>): (r: seq<string>)
    ensures |r| <= |ts|
    ensures forall t :: t in r <==> t in ts && t !in flags
  {
    if ts == [] then []
    else if ts[0] in flags then WithoutFlags(ts[1..], flags)
    else [ts[0]] + WithoutFlags(ts[1..], flags)
  }

  /** The filter keeps every other token as often as it occurs. */
  lemma {:induction false} WithoutFlagsCounts(ts: seq<string>, flags: set<string>)
    ensures forall t :: multiset(WithoutFlags(ts, flags))[t] == if t in flags then 0 else multiset(ts)[t]
  {
    if ts != [] {
      WithoutFlagsCounts(ts[1..], flags);
      assert ts == [ts[0]] + ts[1..];
    }
  }

  /** The filter works token by token, so it keeps the order of the tokens. */
  lemma {:induction false} WithoutFlagsAppend(a: seq<string>, b: seq<string>, flags: set<string>)
    ensures WithoutFlags(a + b, flags) == WithoutFlags(a, flags) + WithoutFlags(b, flags)
    decreases |a|
  {
    if a == [] {
      assert a + b == b;
    } else {
      var x, ra, rb := a[0], WithoutFlags(a[1..], flags), WithoutFlags(b, flags);
      assert (a + b)[0] == x && (a + b)[1..] == a[1..] + b;
      WithoutFlagsAppend(a[1..], b, flags);
      if x !in flags {
        assert [x] + ra + rb == [x] + (ra + rb);
      }
    }
  }

  /** Filtering keeps words words. */
  lemma {:induction false} WithoutFlagsWords(ts: seq<string>, flags: set<string>)
    requires AllWords(ts)
    ensures AllWords(WithoutFlags(ts, flags))
  {
    var r := WithoutFlags(ts, flags);
    forall i | 0 <= i < |r| ensures IsWord(r[i]) {
      assert r[i] in ts;
    }
  }

  /** The line `prefix + " " + " ".join(ts)` splits back into the prefix's
      words followed by exactly the tokens. */
  lemma {:induction false} RenderTokens(prefix: string, ts: seq<string>)
    requires AllWords(ts)
    ensures Split(prefix + " " + Join(ts, " ")) == Split(prefix) + ts
  {
    SplitAppend(prefix, ' ', Join(ts, " "));
    assert prefix + " " + Join(ts, " ") == prefix + [' '] + Join(ts, " ");
    SplitJoin(ts);
  }
}
