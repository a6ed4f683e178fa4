/** The MPI link rule: `/usr/bin/mpicc ... -o prog a.o -lx liby.a` becomes an
    llvm-link of the bitcode inputs, or an `llvm-ar qc` when the command builds
    a shared object. Library references are replaced by the bitcode archives
    the registry recorded, and inputs already contained in another input's
    recorded dependencies are dropped. */
module MpiccLink {
  import opened Strings
  import opened Commands

  predicate CanApply(cmd: Command) {
    && StartsWith(cmd.bashcmd, "/usr/bin/mpicc")
    && !Contains(cmd.bashcmd, " -c ")
    && !Contains(cmd.bashcmd, "-o /dev/null")
    && !Contains(cmd.bashcmd, ".c ")
    && !EndsWith(cmd.bashcmd, ".c")
  }

  // ---------------------------------------------------------------- the passes

  /** The token list and the link target, once the output is marked. */
  datatype Marked = Marked(tokens: seq<string>, target: Option<string>)

  /** The output's new name: the executable marker unless it names a shared
      object, then ".bc". */
  function OutputName(tc: Toolchain, out: string): string
  {
    (if Contains(out, ".so") then out else out + tc.execFileExtension) + ".bc"
  }

  /** Renames the argument of the first "-o" and makes it the target. */
  function MarkOutput(tc: Toolchain, ts: seq<string>): Result<Marked>
  {
    if "-o" !in ts then Ok(Marked(ts, None))
    else
      var pos := IndexOf(ts, "-o");
      if pos + 1 >= |ts| then Err(IndexError)
      else
        var out := OutputName(tc, ts[pos + 1]);
        Ok(Marked(ts[pos + 1 := out], Some(out)))
  }

  /** `-l<n>` becomes the registered bitcode archive of `lib<n>`, if any. */
  function LibFlag(libs: map<string, string>, t: string): string
  {
    if StartsWith(t, "-l") && "lib" + t[2..] in libs then libs["lib" + t[2..]] else t
  }

  /** `<p>.a` becomes the registered bitcode archive of `basename(p)`, if any. */
  function ArchiveRef(libs: map<string, string>, t: string): string
  {
    if EndsWith(t, ".a") && Basename(t[..|t| - 2]) in libs then libs[Basename(t[..|t| - 2])] else t
  }

  function SubstituteLibFlags(libs: map<string, string>, ts: seq<string>): seq<string>
  {
    seq(|ts|, i requires 0 <= i < |ts| => LibFlag(libs, ts[i]))
  }

  function SubstituteArchives(libs: map<string, string>, ts: seq<string>): seq<string>
  {
    seq(|ts|, i requires 0 <= i < |ts| => ArchiveRef(libs, ts[i]))
  }

  /** A command-line option, possibly quoted. */
  predicate IsOption(t: string) {
    StartsWith(t, "-") || StartsWith(t, "'-") || StartsWith(t, "\"-")
  }

  /** Drops every option except "-o", keeping the order of the rest. */
  function DropOptions(ts: seq<string>): (r: seq<string>)
    ensures forall t :: t in r <==> t in ts && (!IsOption(t) || t == "-o")
  {
    if ts == [] then []
    else if IsOption(ts[0]) && ts[0] != "-o" then DropOptions(ts[1..])
    else [ts[0]] + DropOptions(ts[1..])
  }

  /** Dropping options keeps every other token as often as it occurs. */
  lemma {:induction false} DropOptionsCounts(ts: seq<string>)
    ensures forall t :: multiset(DropOptions(ts))[t] == if IsOption(t) && t != "-o" then 0 else multiset(ts)[t]
  {
    if ts != [] {
      DropOptionsCounts(ts[1..]);
      assert ts == [ts[0]] + ts[1..];
    }
  }

  /** Dropping options works token by token, so it keeps the order of the tokens. */
  lemma {:induction false} DropOptionsAppend(a: seq<string>, b: seq<string>)
    ensures DropOptions(a + b) == DropOptions(a) + DropOptions(b)
    decreases |a|
  {
    if a == [] {
      assert a + b == b;
    } else {
      DropOptionsAppend(a[1..], b);
      assert (a + b)[1..] == a[1..] + b;
    }
  }

  /** The token passes before pruning, in the rule's order. */
  function Passes(tc: Toolchain, libs: map<string, string>, args: seq<string>): Result<Marked>
  {
    match MarkOutput(tc, WithoutFlags(args, tc.optimizerFlags))
    case Err(e) => Err(e)
    case Ok(m) =>
      Ok(Marked(DropOptions(RenameObjects(SubstituteArchives(libs, SubstituteLibFlags(libs, m.tokens)))), m.target))
  }

  // ---------------------------------------------------------------- pruning

  /** filecmp.cmp's outcome: same contents, different contents, or an exception. */
  datatype Comparison = Same | Differ | CompareFailed

  /** What pruning consults: the recorded dependencies (artifact basename to
      bitcode inputs), the file comparison, and the command's directory. */
  datatype PruneEnv = PruneEnv(
    table: map<string, seq<string>>,
    cmp: (string, string) -> Comparison,
    curdir: string)

  /** The recorded dependencies of a bitcode input: by basename, else by the
      basename without ".bc". */
  function LookupDeps(table: map<string, seq<string>>, token: string): Option<seq<string>>
    requires EndsWith(token, ".bc")
  {
    if Basename(token) in table then Some(table[Basename(token)])
    else if Basename(token[..|token| - 3]) in table then Some(table[Basename(token[..|token| - 3])])
    else None
  }

  /** A recorded dependency `d` stands for `dep`: the same name, or files the
      comparison finds identical. */
  predicate Covers(env: PruneEnv, dep: string, d: string) {
    d == dep || env.cmp(env.curdir + "/" + dep, env.curdir + "/" + d) == Same
  }

  /** Scanning one dependency list: the first entry that stands for `dep`
      removes one occurrence of it (a removal of an absent `dep` raises inside
      the `try` and is swallowed). */
  function InnerScan(env: PruneEnv, acc: seq<string>, dep: string, ds: seq<string>): seq<string>
  {
    if dep in acc && exists d :: d in ds && Covers(env, dep, d) then RemoveFirst(acc, dep) else acc
  }

  /** One step of the middle loop: `token` is another bitcode input with
      recorded dependencies, or it is skipped. */
  function MiddleStep(env: PruneEnv, acc: seq<string>, dep: string, token: string): seq<string>
  {
    if dep == token || !EndsWith(token, ".bc") then acc
    else match LookupDeps(env.table, token)
      case None => acc
      case Some(ds) => InnerScan(env, acc, dep, ds)
  }

  /** The middle loop over `others`, for input `dep`. */
  function MiddleFold(env: PruneEnv, acc: seq<string>, dep: string, others: seq<string>): seq<string>
    decreases |others|
  {
    if others == [] then acc
    else MiddleStep(env, MiddleFold(env, acc, dep, others[..|others| - 1]), dep, others[|others| - 1])
  }

  /** The new token list after the outer loop has seen the first `n` tokens. */
  function Pruned(env: PruneEnv, ts: seq<string>, n: nat): seq<string>
    requires n <= |ts|
  {
    if n == 0 then []
    else
      var dep := ts[n - 1];
      var acc := Pruned(env, ts, n - 1) + [dep];
      if EndsWith(dep, ".bc") then MiddleFold(env, acc, dep, ts) else acc
  }

  /** `token` is another bitcode input whose recorded dependencies have an
      entry standing for `dep`. */
  predicate Lists(env: PruneEnv, token: string, dep: string) {
    && dep != token && EndsWith(token, ".bc") && LookupDeps(env.table, token).Some?
    && exists d :: d in LookupDeps(env.table, token).value && Covers(env, dep, d)
  }

  /** Some input lists `dep`. */
  predicate Covered(env: PruneEnv, ts: seq<string>, dep: string) {
    exists j :: 0 <= j < |ts| && Lists(env, ts[j], dep)
  }

  /** The outer pruning loop: every token is appended, and a bitcode token
      is then checked against the other inputs. */
  method Prune(env: PruneEnv, ts: seq<string>) returns (kept: seq<string>)
    ensures kept == Pruned(env, ts, |ts|)
  {
    kept := [];
    var i := 0;
    while i < |ts|
      invariant i <= |ts| && kept == Pruned(env, ts, i)
    {
      var dep := ts[i];
      kept := kept + [dep];
      if EndsWith(dep, ".bc") {
        kept := CheckAgainstOthers(env, kept, dep, ts);
      }
      i := i + 1;
    }
  }

  /** The middle loop: `dep` against each other bitcode input that has
      recorded dependencies. */
  method CheckAgainstOthers(env: PruneEnv, acc: seq<string>, dep: string, ts: seq<string>)
    returns (kept: seq<string>)
    ensures kept == MiddleFold(env, acc, dep, ts)
  {
    kept := acc;
    var j := 0;
    while j < |ts|
      invariant j <= |ts| && kept == MiddleFold(env, acc, dep, ts[..j])
    {
      var token := ts[j];
      assert ts[..j + 1][..j] == ts[..j];
      if dep != token && EndsWith(token, ".bc") {
        var found := LookupDeps(env.table, token);
        if found.Some? {
          kept := ScanDeps(env, kept, dep, found.value);
        }
      }
      j := j + 1;
    }
    assert ts[..|ts|] == ts;
  }

  /** The inner loop: the first entry of `ds` that stands for `dep` removes it
      and ends the scan. */
  method ScanDeps(env: PruneEnv, acc: seq<string>, dep: string, ds: seq<string>) returns (kept: seq<string>)
    ensures kept == InnerScan(env, acc, dep, ds)
  {
    kept := acc;
    var k := 0;
    var removed := false;
    while k < |ds| && !removed
      invariant k <= |ds|
      invariant !removed ==> kept == acc && forall m :: 0 <= m < k ==> !(dep in acc && Covers(env, dep, ds[m]))
      invariant removed ==> dep in acc && kept == RemoveFirst(acc, dep) && exists d :: d in ds && Covers(env, dep, d)
    {
      assert ds[k] in ds;
      if dep == ds[k] && dep in kept {
        assert Covers(env, dep, ds[k]);
        kept := RemoveFirst(kept, dep);
        removed := true;
      } else {
        var same := env.cmp(env.curdir + "/" + dep, env.curdir + "/" + ds[k]);
        if same == Same && dep in kept {
          assert Covers(env, dep, ds[k]);
          kept := RemoveFirst(kept, dep);
          removed := true;
        }
      }
      k := k + 1;
    }
    if !removed && dep in acc {
      forall d | d in ds ensures !Covers(env, dep, d) {
        var m :| 0 <= m < |ds| && ds[m] == d;
      }
    }
  }

  // ---------------------------------------------------------------- final shape

  /** Builds a shared object (the original line mentions "shared" or "-rdynamic"). */
  predicate BuildsArchive(s: string) {
    Contains(s, "shared") || Contains(s, "-rdynamic")
  }

  /** The tokens with the first "-o" replaced by the empty string. */
  function Blanked(kept: seq<string>): seq<string>
  {
    if "-o" in kept then kept[IndexOf(kept, "-o") := ""] else kept
  }

  /** The final line: `llvm-ar qc [target] ...` with the first "-o" blanked for
      a shared object, `llvm-link ...` otherwise, the tokens de-duplicated.
      A target that pruning took out makes list.remove raise ValueError. */
  function Assemble(tc: Toolchain, s: string, kept: seq<string>, target: Option<string>): Result<string>
  {
    if BuildsArchive(s) then
      var blanked := Blanked(kept);
      match target
      case None => Ok(tc.llvmAr + " qc " + Join(NoDuplicates(blanked), " "))
      case Some(t) =>
        if t !in blanked then Err(ValueError)
        else Ok(tc.llvmAr + " qc " + t + " " + Join(NoDuplicates(RemoveFirst(blanked, t)), " "))
    else Ok(tc.llvmLink + " " + Join(NoDuplicates(kept), " "))
  }

  function Rewrite(tc: Toolchain, libs: map<string, string>, table: map<string, seq<string>>,
                   cmp: (string, string) -> Comparison, cmd: Command): Result<Command>
  {
    match Passes(tc, libs, Args(cmd.bashcmd))
    case Err(e) => Err(e)
    case Ok(m) =>
      var kept := Pruned(PruneEnv(table, cmp, cmd.curdir), m.tokens, |m.tokens|);
      match Assemble(tc, cmd.bashcmd, kept, m.target)
      case Err(e) => Err(e)
      case Ok(line) => Ok(Command(line, cmd.curdir))
  }

  /** The rule's rewrite, step by step. */
  method Apply(tc: Toolchain, libs: map<string, string>, table: map<string, seq<string>>,
               cmp: (string, string) -> Comparison, cmd: Command) returns (r: Result<Command>)
    ensures r == Rewrite(tc, libs, table, cmp, cmd)
  {
    var tokens := Args(cmd.bashcmd);
    var target: Option<string> := None;
    tokens := WithoutFlags(tokens, tc.optimizerFlags);
    ghost var filtered := tokens;
    if "-o" in tokens {
      var pos := IndexOf(tokens, "-o");
      if pos + 1 >= |tokens| {
        return Err(IndexError);
      }
      var out := tokens[pos + 1];
      if !Contains(out, ".so") {
        out := out + tc.execFileExtension;
      }
      out := out + ".bc";
      tokens := tokens[pos + 1 := out];
      target := Some(out);
    }
    assert MarkOutput(tc, filtered) == Ok(Marked(tokens, target));
    tokens := SubstituteLibFlags(libs, tokens);
    tokens := SubstituteArchives(libs, tokens);
    tokens := RenameObjects(tokens);
    tokens := DropOptions(tokens);
    var kept := Prune(PruneEnv(table, cmp, cmd.curdir), tokens);
    var line: string;
    if Contains(cmd.bashcmd, "shared") || Contains(cmd.bashcmd, "-rdynamic") {
      if "-o" in kept {
        var pos := IndexOf(kept, "-o");
        kept := kept[pos := ""];
      }
      if target.None? {
        line := tc.llvmAr + " qc " + Join(NoDuplicates(kept), " ");
      } else {
        if target.value !in kept {
          return Err(ValueError);
        }
        kept := RemoveFirst(kept, target.value);
        line := tc.llvmAr + " qc " + target.value + " " + Join(NoDuplicates(kept), " ");
      }
    } else {
      line := tc.llvmLink + " " + Join(NoDuplicates(kept), " ");
    }
    r := Ok(Command(line, cmd.curdir));
  }

  // ---------------------------------------------------------------- properties

  /** One middle step removes one `dep` exactly when `dep` is still there and
      `token` lists it; otherwise it changes nothing. */
  lemma {:induction false} MiddleStepSpec(env: PruneEnv, acc: seq<string>, dep: string, token: string)
    ensures MiddleStep(env, acc, dep, token)
         == if dep in acc && Lists(env, token, dep) then RemoveFirst(acc, dep) else acc
  {
  }

  /** The middle loop only ever removes occurrences of `dep`. */
  lemma {:induction false} MiddleFoldOnlyDep(env: PruneEnv, acc: seq<string>, dep: string, others: seq<string>)
    ensures multiset(MiddleFold(env, acc, dep, others)) <= multiset(acc)
    ensures forall t :: t != dep ==> multiset(MiddleFold(env, acc, dep, others))[t] == multiset(acc)[t]
    decreases |others|
  {
    if others != [] {
      var prev := MiddleFold(env, acc, dep, others[..|others| - 1]);
      var token := others[|others| - 1];
      MiddleFoldOnlyDep(env, acc, dep, others[..|others| - 1]);
      MiddleStepSpec(env, prev, dep, token);
      assert MiddleFold(env, acc, dep, others) == MiddleStep(env, prev, dep, token);
      if dep in prev && Lists(env, token, dep) {
        assert multiset(RemoveFirst(prev, dep)) == multiset(prev) - multiset{dep};
      }
    }
  }

  /** When no other input lists `dep`, the middle loop changes nothing. */
  lemma {:induction false} MiddleFoldUnlisted(env: PruneEnv, acc: seq<string>, dep: string, others: seq<string>)
    requires forall j :: 0 <= j < |others| ==> !Lists(env, others[j], dep)
    ensures MiddleFold(env, acc, dep, others) == acc
    decreases |others|
  {
    if others != [] {
      var init := others[..|others| - 1];
      MiddleFoldUnlisted(env, acc, dep, init);
      MiddleStepSpec(env, acc, dep, others[|others| - 1]);
    }
  }

  /** When some other input lists `dep` and `acc` holds it at most once, the
      middle loop leaves no `dep` behind. */
  lemma {:induction false} MiddleFoldListed(env: PruneEnv, acc: seq<string>, dep: string, others: seq<string>, j: nat)
    requires j < |others| && Lists(env, others[j], dep)
    requires multiset(acc)[dep] <= 1
    ensures dep !in MiddleFold(env, acc, dep, others)
    decreases |others|
  {
    var init := others[..|others| - 1];
    var prev := MiddleFold(env, acc, dep, init);
    MiddleStepSpec(env, prev, dep, others[|others| - 1]);
    if j == |others| - 1 {
      MiddleFoldOnlyDep(env, acc, dep, init);
      if dep in prev {
        assert multiset(prev)[dep] == 1;
      }
    } else {
      assert init[j] == others[j];
      MiddleFoldListed(env, acc, dep, init, j);
    }
  }

  /** Pruning never adds a token, and keeps every token that is not bitcode
      as often as it occurs. */
  lemma {:induction false} PrunedSubset(env: PruneEnv, ts: seq<string>, n: nat)
    requires n <= |ts|
    ensures multiset(Pruned(env, ts, n)) <= multiset(ts[..n])
    ensures forall t :: !EndsWith(t, ".bc") ==> multiset(Pruned(env, ts, n))[t] == multiset(ts[..n])[t]
  {
    PrunedBounded(env, ts, n);
    PrunedKeepsPlain(env, ts, n);
  }

  lemma {:induction false} PrunedBounded(env: PruneEnv, ts: seq<string>, n: nat)
    requires n <= |ts|
    ensures forall t :: multiset(Pruned(env, ts, n))[t] <= multiset(ts[..n])[t]
  {
    if n > 0 {
      PrunedBounded(env, ts, n - 1);
      PrunedStepCounts(env, ts, n);
      forall t ensures multiset(Pruned(env, ts, n))[t] <= multiset(ts[..n])[t] {
        PrefixCount(ts, t, n);
      }
    }
  }

  lemma {:induction false} PrunedKeepsPlain(env: PruneEnv, ts: seq<string>, n: nat)
    requires n <= |ts|
    ensures forall t :: !EndsWith(t, ".bc") ==> multiset(Pruned(env, ts, n))[t] == multiset(ts[..n])[t]
  {
    if n > 0 {
      PrunedKeepsPlain(env, ts, n - 1);
      PrunedStepCounts(env, ts, n);
      forall t | !EndsWith(t, ".bc") ensures multiset(Pruned(env, ts, n))[t] == multiset(ts[..n])[t] {
        PrefixCount(ts, t, n);
      }
    }
  }

  /** One step of the outer loop adds at most the token it appends, and adds
      it exactly when it is not bitcode; other counts stay. */
  lemma {:induction false} PrunedStepCounts(env: PruneEnv, ts: seq<string>, n: nat)
    requires 0 < n <= |ts|
    ensures forall t :: multiset(Pruned(env, ts, n))[t]
                          <= multiset(Pruned(env, ts, n - 1))[t] + (if t == ts[n - 1] then 1 else 0)
    ensures forall t :: t != ts[n - 1] ==> multiset(Pruned(env, ts, n))[t] == multiset(Pruned(env, ts, n - 1))[t]
    ensures !EndsWith(ts[n - 1], ".bc") ==>
              multiset(Pruned(env, ts, n))[ts[n - 1]] == multiset(Pruned(env, ts, n - 1))[ts[n - 1]] + 1
  {
    var dep := ts[n - 1];
    var acc := Pruned(env, ts, n - 1) + [dep];
    assert multiset(acc) == multiset(Pruned(env, ts, n - 1)) + multiset{dep};
    if EndsWith(dep, ".bc") {
      MiddleFoldOnlyDep(env, acc, dep, ts);
    }
  }

  /** A bitcode input that no other input lists is kept as often as it occurs. */
  lemma {:induction false} PrunedKeepsUnlisted(env: PruneEnv, ts: seq<string>, dep: string, n: nat)
    requires n <= |ts| && !Covered(env, ts, dep)
    ensures multiset(Pruned(env, ts, n))[dep] == multiset(ts[..n])[dep]
  {
    if n > 0 {
      PrunedKeepsUnlisted(env, ts, dep, n - 1);
      KeepStep(env, ts, dep, n);
      PrefixCount(ts, dep, n);
    }
  }

  /** The occurrences of `x` among the first `n` tokens. */
  lemma {:induction false} PrefixCount(ts: seq<string>, x: string, n: nat)
    requires 0 < n <= |ts|
    ensures multiset(ts[..n])[x] == multiset(ts[..n - 1])[x] + (if ts[n - 1] == x then 1 else 0)
  {
    assert ts[..n] == ts[..n - 1] + [ts[n - 1]];
  }

  /** One step of the outer loop adds one `dep` when it appends an unlisted
      `dep`, and otherwise leaves the count of `dep` alone. */
  lemma {:induction false} KeepStep(env: PruneEnv, ts: seq<string>, dep: string, n: nat)
    requires 0 < n <= |ts|
    requires ts[n - 1] == dep ==> !Covered(env, ts, dep)
    ensures multiset(Pruned(env, ts, n))[dep]
         == multiset(Pruned(env, ts, n - 1))[dep] + (if ts[n - 1] == dep then 1 else 0)
  {
    var d := ts[n - 1];
    var acc := Pruned(env, ts, n - 1) + [d];
    assert multiset(acc)[dep] == multiset(Pruned(env, ts, n - 1))[dep] + (if d == dep then 1 else 0);
    if EndsWith(d, ".bc") {
      if d == dep {
        MiddleFoldUnlisted(env, acc, dep, ts);
      } else {
        MiddleFoldOnlyDep(env, acc, d, ts);
      }
    }
  }

  /** Tokens after position `m` that differ from `dep` never bring it back. */
  lemma {:induction false} PrunedStaysOut(env: PruneEnv, ts: seq<string>, dep: string, m: nat, n: nat)
    requires m <= n <= |ts| && dep !in ts[m..n]
    ensures multiset(Pruned(env, ts, n))[dep] <= multiset(Pruned(env, ts, m))[dep]
    decreases n - m
  {
    if n > m {
      var d := ts[n - 1];
      assert d in ts[m..n];
      assert dep !in ts[m..n - 1] by {
        assert ts[m..n - 1] == ts[m..n][..n - 1 - m];
      }
      PrunedStaysOut(env, ts, dep, m, n - 1);
      PrunedStepCounts(env, ts, n);
      assert d != dep;
    }
  }

  /** A bitcode input that another bitcode input lists (by name, or by
      identical contents) is dropped, however often it occurs. */
  lemma {:induction false} PrunedDropsListed(env: PruneEnv, ts: seq<string>, dep: string, n: nat)
    requires n <= |ts| && EndsWith(dep, ".bc") && Covered(env, ts, dep)
    ensures dep !in Pruned(env, ts, n)
  {
    if n > 0 {
      PrunedDropsListed(env, ts, dep, n - 1);
      var d := ts[n - 1];
      var acc := Pruned(env, ts, n - 1) + [d];
      if d == dep {
        assert multiset(acc)[dep] == 1 by {
          assert multiset(acc) == multiset(Pruned(env, ts, n - 1)) + multiset{d};
        }
        var j :| 0 <= j < |ts| && Lists(env, ts[j], dep);
        MiddleFoldListed(env, acc, dep, ts, j);
      } else {
        assert dep !in acc;
        if EndsWith(d, ".bc") {
          MiddleFoldOnlyDep(env, acc, d, ts);
          assert multiset(MiddleFold(env, acc, d, ts))[dep] == 0;
        }
      }
    }
  }

  /** The output flag's argument gets the executable marker (unless it names
      a shared object) and ".bc", becomes the target, and nothing else
      changes; a trailing "-o" raises IndexError. */
  lemma {:induction false} MarkOutputSpec(tc: Toolchain, ts: seq<string>)
    ensures "-o" !in ts ==> MarkOutput(tc, ts) == Ok(Marked(ts, None))
    ensures "-o" in ts ==>
      var pos := IndexOf(ts, "-o");
      && (MarkOutput(tc, ts).Err? <==> pos + 1 == |ts|)
      && (pos + 1 < |ts| ==>
            var m := MarkOutput(tc, ts).value;
            var out := ts[pos + 1];
            && m.target == Some(m.tokens[pos + 1])
            && m.tokens[pos + 1]
               == out + (if Contains(out, ".so") then "" else tc.execFileExtension) + ".bc"
            && EndsWith(m.tokens[pos + 1], ".bc")
            && |m.tokens| == |ts|
            && (forall k :: 0 <= k < |ts| && k != pos + 1 ==> m.tokens[k] == ts[k]))
  {
    if "-o" in ts {
      var pos := IndexOf(ts, "-o");
      if pos + 1 < |ts| {
        var out := ts[pos + 1];
        var name := OutputName(tc, out);
        assert name[|name| - 3..] == ".bc";
        if Contains(out, ".so") {
          assert out + "" == out;
        }
      }
    }
  }

  /** A `-l<n>` token is replaced by the registered archive of `lib<n>` when
      there is one; every other token is kept; the count is unchanged. */
  lemma {:induction false} LibFlagsSpec(libs: map<string, string>, ts: seq<string>)
    ensures |SubstituteLibFlags(libs, ts)| == |ts|
    ensures forall i :: 0 <= i < |ts| ==>
      var t := ts[i];
      SubstituteLibFlags(libs, ts)[i]
        == if StartsWith(t, "-l") && "lib" + t[2..] in libs then libs["lib" + t[2..]] else t
    ensures forall i :: 0 <= i < |ts| ==>
      SubstituteLibFlags(libs, ts)[i] == ts[i] || SubstituteLibFlags(libs, ts)[i] in libs.Values
  {
  }

  /** A `<p>.a` token is replaced by the registered archive of `basename(p)`
      when there is one; every other token is kept; the count is unchanged. */
  lemma {:induction false} ArchivesSpec(libs: map<string, string>, ts: seq<string>)
    ensures |SubstituteArchives(libs, ts)| == |ts|
    ensures forall i :: 0 <= i < |ts| ==>
      var t := ts[i];
      SubstituteArchives(libs, ts)[i]
        == if EndsWith(t, ".a") && Basename(t[..|t| - 2]) in libs then libs[Basename(t[..|t| - 2])] else t
    ensures forall i :: 0 <= i < |ts| ==>
      SubstituteArchives(libs, ts)[i] == ts[i] || SubstituteArchives(libs, ts)[i] in libs.Values
  {
  }

  /** Where a token after the passes can come from: an argument, a registered
      bitcode archive, or the renamed output. */
  predicate FromInputs(libs: map<string, string>, args: seq<string>, target: Option<string>, u: string) {
    u in args || u in libs.Values || target == Some(u)
  }

  /** After the passes no token names an object file, no option other than
      "-o" is left, and every token is an argument, a registered archive or
      the target, with ".o" renamed to ".bc". */
  lemma {:induction false} PassesSpec(tc: Toolchain, libs: map<string, string>, args: seq<string>)
    requires Passes(tc, libs, args).Ok?
    ensures forall t :: t in Passes(tc, libs, args).value.tokens ==>
      && !EndsWith(t, ".o")
      && (!IsOption(t) || t == "-o")
    ensures forall t :: t in Passes(tc, libs, args).value.tokens ==>
      exists u :: FromInputs(libs, args, Passes(tc, libs, args).value.target, u) && t == RenameObject(u)
  {
    var m := MarkOutput(tc, WithoutFlags(args, tc.optimizerFlags)).value;
    var renamed := RenameObjects(SubstituteArchives(libs, SubstituteLibFlags(libs, m.tokens)));
    RenameObjectsSpec(SubstituteArchives(libs, SubstituteLibFlags(libs, m.tokens)));
    assert Passes(tc, libs, args).value.tokens == DropOptions(renamed);
    PassesFrom(tc, libs, args);
  }

  /** Each token after the passes is the rename of a token before the
      substitutions, or of a registered archive. */
  lemma {:induction false} PassesFrom(tc: Toolchain, libs: map<string, string>, args: seq<string>)
    requires Passes(tc, libs, args).Ok?
    ensures forall t :: t in Passes(tc, libs, args).value.tokens ==>
      exists u :: FromInputs(libs, args, Passes(tc, libs, args).value.target, u) && t == RenameObject(u)
  {
    var ts := WithoutFlags(args, tc.optimizerFlags);
    var m := MarkOutput(tc, ts).value;
    var sa := SubstituteArchives(libs, SubstituteLibFlags(libs, m.tokens));
    var renamed := RenameObjects(sa);
    var p := Passes(tc, libs, args).value;
    assert p == Marked(DropOptions(renamed), m.target);
    MarkedFrom(tc, ts);
    forall t | t in p.tokens
      ensures exists u :: FromInputs(libs, args, p.target, u) && t == RenameObject(u)
    {
      assert t in renamed;
      var i :| 0 <= i < |renamed| && renamed[i] == t;
      SubstitutedFrom(libs, m.tokens, i);
      var u := sa[i];
      if u !in libs.Values && m.target != Some(u) {
        assert ts[i] in ts;
      }
      assert FromInputs(libs, args, p.target, u);
    }
  }

  /** Marking the output changes only the token that becomes the target. */
  lemma {:induction false} MarkedFrom(tc: Toolchain, ts: seq<string>)
    requires MarkOutput(tc, ts).Ok?
    ensures |MarkOutput(tc, ts).value.tokens| == |ts|
    ensures forall i :: 0 <= i < |ts| ==>
      MarkOutput(tc, ts).value.tokens[i] == ts[i]
      || MarkOutput(tc, ts).value.target == Some(MarkOutput(tc, ts).value.tokens[i])
  {
  }

  /** A substituted token is the token itself or a registered archive. */
  lemma {:induction false} SubstitutedFrom(libs: map<string, string>, ts: seq<string>, i: nat)
    requires i < |ts|
    ensures i < |SubstituteArchives(libs, SubstituteLibFlags(libs, ts))|
    ensures var u := SubstituteArchives(libs, SubstituteLibFlags(libs, ts))[i];
      u == ts[i] || u in libs.Values
  {
    LibFlagsSpec(libs, ts);
    ArchivesSpec(libs, SubstituteLibFlags(libs, ts));
  }

  /** Blanking replaces only the first "-o", by the empty string. */
  lemma {:induction false} BlankedSpec(kept: seq<string>)
    ensures |Blanked(kept)| == |kept|
    ensures multiset(Blanked(kept))["-o"] == if "-o" in kept then multiset(kept)["-o"] - 1 else 0
    ensures forall t :: t != "-o" && t != "" ==> multiset(Blanked(kept))[t] == multiset(kept)[t]
  {
    if "-o" in kept {
      ReplaceCounts(kept, IndexOf(kept, "-o"), "");
    }
  }

  /** Overwriting one position trades one occurrence of the old element for
      one of the new. */
  lemma {:induction false} ReplaceCounts(xs: seq<string>, pos: nat, y: string)
    requires pos < |xs|
    ensures multiset(xs[pos := y]) == multiset(xs) - multiset{xs[pos]} + multiset{y}
  {
    var pre, post := xs[..pos], xs[pos + 1..];
    assert xs == pre + [xs[pos]] + post;
    assert xs[pos := y] == pre + [y] + post;
  }

  /** Without "shared" or "-rdynamic" the line is llvm-link of the
      de-duplicated tokens: the same tokens, each once, in first-seen order. */
  lemma {:induction false} LinkLine(tc: Toolchain, s: string, kept: seq<string>, target: Option<string>)
    requires !BuildsArchive(s) && AllWords(kept)
    ensures Assemble(tc, s, kept, target).Ok?
    ensures StartsWith(Assemble(tc, s, kept, target).value, tc.llvmLink + " ")
    ensures Split(Assemble(tc, s, kept, target).value) == Split(tc.llvmLink) + NoDuplicates(kept)
  {
    var line := Assemble(tc, s, kept, target).value;
    var nd := NoDuplicates(kept);
    assert line[..|tc.llvmLink + " "|] == tc.llvmLink + " ";
    assert AllWords(nd) by {
      forall i | 0 <= i < |nd| ensures IsWord(nd[i]) {
        assert nd[i] in kept;
      }
    }
    RenderTokens(tc.llvmLink, nd);
  }

  /** With "shared" or "-rdynamic" the line is `llvm-ar qc`, then the target
      when there is one, then the other tokens de-duplicated, the blanked "-o"
      gone; it fails with ValueError exactly when the target is no longer among
      the tokens. */
  lemma {:induction false} ArchiveLine(tc: Toolchain, s: string, kept: seq<string>, target: Option<string>)
    requires BuildsArchive(s)
    ensures target.None? ==>
              Assemble(tc, s, kept, target).Ok? && StartsWith(Assemble(tc, s, kept, target).value, tc.llvmAr + " qc ")
    ensures target.None? && AllWords(kept) ==>
              Split(Assemble(tc, s, kept, target).value)
                == Split(tc.llvmAr) + ["qc"] + NonBlank(NoDuplicates(Blanked(kept)))
    ensures target.Some? ==>
      && (Assemble(tc, s, kept, target) == Err(ValueError) <==> target.value !in Blanked(kept))
      && (Assemble(tc, s, kept, target).Ok? ==>
            StartsWith(Assemble(tc, s, kept, target).value, tc.llvmAr + " qc " + target.value + " "))
    ensures target.Some? && target.value != "" && AllWords(kept) && Assemble(tc, s, kept, target).Ok? ==>
              Split(Assemble(tc, s, kept, target).value)
                == Split(tc.llvmAr) + ["qc", target.value]
                   + NonBlank(NoDuplicates(RemoveFirst(Blanked(kept), target.value)))
  {
    var r := Assemble(tc, s, kept, target);
    if target.None? {
      var head := tc.llvmAr + " qc ";
      assert r.value[..|head|] == head;
      if AllWords(kept) {
        ArchiveSplitNone(tc, s, kept);
      }
    } else if r.Ok? {
      var t := target.value;
      var head := tc.llvmAr + " qc " + t + " ";
      assert r.value[..|head|] == head;
      if t != "" && AllWords(kept) {
        ArchiveSplitSome(tc, s, kept, t);
      }
    }
  }

  /** The archive line without a target, split into words. */
  lemma {:induction false} ArchiveSplitNone(tc: Toolchain, s: string, kept: seq<string>)
    requires BuildsArchive(s) && AllWords(kept)
    ensures Split(Assemble(tc, s, kept, None).value)
              == Split(tc.llvmAr) + ["qc"] + NonBlank(NoDuplicates(Blanked(kept)))
  {
    var nd := NoDuplicates(Blanked(kept));
    var j := Join(nd, " ");
    assert Assemble(tc, s, kept, None) == Ok(tc.llvmAr + " qc " + j);
    ArchiveTokens(kept, "");
    SplitJoinBlank(nd);
    QcWords(tc.llvmAr, j);
  }

  /** The archive line with a target, split into words. */
  lemma {:induction false} ArchiveSplitSome(tc: Toolchain, s: string, kept: seq<string>, t: string)
    requires BuildsArchive(s) && AllWords(kept) && t != "" && t in Blanked(kept)
    ensures Split(Assemble(tc, s, kept, Some(t)).value)
              == Split(tc.llvmAr) + ["qc", t] + NonBlank(NoDuplicates(RemoveFirst(Blanked(kept), t)))
  {
    var nd := NoDuplicates(RemoveFirst(Blanked(kept), t));
    var j := Join(nd, " ");
    assert Assemble(tc, s, kept, Some(t)) == Ok(tc.llvmAr + " qc " + t + " " + j);
    ArchiveTokens(kept, t);
    SplitJoinBlank(nd);
    TargetWords(tc.llvmAr, t, j);
  }

  /** `prefix + " qc " + t + " " + rest` splits into the prefix's words, "qc",
      the target and the words of the rest. */
  lemma {:induction false} TargetWords(prefix: string, t: string, rest: string)
    requires IsWord(t)
    ensures Split(prefix + " qc " + t + " " + rest) == Split(prefix) + ["qc", t] + Split(rest)
  {
    var tail := t + " " + rest;
    ConcatAssoc(prefix + " qc ", t, " ", rest);
    SplitJoinCons(t, rest);
    QcWords(prefix, tail);
    PairAssoc(Split(prefix), "qc", t, Split(rest));
  }

  /** `prefix + " qc " + rest` splits into the prefix's words, "qc" and the
      words of the rest. */
  lemma {:induction false} QcWords(prefix: string, rest: string)
    ensures Split(prefix + " qc " + rest) == Split(prefix) + ["qc"] + Split(rest)
  {
    QcSpelled(prefix, rest);
    QcIsWord();
    SplitAround(prefix, "qc", rest);
  }

  lemma {:induction false} QcSpelled(prefix: string, rest: string)
    ensures prefix + " qc " + rest == prefix + " " + "qc" + " " + rest
  {
    assert " qc " == " " + "qc" + " ";
  }

  lemma {:induction false} QcIsWord()
    ensures IsWord("qc")
  {
    assert "qc"[0] == 'q' && "qc"[1] == 'c';
  }

  /** Blanking leaves the tokens and one empty string. */
  lemma {:induction false} BlankedFrom(kept: seq<string>)
    ensures forall x :: x in Blanked(kept) ==> x == "" || x in kept
  {
    if "-o" in kept {
      var p := IndexOf(kept, "-o");
      var b := Blanked(kept);
      forall x | x in b ensures x == "" || x in kept {
        var k :| 0 <= k < |b| && b[k] == x;
        if k != p {
          assert x == kept[k];
        }
      }
    }
  }

  /** Strings drawn from words and the empty string are words or blanks. */
  lemma {:induction false} DrawnFromWords(xs: seq<string>, kept: seq<string>)
    requires AllWords(kept)
    requires forall x :: x in xs ==> x == "" || x in kept
    ensures WordsOrBlanks(xs)
  {
    forall i | 0 <= i < |xs| ensures xs[i] == [] || IsWord(xs[i]) {
      if xs[i] != [] {
        assert xs[i] in kept;
      }
    }
  }

  /** The archive's tokens are words, or the empty string the "-o" became. */
  lemma {:induction false} ArchiveTokens(kept: seq<string>, t: string)
    requires AllWords(kept)
    ensures WordsOrBlanks(NoDuplicates(Blanked(kept)))
    ensures t in Blanked(kept) ==> WordsOrBlanks(NoDuplicates(RemoveFirst(Blanked(kept), t)))
    ensures t in Blanked(kept) && t != "" ==> IsWord(t)
  {
    var b := Blanked(kept);
    BlankedFrom(kept);
    DrawnFromWords(NoDuplicates(b), kept);
    if t in b {
      var rest := RemoveFirst(b, t);
      forall x | x in NoDuplicates(rest) ensures x == "" || x in kept {
        assert multiset(rest)[x] > 0;
      }
      DrawnFromWords(NoDuplicates(rest), kept);
      if t != "" {
        assert t in kept;
      }
    }
  }
}
