/** The MPI compile rule: `/usr/bin/mpicc ... -c ...` becomes a clang call that
    emits unoptimised LLVM bitcode with debug information. */
module MpiccCompile {
  import opened Strings
  import opened Commands

  const IncludeMpi := "-I/usr/include/mpi"

  predicate CanApply(cmd: Command) {
    && StartsWith(cmd.bashcmd, "/usr/bin/mpicc")
    && !Contains(cmd.bashcmd, "-o /dev/null")
    && Contains(cmd.bashcmd, " -c ")
  }

  /** The arguments without optimizer flags, behind a leading "-O0". */
  function BaseTokens(tc: Toolchain, args: seq<string>): seq<string>
  {
    ["-O0"] + WithoutFlags(args, tc.optimizerFlags)
  }

  /** `xs.insert(i, x)` for an index within the list. */
  function Insert(xs: seq<string>, i: nat, x: string): (r: seq<string>)
    requires i <= |xs|
    ensures |r| == |xs| + 1 && r[i] == x
    ensures r[..i] + r[i + 1..] == xs
  {
    xs[..i] + [x] + xs[i..]
  }

  /** The final token list: when "-o" is present its argument loses ".o" for
      ".bc" and the MPI include path goes in at one before the flag's index. */
  function CompileTokens(tc: Toolchain, args: seq<string>): Result<seq<string>>
  {
    WithInclude(BaseTokens(tc, args))
  }

  function WithInclude(base: seq<string>): Result<seq<string>>
    requires base != [] && base[0] == "-O0"
  {
    if "-o" !in base then Ok(base)
    else
      var pos := IndexOf(base, "-o");
      if pos + 1 >= |base| then Err(IndexError)
      else Ok(Insert(base[pos + 1 := RenameObject(base[pos + 1])], pos - 1, IncludeMpi))
  }

  /** The flags the new command starts with: "-g" unless the tokens have it. */
  function DebugFlag(tc: Toolchain, args: seq<string>): string
  {
    if "-g" in BaseTokens(tc, args) then "" else "-g "
  }

  function Rewrite(tc: Toolchain, cmd: Command): Result<Command>
  {
    var args := Args(cmd.bashcmd);
    match CompileTokens(tc, args)
    case Err(e) => Err(e)
    case Ok(ts) => Ok(Command(tc.clang + " -emit-llvm " + DebugFlag(tc, args) + Join(ts, " "), cmd.curdir))
  }

  /** The rule's rewrite, step by step: filter, insert "-O0", start the new
      command, then rename the output and insert the include path. */
  method Apply(tc: Toolchain, cmd: Command) returns (r: Result<Command>)
    ensures r == Rewrite(tc, cmd)
  {
    var tokens := Args(cmd.bashcmd);
    tokens := WithoutFlags(tokens, tc.optimizerFlags);
    tokens := ["-O0"] + tokens;
    ghost var base := tokens;
    assert base == BaseTokens(tc, Args(cmd.bashcmd));
    var newcmd := tc.clang + " -emit-llvm ";
    if "-g" !in tokens {
      newcmd := newcmd + "-g ";
    }
    assert newcmd == tc.clang + " -emit-llvm " + DebugFlag(tc, Args(cmd.bashcmd));
    if "-o" in tokens {
      var pos := IndexOf(tokens, "-o");
      if pos + 1 >= |tokens| {
        return Err(IndexError);
      }
      if EndsWith(tokens[pos + 1], ".o") {
        tokens := tokens[pos + 1 := tokens[pos + 1][..|tokens[pos + 1]| - 2] + ".bc"];
      }
      assert tokens == base[pos + 1 := RenameObject(base[pos + 1])];
      assert tokens[0] == "-O0";
      tokens := tokens[..pos - 1] + [IncludeMpi] + tokens[pos - 1..];
      assert tokens == Insert(base[pos + 1 := RenameObject(base[pos + 1])], pos - 1, IncludeMpi);
    }
    assert WithInclude(base) == Ok(tokens);
    assert CompileTokens(tc, Args(cmd.bashcmd)) == Ok(tokens);
    r := Ok(Command(newcmd + Join(tokens, " "), cmd.curdir));
  }

  /** The base tokens start with "-O0", no optimizer flag follows it, and every
      other argument is kept. */
  lemma {:induction false} BaseTokensSpec(tc: Toolchain, args: seq<string>)
    ensures var base := BaseTokens(tc, args);
      && base[0] == "-O0"
      && (forall i :: 1 <= i < |base| ==> base[i] !in tc.optimizerFlags)
      && (forall t :: t in args && t !in tc.optimizerFlags ==> t in base[1..])
  {
    var base := BaseTokens(tc, args);
    assert base[1..] == WithoutFlags(args, tc.optimizerFlags);
    forall i | 1 <= i < |base| ensures base[i] !in tc.optimizerFlags {
      assert base[i] in base[1..];
    }
  }

  /** Without "-o" the tokens are the base tokens: "-O0" first, no include
      path, and every other token, object files included, unchanged. */
  lemma {:induction false} NoOutputNoInclude(tc: Toolchain, args: seq<string>)
    requires "-o" !in BaseTokens(tc, args)
    ensures CompileTokens(tc, args) == Ok(BaseTokens(tc, args))
    ensures IncludeMpi !in BaseTokens(tc, args) ==> IncludeMpi !in CompileTokens(tc, args).value
  {
  }

  /** With "-o" and an argument after it, the include path sits at `pos-1`;
      taking it out again leaves the base tokens with only the output renamed.
      "-O0" stays first unless "-o" comes first among the arguments. A
      trailing "-o" raises IndexError. */
  lemma {:induction false} OutputRenamedIncludeInserted(base: seq<string>)
    requires base != [] && base[0] == "-O0" && "-o" in base
    ensures var pos := IndexOf(base, "-o");
      && 1 <= pos
      && (pos + 1 == |base| <==> WithInclude(base) == Err(IndexError))
      && (pos + 1 < |base| ==>
            var ts := WithInclude(base).value;
            && |ts| == |base| + 1
            && ts[pos - 1] == IncludeMpi
            && ts[..pos - 1] + ts[pos..] == base[pos + 1 := RenameObject(base[pos + 1])]
            && ts[pos + 1] == "-o"
            && !EndsWith(ts[pos + 2], ".o")
            && (ts[0] == "-O0" <==> pos >= 2))
  {
    var pos := IndexOf(base, "-o");
    if pos + 1 < |base| {
      var renamed := base[pos + 1 := RenameObject(base[pos + 1])];
      var ts := Insert(renamed, pos - 1, IncludeMpi);
      assert WithInclude(base) == Ok(ts);
      assert ts[pos + 1] == renamed[pos];
      assert ts[pos + 2] == renamed[pos + 1];
      RenameObjectSpec(base[pos + 1]);
      if pos == 1 {
        assert ts[0] == IncludeMpi;
      } else {
        assert ts[0] == renamed[0];
      }
    }
  }

  /** The new line is the compiler, "-emit-llvm", "-g" exactly when the tokens
      lack it, and then the final tokens. */
  lemma {:induction false} RewriteWords(tc: Toolchain, cmd: Command)
    requires Rewrite(tc, cmd).Ok?
    ensures var args := Args(cmd.bashcmd);
      && Rewrite(tc, cmd).value.curdir == cmd.curdir
      && StartsWith(Rewrite(tc, cmd).value.bashcmd, tc.clang + " -emit-llvm ")
      && Split(Rewrite(tc, cmd).value.bashcmd)
         == Split(tc.clang) + ["-emit-llvm"] + (if "-g" in BaseTokens(tc, args) then [] else ["-g"])
            + CompileTokens(tc, args).value
  {
    var args := Args(cmd.bashcmd);
    var ts := CompileTokens(tc, args).value;
    var d := DebugFlag(tc, args);
    var line := Rewrite(tc, cmd).value.bashcmd;
    var head := tc.clang + " -emit-llvm ";
    assert line == head + d + Join(ts, " ");
    assert StartsWith(line, head) by {
      assert line[..|head|] == head;
    }
    var g: seq<string> := if "-g" in BaseTokens(tc, args) then [] else ["-g"];
    assert ts != [] && AllWords(ts) by {
      NonEmptyTokens(BaseTokens(tc, args));
      CompileTokensWords(tc, args);
    }
    LineWords(tc.clang, g, d, ts, line);
  }

  /** The words of `c -emit-llvm [-g ]t1 ... tn`. */
  lemma {:induction false} LineWords(c: string, g: seq<string>, d: string, ts: seq<string>, line: string)
    requires (g == [] && d == "") || (g == ["-g"] && d == "-g ")
    requires ts != [] && AllWords(ts)
    requires line == c + " -emit-llvm " + d + Join(ts, " ")
    ensures Split(line) == Split(c) + ["-emit-llvm"] + g + ts
  {
    var words := ["-emit-llvm"] + g + ts;
    LineShape(c, g, d, ts);
    FlagTokensWords(g, ts);
    RenderTokens(c, words);
    ConcatAssoc(Split(c), ["-emit-llvm"], g, ts);
  }

  lemma {:induction false} LineShape(c: string, g: seq<string>, d: string, ts: seq<string>)
    requires (g == [] && d == "") || (g == ["-g"] && d == "-g ")
    requires ts != []
    ensures c + " -emit-llvm " + d + Join(ts, " ") == c + " " + Join(["-emit-llvm"] + g + ts, " ")
  {
    JoinPrefix(g, d, ts);
    Reassociate(c, d, Join(ts, " "));
  }

  lemma {:induction false} FlagTokensWords(g: seq<string>, ts: seq<string>)
    requires g == [] || g == ["-g"]
    requires AllWords(ts)
    ensures AllWords(["-emit-llvm"] + g + ts)
  {
    FlagWords();
    var words := ["-emit-llvm"] + g + ts;
    forall i | 0 <= i < |words| ensures IsWord(words[i]) {
      if i >= 1 + |g| {
        assert words[i] == ts[i - 1 - |g|];
      }
    }
  }

  /** `c + " -emit-llvm " + d + j` is `c + " " + ("-emit-llvm " + d + j)`. */
  lemma {:induction false} Reassociate(c: string, d: string, j: string)
    ensures c + " -emit-llvm " + d + j == c + " " + ("-emit-llvm " + d + j)
  {
    assert " -emit-llvm " == " " + "-emit-llvm ";
  }

  lemma {:induction false} FlagWords()
    ensures IsWord("-emit-llvm") && IsWord("-g") && IsWord("-O0") && IsWord(IncludeMpi)
  {
    forall k | 0 <= k < 10 ensures !IsSpace("-emit-llvm"[k]) {
      assert "-emit-llvm"[k] in "-emitlv";
    }
    forall k | 0 <= k < 2 ensures !IsSpace("-g"[k]) {
      assert "-g"[k] in "-g";
    }
    forall k | 0 <= k < 3 ensures !IsSpace("-O0"[k]) {
      assert "-O0"[k] in "-O0";
    }
    forall k | 0 <= k < |IncludeMpi| ensures !IsSpace(IncludeMpi[k]) {
      assert IncludeMpi[k] in "-I/usrinclude/mp";
    }
  }

  lemma {:induction false} NonEmptyTokens(base: seq<string>)
    requires base != [] && base[0] == "-O0" && WithInclude(base).Ok?
    ensures WithInclude(base).value != []
  {
  }

  /** The final tokens are words. */
  lemma {:induction false} CompileTokensWords(tc: Toolchain, args: seq<string>)
    requires AllWords(args) && CompileTokens(tc, args).Ok?
    ensures AllWords(CompileTokens(tc, args).value)
  {
    var base := BaseTokens(tc, args);
    WithoutFlagsWords(args, tc.optimizerFlags);
    FlagWords();
    assert AllWords(base);
    if "-o" in base {
      var pos := IndexOf(base, "-o");
      RenameObjectWord(base[pos + 1]);
      var renamed := base[pos + 1 := RenameObject(base[pos + 1])];
      assert AllWords(renamed);
      var ts := CompileTokens(tc, args).value;
      forall i | 0 <= i < |ts| ensures IsWord(ts[i]) {
        if i < pos - 1 {
          assert ts[i] == renamed[i];
        } else if i > pos - 1 {
          assert ts[i] == renamed[i - 1];
        }
      }
    }
  }

  /** Joining a list of one or two flag words in front of more tokens. */
  lemma {:induction false} JoinPrefix(g: seq<string>, d: string, ts: seq<string>)
    requires (g == [] && d == "") || (g == ["-g"] && d == "-g ")
    requires ts != []
    ensures Join(["-emit-llvm"] + g + ts, " ") == "-emit-llvm " + d + Join(ts, " ")
  {
    if g == [] {
      assert ["-emit-llvm"] + g + ts == ["-emit-llvm"] + ts;
      JoinCons("-emit-llvm", ts, " ");
    } else {
      JoinCons("-g", ts, " ");
      JoinCons("-emit-llvm", ["-g"] + ts, " ");
      assert ["-emit-llvm"] + g + ts == ["-emit-llvm"] + (["-g"] + ts);
    }
  }
}
