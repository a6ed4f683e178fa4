/** The archiver rule: `ar <flags> libX.a a.o b.o` becomes an llvm-link call
    that writes `libX.a.bc` from the corresponding bitcode files. */
module Ar {
  import opened Strings
  import opened Patterns
  import opened Commands

  /** Either `ar ` with create/replace flags, or `/usr/bin/ar ` with quick-append
      flags, each followed by an argument ending in ".a". */
  predicate CanApply(cmd: Command) {
    || (StartsWith(cmd.bashcmd, "ar ") && SearchArchive(cmd.bashcmd, 0, "ar", ArCreateFlags))
    || (StartsWith(cmd.bashcmd, "/usr/bin/ar ") && SearchArchive(cmd.bashcmd, 0, "ar", ArQuickFlags))
  }

  /** The argument list of the link: the flag word becomes "-o", the archive
      gains ".bc", and every object file is renamed to its bitcode file. */
  function LinkArgs(args: seq<string>): Result<seq<string>>
  {
    if |args| < 2 then Err(IndexError)
    else Ok(RenameObjects(args[0 := "-o"][1 := args[1] + ".bc"]))
  }

  function Rewrite(tc: Toolchain, cmd: Command): Result<Command>
  {
    match LinkArgs(Args(cmd.bashcmd))
    case Err(e) => Err(e)
    case Ok(ts) => Ok(Command(tc.llvmLink + " " + Join(ts, " "), cmd.curdir))
  }

  /** The rule's rewrite, step by step on the token list. */
  method Apply(tc: Toolchain, cmd: Command) returns (r: Result<Command>)
    ensures r == Rewrite(tc, cmd)
  {
    var tokens := Args(cmd.bashcmd);
    if |tokens| == 0 {
      return Err(IndexError);
    }
    tokens := tokens[0 := "-o"];
    if |tokens| == 1 {
      return Err(IndexError);
    }
    tokens := tokens[1 := tokens[1] + ".bc"];
    tokens := RenameObjects(tokens);
    r := Ok(Command(tc.llvmLink + " " + Join(tokens, " "), cmd.curdir));
  }

  /** A command the rule accepts has the flag word and the archive, so the
      rewrite never fails on it. */
  lemma {:induction false} ApplicableHasArchive(cmd: Command)
    requires CanApply(cmd)
    ensures |Args(cmd.bashcmd)| >= 2
    ensures forall tc :: Rewrite(tc, cmd).Ok?
  {
    var s := cmd.bashcmd;
    assert |Split(s)| >= 3 by {
      var flags := if StartsWith(s, "ar ") && SearchArchive(s, 0, "ar", ArCreateFlags)
        then ArCreateFlags else ArQuickFlags;
      var m, q := ArchiveMatchPosition(s, 0, "ar", flags);
      FlagLettersVisible();
      assert !IsSpace("ar"[0]);
      HeadAndArchiveWords(s, m, "ar", flags, q);
    }
  }

  /** The link arguments are "-o", the archive with ".bc" appended, and the
      remaining arguments with object files renamed: as many as before. */
  lemma {:induction false} LinkArgsShape(args: seq<string>)
    requires |args| >= 2
    ensures LinkArgs(args) == Ok(["-o", args[1] + ".bc"] + RenameObjects(args[2..]))
  {
    var x := args[1] + ".bc";
    var edited := args[0 := "-o"][1 := x];
    var ts := RenameObjects(edited);
    var rest := RenameObjects(args[2..]);
    var want := ["-o", x] + rest;
    assert RenameObject(x) == x by {
      assert x[|x| - 1] == 'c';
    }
    assert RenameObject("-o") == "-o";
    forall i | 0 <= i < |ts| ensures ts[i] == want[i] {
      if i >= 2 {
        assert edited[i] == args[2..][i - 2];
        assert rest[i - 2] == RenameObject(args[2..][i - 2]);
      }
    }
    assert ts == want;
  }

  /** The link arguments of a command line are words, one per argument. */
  lemma {:induction false} LinkArgsWords(args: seq<string>)
    requires |args| >= 2 && AllWords(args)
    ensures AllWords(LinkArgs(args).value) && |LinkArgs(args).value| == |args|
  {
    var edited := args[0 := "-o"][1 := args[1] + ".bc"];
    assert IsWord(args[1]);
    assert AllWords(edited);
    RenameObjectsSpec(edited);
  }

  /** The rewritten line splits into the linker's words followed by the link
      arguments; the directory is kept. */
  lemma {:induction false} RewriteWords(tc: Toolchain, cmd: Command)
    requires CanApply(cmd)
    ensures Rewrite(tc, cmd).Ok? && Rewrite(tc, cmd).value.curdir == cmd.curdir
    ensures Split(Rewrite(tc, cmd).value.bashcmd) == Split(tc.llvmLink) + LinkArgs(Args(cmd.bashcmd)).value
  {
    ApplicableHasArchive(cmd);
    var args := Args(cmd.bashcmd);
    LinkArgsWords(args);
    RenderTokens(tc.llvmLink, LinkArgs(args).value);
  }
}
