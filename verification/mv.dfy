/** The move rule: `mv a.o b.o` moves the bitcode files instead. */
module Mv {
  import opened Strings
  import opened Commands

  predicate CanApply(cmd: Command) {
    StartsWith(cmd.bashcmd, "mv ")
  }

  /** `mv` with every argument's object file renamed; no arguments give the
      empty command. */
  function Rewrite(cmd: Command): Command
  {
    var files := RenameObjects(Args(cmd.bashcmd));
    Command(if files == [] then "" else "mv " + Join(files, " "), cmd.curdir)
  }

  /** The rule: the arguments after `mv`, renamed, behind a fresh `mv`. */
  method Apply(cmd: Command) returns (r: Command)
    ensures r == Rewrite(cmd)
  {
    var renamed := RenameEach(Args(cmd.bashcmd));
    r := Command(if renamed != [] then "mv " + Join(renamed, " ") else "", cmd.curdir);
  }

  /** The rule's loop: each argument is appended to the new list, renamed when
      it names an object file. */
  method RenameEach(files: seq<string>) returns (renamed: seq<string>)
    ensures renamed == RenameObjects(files)
  {
    renamed := [];
    var i := 0;
    while i < |files|
      invariant i <= |files|
      invariant |renamed| == i
      invariant forall k :: 0 <= k < i ==> renamed[k] == RenameObject(files[k])
    {
      var file := files[i];
      var embrace := "";
      if EndsWith(file, ".o") {
        assert embrace + file[..|file| - 2] + ".bc" + embrace == RenameObject(file);
        renamed := renamed + [embrace + file[..|file| - 2] + ".bc" + embrace];
      } else {
        assert embrace + file + embrace == RenameObject(file);
        renamed := renamed + [embrace + file + embrace];
      }
      i := i + 1;
    }
    assert renamed == RenameObjects(files) by {
      var ro := RenameObjects(files);
      assert |renamed| == |ro|;
      forall k | 0 <= k < |ro| ensures renamed[k] == ro[k] { }
    }
  }

  /** The result is empty exactly when there is nothing to move; otherwise it is
      `mv` followed by the arguments, as many as before and in the same order,
      each object file renamed to its bitcode file. */
  lemma {:induction false} RewriteWords(cmd: Command)
    ensures Rewrite(cmd).curdir == cmd.curdir
    ensures Rewrite(cmd).bashcmd == "" <==> Args(cmd.bashcmd) == []
    ensures Args(cmd.bashcmd) != [] ==>
              && StartsWith(Rewrite(cmd).bashcmd, "mv ")
              && Split(Rewrite(cmd).bashcmd) == ["mv"] + RenameObjects(Args(cmd.bashcmd))
  {
    var args := Args(cmd.bashcmd);
    var files := RenameObjects(args);
    assert files == [] <==> args == [];
    if files != [] {
      RenameObjectsSpec(args);
      MoveLine(files);
    }
  }

  /** `mv` followed by words splits into "mv" and the words. */
  lemma {:induction false} MoveLine(fs: seq<string>)
    requires fs != [] && AllWords(fs)
    ensures StartsWith("mv " + Join(fs, " "), "mv ")
    ensures Split("mv " + Join(fs, " ")) == ["mv"] + fs
  {
    var s := "mv " + Join(fs, " ");
    assert s == "mv" + " " + Join(fs, " ");
    assert s[..3] == "mv ";
    RenderTokens("mv", fs);
    assert IsWord("mv") by {
      forall k | 0 <= k < 2 ensures !IsSpace("mv"[k]) {
        assert k == 0 || k == 1;
      }
    }
    SplitWord("mv");
  }

  /** A move of the files `fs` becomes the move of `fs` with each object file
      renamed; `mv a.o b.o notes.txt`, for one, becomes `mv a.bc b.bc notes.txt`. */
  lemma {:induction false} RewriteOfWords(fs: seq<string>, dir: string)
    requires fs != [] && AllWords(fs)
    ensures Rewrite(Command("mv " + Join(fs, " "), dir))
         == Command("mv " + Join(RenameObjects(fs), " "), dir)
  {
    var s := "mv " + Join(fs, " ");
    MoveLine(fs);
    assert Args(s) == fs;
  }
}
