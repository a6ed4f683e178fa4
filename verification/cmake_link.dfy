/** The CMake link-script rule's own parts: which commands it accepts and
    where it finds the name of the script. Its dispatch to the other rules is
    in the Transformers module. */
module CmakeLink {
  import opened Strings
  import opened Commands

  /** `cmd_prefixes`: "<program> -E cmake_link_script " for the two cmake
      programs. */
  const Prefixes: seq<string> := ["/usr/bin/cmake -E cmake_link_script ", "/usr/local/bin/cmake -E cmake_link_script "]

  /** The program word of each prefix. */
  function ProgramWord(i: nat): string {
    if i == 0 then "/usr/bin/cmake" else "/usr/local/bin/cmake"
  }

  /** The command starts with one of the two prefixes. */
  predicate CanApply(cmd: Command) {
    StartsWith(cmd.bashcmd, Prefixes[0]) || StartsWith(cmd.bashcmd, Prefixes[1])
  }

  /** `re.split('\s', bashcmd)[3]`: the fourth whitespace-separated field. */
  function ScriptName(s: string): Result<string>
  {
    var fs := Fields(s);
    if |fs| > 3 then Ok(fs[3]) else Err(IndexError)
  }

  /** The text after the accepted prefix, up to the first whitespace. */
  function ScriptArgument(cmd: Command): string
    requires CanApply(cmd)
  {
    var p := if StartsWith(cmd.bashcmd, Prefixes[0]) then Prefixes[0] else Prefixes[1];
    var rest := cmd.bashcmd[|p|..];
    rest[..WordLength(rest)]
  }

  /** Three whitespace-free words, each followed by one blank, are the first
      three fields. */
  lemma {:induction false} ThreeFields(w1: string, w2: string, w3: string, rest: string)
    requires forall k :: 0 <= k < |w1| ==> !IsSpace(w1[k])
    requires forall k :: 0 <= k < |w2| ==> !IsSpace(w2[k])
    requires forall k :: 0 <= k < |w3| ==> !IsSpace(w3[k])
    ensures Fields(w1 + [' '] + (w2 + [' '] + (w3 + [' '] + rest))) == [w1, w2, w3] + Fields(rest)
  {
    var r3 := w3 + [' '] + rest;
    var r2 := w2 + [' '] + r3;
    assert Fields(r3) == [w3] + Fields(rest) by {
      FieldsAfterWord(w3, ' ', rest);
    }
    assert Fields(r2) == [w2] + Fields(r3) by {
      FieldsAfterWord(w2, ' ', r3);
    }
    assert Fields(w1 + [' '] + r2) == [w1] + Fields(r2) by {
      FieldsAfterWord(w1, ' ', r2);
    }
    TripleAssoc(w1, w2, w3, Fields(rest));
  }

  /** Visible ASCII characters are not whitespace. */
  lemma {:induction false} VisibleWord(w: string)
    requires forall k :: 0 <= k < |w| ==> '!' <= w[k] <= '~'
    ensures forall k :: 0 <= k < |w| ==> !IsSpace(w[k])
  {
  }

  /** A text that starts with three whitespace-free words, each followed by a
      blank, has as its fourth field the text after them up to the next
      whitespace. */
  lemma {:induction false} FourthField(s: string, w1: string, w2: string, w3: string)
    requires forall k :: 0 <= k < |w1| ==> !IsSpace(w1[k])
    requires forall k :: 0 <= k < |w2| ==> !IsSpace(w2[k])
    requires forall k :: 0 <= k < |w3| ==> !IsSpace(w3[k])
    requires StartsWith(s, w1 + [' '] + (w2 + [' '] + (w3 + [' '])))
    ensures ScriptName(s) == Ok(s[|w1| + |w2| + |w3| + 3..][..WordLength(s[|w1| + |w2| + |w3| + 3..])])
  {
    var p := w1 + [' '] + (w2 + [' '] + (w3 + [' ']));
    var rest := s[|p|..];
    ThreeFields(w1, w2, w3, rest);
    assert s == p + rest;
    assert s == w1 + [' '] + (w2 + [' '] + (w3 + [' '] + rest));
    assert Fields(rest)[0] == rest[..WordLength(rest)];
  }

  /** Each prefix is the program, "-E" and "cmake_link_script", each followed
      by a blank. */
  lemma {:induction false} PrefixShape(i: nat)
    requires i < |Prefixes|
    ensures Prefixes[i] == ProgramWord(i) + [' '] + ("-E" + [' '] + ("cmake_link_script" + [' ']))
  {
    var rest := "-E" + [' '] + ("cmake_link_script" + [' ']);
    PrefixTail();
    if i == 0 {
      UsrBinPrefix();
    } else {
      UsrLocalBinPrefix();
    }
    assert ProgramWord(i) + ([' '] + rest) == ProgramWord(i) + [' '] + rest;
  }

  lemma {:induction false} PrefixTail()
    ensures " -E cmake_link_script " == [' '] + ("-E" + [' '] + ("cmake_link_script" + [' ']))
  {
  }

  lemma {:induction false} UsrBinPrefix()
    ensures "/usr/bin/cmake -E cmake_link_script " == "/usr/bin/cmake" + " -E cmake_link_script "
  {
  }

  lemma {:induction false} UsrLocalBinPrefix()
    ensures "/usr/local/bin/cmake -E cmake_link_script " == "/usr/local/bin/cmake" + " -E cmake_link_script "
  {
  }

  lemma {:induction false} PrefixWordsVisible(i: nat)
    ensures forall k :: 0 <= k < |ProgramWord(i)| ==> !IsSpace(ProgramWord(i)[k])
    ensures forall k :: 0 <= k < |"-E"| ==> !IsSpace("-E"[k])
    ensures forall k :: 0 <= k < |"cmake_link_script"| ==> !IsSpace("cmake_link_script"[k])
  {
    VisibleWord(ProgramWord(i));
    VisibleWord("-E");
    VisibleWord("cmake_link_script");
  }

  /** For an accepted command the script name is the text after the prefix up
      to the first whitespace (for either prefix), so reading it never fails. */
  lemma {:induction false} ScriptNameAfterPrefix(cmd: Command)
    requires CanApply(cmd)
    ensures ScriptName(cmd.bashcmd) == Ok(ScriptArgument(cmd))
  {
    var i := if StartsWith(cmd.bashcmd, Prefixes[0]) then 0 else 1;
    PrefixShape(i);
    PrefixWordsVisible(i);
    FourthField(cmd.bashcmd, ProgramWord(i), "-E", "cmake_link_script");
  }
}
