/** The set of rewrite rules and the one rule that dispatches to the others:
    the CMake link-script rule reads the first line of the script and hands it
    to the first other rule that accepts it. */
module Transformers {
  import opened Strings
  import opened Commands
  import Ar
  import Mv
  import MpiccCompile
  import MpiccLink
  import CmakeLink

  datatype Transformer =
    | TransformAr
    | TransformCmakeLink
    | TransformMPICCCompile
    | TransformMPICCLink
    | TransformMv

  /** What a rule may consult: the toolchain, the container's library and
      dependency tables, the file comparison, the first line of a file (None
      when it cannot be opened; the line keeps its newline), and the rules in
      the order the registry lists them. */
  datatype Context = Context(
    tc: Toolchain,
    libs: map<string, string>,
    libDeps: map<string, seq<string>>,
    cmp: (string, string) -> MpiccLink.Comparison,
    firstLine: string -> Option<string>,
    rules: seq<Transformer>)

  predicate CanBeAppliedOn(t: Transformer, cmd: Command) {
    match t
    case TransformAr => Ar.CanApply(cmd)
    case TransformCmakeLink => CmakeLink.CanApply(cmd)
    case TransformMPICCCompile => MpiccCompile.CanApply(cmd)
    case TransformMPICCLink => MpiccLink.CanApply(cmd)
    case TransformMv => Mv.CanApply(cmd)
  }

  /** The rewrite of every rule but the CMake link-script rule. */
  function RewriteOther(t: Transformer, ctx: Context, cmd: Command): Result<Command>
    requires t != TransformCmakeLink
  {
    match t
    case TransformAr => Ar.Rewrite(ctx.tc, cmd)
    case TransformMPICCCompile => MpiccCompile.Rewrite(ctx.tc, cmd)
    case TransformMPICCLink => MpiccLink.Rewrite(ctx.tc, ctx.libs, ctx.libDeps, ctx.cmp, cmd)
    case TransformMv => Ok(Mv.Rewrite(cmd))
  }

  /** The first rule in `rules`, skipping the CMake link-script rule, that accepts `cmd`. */
  function FirstOther(rules: seq<Transformer>, cmd: Command): (r: Option<Transformer>)
    ensures r.Some? ==> r.value in rules && r.value != TransformCmakeLink && CanBeAppliedOn(r.value, cmd)
    ensures r.None? ==> forall t :: t in rules && t != TransformCmakeLink ==> !CanBeAppliedOn(t, cmd)
  {
    if rules == [] then None
    else if rules[0] != TransformCmakeLink && CanBeAppliedOn(rules[0], cmd) then Some(rules[0])
    else FirstOther(rules[1..], cmd)
  }

  /** The CMake link-script rule: the fourth field names the script, its first
      line is handed to the first other rule accepting it, and the run ends
      when none does. */
  function RewriteCmakeLink(ctx: Context, cmd: Command): Result<Command>
  {
    match CmakeLink.ScriptName(cmd.bashcmd)
    case Err(e) => Err(e)
    case Ok(name) =>
      match ctx.firstLine(cmd.curdir + "/" + name)
      case None => Err(LinkScriptUnreadable)
      case Some(line) =>
        var linkCmd := Command(line, cmd.curdir);
        match FirstOther(ctx.rules, linkCmd)
        case None => Err(NoTransformerForLinkScript)
        case Some(t) => RewriteOther(t, ctx, linkCmd)
  }

  function Rewrite(t: Transformer, ctx: Context, cmd: Command): Result<Command> {
    if t == TransformCmakeLink then RewriteCmakeLink(ctx, cmd) else RewriteOther(t, ctx, cmd)
  }

  method ApplyOther(t: Transformer, ctx: Context, cmd: Command) returns (r: Result<Command>)
    requires t != TransformCmakeLink
    ensures r == RewriteOther(t, ctx, cmd)
  {
    match t
    case TransformAr =>
      r := Ar.Apply(ctx.tc, cmd);
    case TransformMPICCCompile =>
      r := MpiccCompile.Apply(ctx.tc, cmd);
    case TransformMPICCLink =>
      r := MpiccLink.Apply(ctx.tc, ctx.libs, ctx.libDeps, ctx.cmp, cmd);
    case TransformMv =>
      var c := Mv.Apply(cmd);
      r := Ok(c);
  }

  /** The rules are tried in order, the CMake rule itself is skipped, and the
      first that accepts the script's line rewrites it. */
  method ApplyCmakeLink(ctx: Context, cmd: Command) returns (r: Result<Command>)
    ensures r == RewriteCmakeLink(ctx, cmd)
  {
    var name := CmakeLink.ScriptName(cmd.bashcmd);
    if name.Err? {
      return Err(name.error);
    }
    var line := ctx.firstLine(cmd.curdir + "/" + name.value);
    if line.None? {
      return Err(LinkScriptUnreadable);
    }
    var linkCmd := Command(line.value, cmd.curdir);
    var i := 0;
    while i < |ctx.rules|
      invariant 0 <= i <= |ctx.rules|
      invariant FirstOther(ctx.rules, linkCmd) == FirstOther(ctx.rules[i..], linkCmd)
    {
      var t := ctx.rules[i];
      assert ctx.rules[i..][1..] == ctx.rules[i + 1..];
      if t == TransformCmakeLink {
        i := i + 1;
        continue;
      }
      if CanBeAppliedOn(t, linkCmd) {
        r := ApplyOther(t, ctx, linkCmd);
        return;
      }
      i := i + 1;
    }
    r := Err(NoTransformerForLinkScript);
  }

  /** `transformer.apply_transformation_on(cmd, container)` for any rule. */
  method Apply(t: Transformer, ctx: Context, cmd: Command) returns (r: Result<Command>)
    ensures r == Rewrite(t, ctx, cmd)
  {
    if t == TransformCmakeLink {
      r := ApplyCmakeLink(ctx, cmd);
    } else {
      r := ApplyOther(t, ctx, cmd);
    }
  }

  lemma {:induction false} PrefixChar(s: string, p: string, k: nat)
    requires StartsWith(s, p) && k < |p|
    ensures s[k] == p[k]
  {
    assert s[..|p|][k] == s[k];
  }

  /** The characters at positions 0, 5 and 9 that each rule's acceptance fixes. */
  lemma {:induction false} LeadingChars(t: Transformer, cmd: Command)
    requires CanBeAppliedOn(t, cmd)
    ensures t == TransformAr ==>
              var s := cmd.bashcmd;
              |s| > 0 && (s[0] == 'a' || (|s| > 9 && s[0] == '/' && s[5] == 'b' && s[9] == 'a'))
    ensures t == TransformMv ==>
              |cmd.bashcmd| > 0 && cmd.bashcmd[0] == 'm'
    ensures t == TransformMPICCCompile || t == TransformMPICCLink ==>
              var s := cmd.bashcmd;
              |s| > 9 && s[0] == '/' && s[5] == 'b' && s[9] == 'm'
    ensures t == TransformCmakeLink ==>
              var s := cmd.bashcmd;
              |s| > 9 && s[0] == '/' && (s[5] == 'l' || (s[5] == 'b' && s[9] == 'c'))
  {
    var s := cmd.bashcmd;
    match t
    case TransformAr =>
      ArChars(s);
    case TransformMv =>
      PrefixChar(s, "mv ", 0);
    case TransformMPICCCompile =>
      MpiccChars(s);
    case TransformMPICCLink =>
      MpiccChars(s);
    case TransformCmakeLink =>
      CmakeChars(s);
  }

  lemma {:induction false} ArChars(s: string)
    requires StartsWith(s, "ar ") || StartsWith(s, "/usr/bin/ar ")
    ensures |s| > 0 && (s[0] == 'a' || (|s| > 9 && s[0] == '/' && s[5] == 'b' && s[9] == 'a'))
  {
    if StartsWith(s, "ar ") {
      PrefixChar(s, "ar ", 0);
    } else {
      PrefixChar(s, "/usr/bin/ar ", 0);
      PrefixChar(s, "/usr/bin/ar ", 5);
      PrefixChar(s, "/usr/bin/ar ", 9);
    }
  }

  lemma {:induction false} MpiccChars(s: string)
    requires StartsWith(s, "/usr/bin/mpicc")
    ensures |s| > 9 && s[0] == '/' && s[5] == 'b' && s[9] == 'm'
  {
    PrefixChar(s, "/usr/bin/mpicc", 0);
    PrefixChar(s, "/usr/bin/mpicc", 5);
    PrefixChar(s, "/usr/bin/mpicc", 9);
  }

  lemma {:induction false} CmakeChars(s: string)
    requires StartsWith(s, CmakeLink.Prefixes[0]) || StartsWith(s, CmakeLink.Prefixes[1])
    ensures |s| > 9 && s[0] == '/' && (s[5] == 'l' || (s[5] == 'b' && s[9] == 'c'))
  {
    var p := if StartsWith(s, CmakeLink.Prefixes[0]) then CmakeLink.Prefixes[0] else CmakeLink.Prefixes[1];
    PrefixChar(s, p, 0);
    PrefixChar(s, p, 5);
    PrefixChar(s, p, 9);
  }

  /** No command is accepted by two different rules. */
  lemma {:induction false} Exclusive(t1: Transformer, t2: Transformer, cmd: Command)
    requires CanBeAppliedOn(t1, cmd) && CanBeAppliedOn(t2, cmd)
    ensures t1 == t2
  {
    LeadingChars(t1, cmd);
    LeadingChars(t2, cmd);
  }

  /** Since the rules exclude each other, the dispatch picks whichever listed
      rule accepts the command, whatever the order of the list. */
  lemma {:induction false} FirstOtherIsAnyAccepting(rules: seq<Transformer>, cmd: Command, t: Transformer)
    requires t in rules && t != TransformCmakeLink && CanBeAppliedOn(t, cmd)
    ensures FirstOther(rules, cmd) == Some(t)
  {
    var r := FirstOther(rules, cmd);
    Exclusive(r.value, t, cmd);
  }

  /** A script, named after the accepted prefix, that cannot be opened ends
      the rewrite with that error. */
  lemma {:induction false} CmakeUnreadable(ctx: Context, cmd: Command)
    requires CmakeLink.CanApply(cmd)
    requires ctx.firstLine(cmd.curdir + "/" + CmakeLink.ScriptArgument(cmd)).None?
    ensures RewriteCmakeLink(ctx, cmd) == Err(LinkScriptUnreadable)
  {
    CmakeLink.ScriptNameAfterPrefix(cmd);
  }

  /** When a listed rule other than itself accepts the script's first line, the
      CMake rule's result is that rule's rewrite of the line, run in the same
      directory. */
  lemma {:induction false} CmakeDelegates(ctx: Context, cmd: Command, line: string, t: Transformer)
    requires CmakeLink.CanApply(cmd)
    requires ctx.firstLine(cmd.curdir + "/" + CmakeLink.ScriptArgument(cmd)) == Some(line)
    requires t in ctx.rules && t != TransformCmakeLink && CanBeAppliedOn(t, Command(line, cmd.curdir))
    ensures RewriteCmakeLink(ctx, cmd) == Rewrite(t, ctx, Command(line, cmd.curdir))
  {
    CmakeLink.ScriptNameAfterPrefix(cmd);
    FirstOtherIsAnyAccepting(ctx.rules, Command(line, cmd.curdir), t);
  }

  /** When no listed rule accepts the script's first line, the run ends. */
  lemma {:induction false} CmakeNoRule(ctx: Context, cmd: Command, line: string)
    requires CmakeLink.CanApply(cmd)
    requires ctx.firstLine(cmd.curdir + "/" + CmakeLink.ScriptArgument(cmd)) == Some(line)
    requires forall t :: t in ctx.rules ==> !CanBeAppliedOn(t, Command(line, cmd.curdir))
    ensures RewriteCmakeLink(ctx, cmd) == Err(NoTransformerForLinkScript)
  {
    CmakeLink.ScriptNameAfterPrefix(cmd);
  }

  /** A link script whose first line is itself a CMake link-script command is
      never followed further: the run ends. */
  lemma {:induction false} NoNestedScripts(ctx: Context, cmd: Command, line: string)
    requires CmakeLink.CanApply(cmd)
    requires ctx.firstLine(cmd.curdir + "/" + CmakeLink.ScriptArgument(cmd)) == Some(line)
    requires CmakeLink.CanApply(Command(line, cmd.curdir))
    ensures RewriteCmakeLink(ctx, cmd) == Err(NoTransformerForLinkScript)
  {
    CmakeLink.ScriptNameAfterPrefix(cmd);
    var linkCmd := Command(line, cmd.curdir);
    match FirstOther(ctx.rules, linkCmd)
    case None =>
    case Some(t) =>
      Exclusive(t, TransformCmakeLink, linkCmd);
      assert false;
  }
}
