/** The container of recorded commands: the ordered command list, the
    registry of generated libraries the link rule consults, the rendering as
    a shell script, and the policy for executing the commands. */
module Make {
  import opened Strings
  import opened Patterns
  import opened Commands

  const LinkPrefix: string := "/usr/local/bin/llvm-link "

  /** A library name (or archive path) and the bitcode archive that provides it. */
  datatype Entry = Entry(key: string, path: string)

  /** `libs` maps library names to bitcode archive paths; `libDeps` maps an
      artifact's basename to the `.bc` inputs recorded for it. */
  datatype Registry = Registry(libs: map<string, string>, libDeps: map<string, seq<string>>)

  const EmptyRegistry := Registry(map[], map[])

  /** Group 1 of a `...lib<name>.a` match: the key "lib" + name, the archive
      path with ".bc" appended, joined to the command's directory. */
  function ArchiveEntry(m: Option<LibMatch>, curdir: string): seq<Entry> {
    match m
    case None => []
    case Some(g) => [Entry("lib" + g.name, PathJoin(curdir, g.path + ".bc"))]
  }

  /** Python's `p[:-3]`. */
  function DropLast3(p: string): string {
    if |p| >= 3 then p[..|p| - 3] else []
  }

  /** Group 1 of a `...lib<name>.a.bc` match: the path without its last three
      characters as key, the path joined to the command's directory. */
  function BitcodeEntry(m: Option<LibMatch>, curdir: string): seq<Entry> {
    match m
    case None => []
    case Some(g) => [Entry(DropLast3(g.path), PathJoin(curdir, g.path))]
  }

  /** `ar [-]?[cruqs]+ ([^ ]*lib([^ ]+)\.a)` on a command starting with "ar ". */
  function ArPart(cmd: Command): seq<Entry> {
    var s := cmd.bashcmd;
    if StartsWith(s, "ar ") then ArchiveEntry(SearchLib(s, 0, "ar", ArCreateFlags, false), cmd.curdir) else []
  }

  /** `llvm-link [-]?[o]+ ([^ ]*lib([^ ]+)\.a)` on an llvm-link command. */
  function LinkPart(cmd: Command): seq<Entry> {
    var s := cmd.bashcmd;
    if StartsWith(s, LinkPrefix) then ArchiveEntry(SearchLib(s, 0, "llvm-link", LinkOutputFlags, false), cmd.curdir)
    else []
  }

  /** `llvm-link [-]?[o]+ ([^ ]*lib([^ ]+)\.a.bc)` on an llvm-link command. */
  function BitcodePart(cmd: Command): seq<Entry> {
    var s := cmd.bashcmd;
    if StartsWith(s, LinkPrefix) then BitcodeEntry(SearchLib(s, 0, "llvm-link", LinkOutputFlags, true), cmd.curdir)
    else []
  }

  /** `ar [-]?[qc]+ ([^ ]*lib([^ ]+)\.a)` on a `/usr/bin/ar` or llvm-ar command. */
  function QuickArPart(cmd: Command): seq<Entry> {
    var s := cmd.bashcmd;
    if StartsWith(s, "/usr/bin/ar ") || StartsWith(s, "/usr/local/bin/llvm-ar ")
    then ArchiveEntry(SearchLib(s, 0, "ar", ArQuickFlags, false), cmd.curdir)
    else []
  }

  /** The entries the four library patterns yield, in the order they are tried. */
  function LibEntries(cmd: Command): seq<Entry> {
    ArPart(cmd) + LinkPart(cmd) + BitcodePart(cmd) + QuickArPart(cmd)
  }

  /** The library map after writing the entries in order; later writes win. */
  function AddEntries(libs: map<string, string>, es: seq<Entry>): (r: map<string, string>)
    ensures forall k :: k in libs ==> k in r
    ensures forall e :: e in es ==> e.key in r
    ensures forall k :: k in r ==> k in libs || exists e :: e in es && e.key == k
    decreases |es|
  {
    if es == [] then libs
    else
      var r := AddEntries(libs, es[..|es| - 1]);
      assert forall e :: e in es[..|es| - 1] ==> e in es;
      r[es[|es| - 1].key := es[|es| - 1].path]
  }

  /** The archive of the last entry written, if any: `new_lib`. */
  function LastPath(es: seq<Entry>): Option<string> {
    if es == [] then None else Some(es[|es| - 1].path)
  }

  /** Writing at most one more entry. */
  lemma {:induction false} AddEntriesSnoc(libs: map<string, string>, es: seq<Entry>, more: seq<Entry>)
    requires |more| <= 1
    ensures AddEntries(libs, es + more) ==
            if more == [] then AddEntries(libs, es) else AddEntries(libs, es)[more[0].key := more[0].path]
    ensures LastPath(es + more) == if more == [] then LastPath(es) else Some(more[0].path)
  {
    if more == [] {
      assert es + more == es;
    } else {
      assert (es + more)[..|es + more| - 1] == es;
    }
  }

  function Get(table: map<string, seq<string>>, k: string): seq<string> {
    if k in table then table[k] else []
  }

  /** The dependency table after appending `deps` to the list of `artifact`;
      an artifact without dependencies gets no entry. */
  function AddDeps(table: map<string, seq<string>>, artifact: string, deps: seq<string>): map<string, seq<string>> {
    if deps == [] then table else table[artifact := Get(table, artifact) + deps]
  }

  /** Appending one more dependency to the table of `deps` gives the table of
      `deps + [dep]`. */
  lemma {:induction false} AddDepsSnoc(table: map<string, seq<string>>, artifact: string, deps: seq<string>, dep: string)
    ensures AddDeps(table, artifact, deps + [dep])
         == var t := AddDeps(table, artifact, deps); t[artifact := Get(t, artifact) + [dep]]
  {
    var t := AddDeps(table, artifact, deps);
    if deps == [] {
      assert deps + [dep] == [dep];
    } else {
      assert Get(t, artifact) + [dep] == Get(table, artifact) + (deps + [dep]);
      assert t[artifact := Get(t, artifact) + [dep]] == table[artifact := Get(table, artifact) + (deps + [dep])];
    }
  }

  /** The `.bc` tokens other than the artifact, in their order. */
  function DepsOf(ts: seq<string>, artifact: string): (ds: seq<string>)
    ensures |ds| <= |ts|
    ensures forall d :: d in ds <==> d in ts && EndsWith(d, ".bc") && d != artifact
    decreases |ts|
  {
    if ts == [] then []
    else
      var t := ts[|ts| - 1];
      var prev := DepsOf(ts[..|ts| - 1], artifact);
      assert forall d :: d in ts <==> d in ts[..|ts| - 1] || d == t;
      if EndsWith(t, ".bc") && t != artifact then prev + [t] else prev
  }

  /** One more token adds itself when it is a `.bc` other than the artifact. */
  lemma {:induction false} DepsOfStep(ts: seq<string>, i: nat, artifact: string)
    requires i < |ts|
    ensures DepsOf(ts[..i + 1], artifact)
         == DepsOf(ts[..i], artifact) + (if EndsWith(ts[i], ".bc") && ts[i] != artifact then [ts[i]] else [])
  {
    assert ts[..i + 1][..i] == ts[..i];
    assert ts[..i + 1][i] == ts[i];
  }

  /** Each `.bc` token other than the artifact is recorded as often as it occurs. */
  lemma {:induction false} DepsOfCounts(ts: seq<string>, artifact: string)
    ensures forall d :: multiset(DepsOf(ts, artifact))[d]
                     == if EndsWith(d, ".bc") && d != artifact then multiset(ts)[d] else 0
    decreases |ts|
  {
    if ts != [] {
      DepsOfCounts(ts[..|ts| - 1], artifact);
      assert ts == ts[..|ts| - 1] + [ts[|ts| - 1]];
    }
  }

  /** The dependencies are recorded token by token, in the order of the tokens. */
  lemma {:induction false} DepsOfAppend(a: seq<string>, b: seq<string>, artifact: string)
    ensures DepsOf(a + b, artifact) == DepsOf(a, artifact) + DepsOf(b, artifact)
    decreases |b|
  {
    if b == [] {
      assert a + b == a;
    } else {
      var t, init := b[|b| - 1], b[..|b| - 1];
      assert (a + b)[|a + b| - 1] == t && (a + b)[..|a + b| - 1] == a + init;
      DepsOfAppend(a, init, artifact);
      if EndsWith(t, ".bc") && t != artifact {
        assert DepsOf(a, artifact) + DepsOf(init, artifact) + [t]
            == DepsOf(a, artifact) + (DepsOf(init, artifact) + [t]);
      }
    }
  }

  /** The registry after writing the entries `es` and recording the `.bc`
      tokens among `tokens` under the basename of the last entry's archive;
      without entries nothing changes. */
  function Record(reg: Registry, es: seq<Entry>, tokens: seq<string>): Registry {
    match LastPath(es)
    case None => reg
    case Some(newLib) =>
      var artifact := Basename(newLib);
      Registry(AddEntries(reg.libs, es), AddDeps(reg.libDeps, artifact, DepsOf(tokens, artifact)))
  }

  /** The registry after `register(cmd)`. */
  function Registered(reg: Registry, cmd: Command): Registry {
    Record(reg, LibEntries(cmd), Split(cmd.bashcmd))
  }

  /** The registry after registering the commands in order. */
  function RegisterAll(reg: Registry, cmds: seq<Command>): Registry
    decreases |cmds|
  {
    if cmds == [] then reg else Registered(RegisterAll(reg, cmds[..|cmds| - 1]), cmds[|cmds| - 1])
  }

  lemma {:induction false} RegisterAllSnoc(reg: Registry, cmds: seq<Command>, i: nat)
    requires i < |cmds|
    ensures RegisterAll(reg, cmds[..i + 1]) == Registered(RegisterAll(reg, cmds[..i]), cmds[i])
  {
    assert cmds[..i + 1][..i] == cmds[..i];
  }

  /** One more command registered extends the registry of the prefix. */
  lemma {:induction false} RegisterStep(cmds: seq<Command>, i: nat, before: Registry, after: Registry)
    requires i < |cmds|
    requires before == RegisterAll(EmptyRegistry, cmds[..i])
    requires after == Registered(before, cmds[i])
    ensures after == RegisterAll(EmptyRegistry, cmds[..i + 1])
  {
    RegisterAllSnoc(EmptyRegistry, cmds, i);
  }

  lemma {:induction false} SnocPrefix<T>(s: seq<T>, i: nat)
    requires i < |s|
    ensures s[..i + 1] == s[..i] + [s[i]]
  {
  }

  /** `transform` stores a command unchanged. */
  function Transform(cmd: Command): Command {
    cmd
  }

  /** `[transform(cmd) for cmd in cmds]`. */
  function TransformAll(cmds: seq<Command>): seq<Command> {
    if cmds == [] then [] else [Transform(cmds[0])] + TransformAll(cmds[1..])
  }

  /** Transforming stores every command unchanged. */
  lemma {:induction false} TransformAllKeeps(cmds: seq<Command>)
    ensures TransformAll(cmds) == cmds
  {
    if cmds != [] {
      TransformAllKeeps(cmds[1..]);
      assert [cmds[0]] + cmds[1..] == cmds;
    }
  }

  /** No artifact's recorded dependency is the artifact itself, and every one
      is a bitcode file. */
  predicate DepsWellFormed(table: map<string, seq<string>>) {
    forall k, d :: k in table && d in table[k] ==> EndsWith(d, ".bc") && d != k
  }

  /** Registration only adds: no library name or artifact disappears, and an
      artifact's dependency list only grows at its end. */
  predicate Extends(reg: Registry, reg': Registry) {
    && (forall k :: k in reg.libs ==> k in reg'.libs)
    && (forall k :: k in reg.libDeps ==> k in reg'.libDeps && reg.libDeps[k] <= reg'.libDeps[k])
  }

  lemma {:induction false} RecordExtends(reg: Registry, es: seq<Entry>, tokens: seq<string>)
    ensures Extends(reg, Record(reg, es, tokens))
    ensures DepsWellFormed(reg.libDeps) ==> DepsWellFormed(Record(reg, es, tokens).libDeps)
  {
    if es != [] {
      var artifact := Basename(es[|es| - 1].path);
      var deps := DepsOf(tokens, artifact);
      var t := AddDeps(reg.libDeps, artifact, deps);
      forall k | k in reg.libDeps ensures k in t && reg.libDeps[k] <= t[k] {
        if k == artifact && deps != [] {
          assert t[k] == reg.libDeps[k] + deps;
        }
      }
      if DepsWellFormed(reg.libDeps) {
        forall k, d | k in t && d in t[k] ensures EndsWith(d, ".bc") && d != k {
          if k == artifact && deps != [] {
            assert d in Get(reg.libDeps, k) || d in deps;
          }
        }
      }
    }
  }

  lemma {:induction false} RegisteredExtends(reg: Registry, cmd: Command)
    ensures Extends(reg, Registered(reg, cmd))
    ensures DepsWellFormed(reg.libDeps) ==> DepsWellFormed(Registered(reg, cmd).libDeps)
  {
    RecordExtends(reg, LibEntries(cmd), Split(cmd.bashcmd));
  }

  /** Registering a list of commands keeps the well-formedness of the
      dependency table and only extends the registry. */
  lemma {:induction false} RegisterAllExtends(reg: Registry, cmds: seq<Command>)
    ensures Extends(reg, RegisterAll(reg, cmds))
    ensures DepsWellFormed(reg.libDeps) ==> DepsWellFormed(RegisterAll(reg, cmds).libDeps)
    decreases |cmds|
  {
    if cmds != [] {
      var mid := RegisterAll(reg, cmds[..|cmds| - 1]);
      RegisterAllExtends(reg, cmds[..|cmds| - 1]);
      RegisteredExtends(mid, cmds[|cmds| - 1]);
    }
  }

  /** Registering `a` and then `b` is registering `a + b`. */
  lemma {:induction false} RegisterAllAppend(reg: Registry, a: seq<Command>, b: seq<Command>)
    ensures RegisterAll(reg, a + b) == RegisterAll(RegisterAll(reg, a), b)
    decreases |b|
  {
    if b == [] {
      assert a + b == a;
    } else {
      assert (a + b)[..|a + b| - 1] == a + b[..|b| - 1];
      RegisterAllAppend(reg, a, b[..|b| - 1]);
    }
  }

  /** An `ar` command whose create flags name an archive `<dir>lib<name>.a`
      registers "lib" + name for `<dir>lib<name>.a.bc` in the command's
      directory. */
  lemma {:induction false} ArRegistration(reg: Registry, cmd: Command, g: LibMatch)
    requires StartsWith(cmd.bashcmd, "ar ")
    requires SearchLib(cmd.bashcmd, 0, "ar", ArCreateFlags, false) == Some(g)
    ensures |g.path| >= |g.name| + 5
    ensures g.path == g.path[..|g.path| - |g.name| - 5] + "lib" + g.name + ".a"
    ensures var r := Registered(reg, cmd);
            "lib" + g.name in r.libs && r.libs["lib" + g.name] == PathJoin(cmd.curdir, g.path + ".bc")
  {
    ArShape(cmd.bashcmd, g);
    ArEntries(cmd);
    var e := Entry("lib" + g.name, PathJoin(cmd.curdir, g.path + ".bc"));
    assert [] + [e] == [e];
    RecordLast(reg, [], e, Split(cmd.bashcmd));
  }

  lemma {:induction false} ArShape(s: string, g: LibMatch)
    requires SearchLib(s, 0, "ar", ArCreateFlags, false) == Some(g)
    ensures |g.path| >= |g.name| + 5
    ensures g.path == g.path[..|g.path| - |g.name| - 5] + "lib" + g.name + ".a"
  {
    assert LibShaped(g.path, g.name, false) by {
      var m, q := SearchLibFound(s, 0, "ar", ArCreateFlags, false);
      LibGroupShape(s, q, false);
    }
    assert g.path[..|g.path| - 2 + 2] == g.path;
  }

  /** For an `ar ` command only the first pattern is tried. */
  lemma {:induction false} ArEntries(cmd: Command)
    requires StartsWith(cmd.bashcmd, "ar ")
    ensures LibEntries(cmd) == ArchiveEntry(SearchLib(cmd.bashcmd, 0, "ar", ArCreateFlags, false), cmd.curdir)
  {
    var s := cmd.bashcmd;
    assert s[0] == 'a';
    assert !StartsWith(s, LinkPrefix) by { assert LinkPrefix[0] == '/'; }
    assert !StartsWith(s, "/usr/bin/ar ") by { assert "/usr/bin/ar "[0] == '/'; }
    assert !StartsWith(s, "/usr/local/bin/llvm-ar ") by { assert "/usr/local/bin/llvm-ar "[0] == '/'; }
  }

  /** An llvm-link command writing `<dir>lib<name>.a<c>bc` registers that path
      without its last three characters for the path in the command's
      directory. */
  lemma {:induction false} BitcodeLinkRegistration(reg: Registry, cmd: Command, g: LibMatch)
    requires StartsWith(cmd.bashcmd, LinkPrefix)
    requires SearchLib(cmd.bashcmd, 0, "llvm-link", LinkOutputFlags, true) == Some(g)
    ensures |g.path| >= |g.name| + 8 && EndsWith(g.path, "bc")
    ensures DropLast3(g.path) == g.path[..|g.path| - |g.name| - 8] + "lib" + g.name + ".a"
    ensures var r := Registered(reg, cmd);
            DropLast3(g.path) in r.libs && r.libs[DropLast3(g.path)] == PathJoin(cmd.curdir, g.path)
  {
    var s := cmd.bashcmd;
    BitcodeShape(s, g);
    var e := Entry(DropLast3(g.path), PathJoin(cmd.curdir, g.path));
    LinkEntries(cmd);
    RecordLast(reg, ArchiveEntry(SearchLib(s, 0, "llvm-link", LinkOutputFlags, false), cmd.curdir), e, Split(s));
  }

  lemma {:induction false} BitcodeShape(s: string, g: LibMatch)
    requires SearchLib(s, 0, "llvm-link", LinkOutputFlags, true) == Some(g)
    ensures |g.path| >= |g.name| + 8 && EndsWith(g.path, "bc")
    ensures DropLast3(g.path) == g.path[..|g.path| - |g.name| - 8] + "lib" + g.name + ".a"
  {
    assert LibShaped(g.path, g.name, true) by {
      var m, q := SearchLibFound(s, 0, "llvm-link", LinkOutputFlags, true);
      LibGroupShape(s, q, true);
    }
  }

  /** For an llvm-link command only the two llvm-link patterns are tried. */
  lemma {:induction false} LinkEntries(cmd: Command)
    requires StartsWith(cmd.bashcmd, LinkPrefix)
    ensures LibEntries(cmd)
         == ArchiveEntry(SearchLib(cmd.bashcmd, 0, "llvm-link", LinkOutputFlags, false), cmd.curdir)
          + BitcodeEntry(SearchLib(cmd.bashcmd, 0, "llvm-link", LinkOutputFlags, true), cmd.curdir)
  {
    var s := cmd.bashcmd;
    var archive := ArchiveEntry(SearchLib(s, 0, "llvm-link", LinkOutputFlags, false), cmd.curdir);
    var bitcode := BitcodeEntry(SearchLib(s, 0, "llvm-link", LinkOutputFlags, true), cmd.curdir);
    LinkIsNotAr(s);
    assert ArPart(cmd) == [] && QuickArPart(cmd) == [];
    assert LinkPart(cmd) == archive && BitcodePart(cmd) == bitcode;
    assert [] + archive + bitcode + [] == archive + bitcode;
  }

  /** A line starting with the llvm-link program starts with none of the
      archiver prefixes. */
  lemma {:induction false} LinkIsNotAr(s: string)
    requires StartsWith(s, LinkPrefix)
    ensures !StartsWith(s, "ar ") && !StartsWith(s, "/usr/bin/ar ") && !StartsWith(s, "/usr/local/bin/llvm-ar ")
  {
    assert s[..|LinkPrefix|] == LinkPrefix;
    assert s[0] == '/' && s[5] == 'l' && s[20] == 'l' by {
      assert LinkPrefix[0] == '/' && LinkPrefix[5] == 'l' && LinkPrefix[20] == 'l';
    }
    assert "/usr/bin/ar "[5] == 'b';
    assert "/usr/local/bin/llvm-ar "[20] == 'a';
  }

  /** The last entry written wins. */
  lemma {:induction false} RecordLast(reg: Registry, first: seq<Entry>, e: Entry, tokens: seq<string>)
    ensures var r := Record(reg, first + [e], tokens);
            e.key in r.libs && r.libs[e.key] == e.path
  {
    AddEntriesSnoc(reg.libs, first, [e]);
  }

  /** `linesep.join(str(cmd) for cmd in cmds)`, with `str` given as `show`. */
  function Script(cmds: seq<Command>, show: Command -> string): string {
    Join(Lines(cmds, show), "\n")
  }

  function Lines(cmds: seq<Command>, show: Command -> string): (ls: seq<string>)
    ensures |ls| == |cmds| && forall i :: 0 <= i < |cmds| ==> ls[i] == show(cmds[i])
  {
    seq(|cmds|, i requires 0 <= i < |cmds| => show(cmds[i]))
  }

  /** The script has one line per command, in order, when no command's text
      spans several lines. */
  lemma {:induction false} ScriptLines(cmds: seq<Command>, show: Command -> string)
    requires cmds != []
    requires forall i :: 0 <= i < |cmds| ==> '\n' !in show(cmds[i])
    ensures SplitOn(Script(cmds, show), '\n') == Lines(cmds, show)
  {
    assert "\n" == ['\n'];
    SplitOnJoin(Lines(cmds, show), '\n');
  }

  /** The commands run, the failures reported on the error stream, and the
      command whose failure raised `OSError`. */
  datatype Execution = Execution(executed: seq<Command>, reported: seq<Command>, failure: Option<Command>)

  /** The execution of `cmds`: commands without effect are skipped; a
      non-zero exit code is reported and the run goes on when `keepGoing`,
      and otherwise ends the run with a failure. */
  function Execute(cmds: seq<Command>, keepGoing: bool, hasEffects: Command -> bool,
                   exitCode: Command -> int): Execution
    decreases |cmds|
  {
    if cmds == [] then Execution([], [], None)
    else
      var prev := Execute(cmds[..|cmds| - 1], keepGoing, hasEffects, exitCode);
      var c := cmds[|cmds| - 1];
      if prev.failure.Some? || !hasEffects(c) then prev
      else if exitCode(c) == 0 then prev.(executed := prev.executed + [c])
      else if keepGoing then prev.(executed := prev.executed + [c], reported := prev.reported + [c])
      else prev.(executed := prev.executed + [c], failure := Some(c))
  }

  /** The commands with effects, in order. */
  function Effective(cmds: seq<Command>, hasEffects: Command -> bool): (r: seq<Command>)
    ensures forall c :: c in r <==> c in cmds && hasEffects(c)
    decreases |cmds|
  {
    if cmds == [] then []
    else
      var c := cmds[|cmds| - 1];
      var prev := Effective(cmds[..|cmds| - 1], hasEffects);
      assert forall d :: d in cmds <==> d in cmds[..|cmds| - 1] || d == c;
      if hasEffects(c) then prev + [c] else prev
  }

  /** Each command with effects is considered as often as it occurs. */
  lemma {:induction false} EffectiveCounts(cmds: seq<Command>, hasEffects: Command -> bool)
    ensures forall c :: multiset(Effective(cmds, hasEffects))[c] == if hasEffects(c) then multiset(cmds)[c] else 0
    decreases |cmds|
  {
    if cmds != [] {
      EffectiveCounts(cmds[..|cmds| - 1], hasEffects);
      assert cmds == cmds[..|cmds| - 1] + [cmds[|cmds| - 1]];
    }
  }

  /** The commands with effects are taken one by one, in the order of the list. */
  lemma {:induction false} EffectiveAppend(a: seq<Command>, b: seq<Command>, hasEffects: Command -> bool)
    ensures Effective(a + b, hasEffects) == Effective(a, hasEffects) + Effective(b, hasEffects)
    decreases |b|
  {
    if b == [] {
      assert a + b == a;
    } else {
      EffectiveAppend(a, b[..|b| - 1], hasEffects);
      assert (a + b)[..|a + b| - 1] == a + b[..|b| - 1];
    }
  }

  /** Once the run has failed, later commands change nothing. */
  lemma {:induction false} FailureEndsRun(cmds: seq<Command>, k: nat, keepGoing: bool,
                                          hasEffects: Command -> bool, exitCode: Command -> int)
    requires k <= |cmds| && Execute(cmds[..k], keepGoing, hasEffects, exitCode).failure.Some?
    ensures Execute(cmds, keepGoing, hasEffects, exitCode) == Execute(cmds[..k], keepGoing, hasEffects, exitCode)
    decreases |cmds| - k
  {
    if k == |cmds| {
      assert cmds[..k] == cmds;
    } else {
      assert cmds[..k + 1][..k] == cmds[..k];
      FailureEndsRun(cmds, k + 1, keepGoing, hasEffects, exitCode);
    }
  }

  /** With `keepGoing` every command with effects runs, in order, the failing
      ones are reported, and nothing is raised. */
  lemma {:induction false} KeepGoingRunsAll(cmds: seq<Command>, hasEffects: Command -> bool, exitCode: Command -> int)
    ensures var r := Execute(cmds, true, hasEffects, exitCode);
            && r.failure.None?
            && r.executed == Effective(cmds, hasEffects)
            && (forall c :: c in r.reported <==> c in r.executed && exitCode(c) != 0)
    decreases |cmds|
  {
    if cmds != [] {
      KeepGoingRunsAll(cmds[..|cmds| - 1], hasEffects, exitCode);
    }
  }

  /** Without `keepGoing` nothing is reported: either every command with
      effects ran and succeeded, or the commands with effects ran in order up
      to the first failing one, which is the failure. */
  lemma {:induction false} FailFast(cmds: seq<Command>, hasEffects: Command -> bool, exitCode: Command -> int)
    ensures var r := Execute(cmds, false, hasEffects, exitCode);
            && r.reported == []
            && r.executed <= Effective(cmds, hasEffects)
            && (r.failure.None? ==> r.executed == Effective(cmds, hasEffects))
            && (forall i :: 0 <= i < |r.executed| - 1 ==> exitCode(r.executed[i]) == 0)
            && (r.failure.None? ==> forall c :: c in r.executed ==> exitCode(c) == 0)
            && (r.failure.Some? ==>
                  r.executed != [] && r.failure.value == r.executed[|r.executed| - 1]
                  && exitCode(r.failure.value) != 0)
  {
    FailFastQuiet(cmds, hasEffects, exitCode);
    FailFastRan(cmds, hasEffects, exitCode);
    FailFastStops(cmds, hasEffects, exitCode);
  }

  lemma {:induction false} FailFastQuiet(cmds: seq<Command>, hasEffects: Command -> bool, exitCode: Command -> int)
    ensures Execute(cmds, false, hasEffects, exitCode).reported == []
    decreases |cmds|
  {
    if cmds != [] {
      FailFastQuiet(cmds[..|cmds| - 1], hasEffects, exitCode);
    }
  }

  lemma {:induction false} FailFastRan(cmds: seq<Command>, hasEffects: Command -> bool, exitCode: Command -> int)
    ensures var r := Execute(cmds, false, hasEffects, exitCode);
            && r.executed <= Effective(cmds, hasEffects)
            && (r.failure.None? ==> r.executed == Effective(cmds, hasEffects))
    decreases |cmds|
  {
    if cmds != [] {
      FailFastRan(cmds[..|cmds| - 1], hasEffects, exitCode);
    }
  }

  lemma {:induction false} FailFastStops(cmds: seq<Command>, hasEffects: Command -> bool, exitCode: Command -> int)
    ensures var r := Execute(cmds, false, hasEffects, exitCode);
            && (forall i :: 0 <= i < |r.executed| - 1 ==> exitCode(r.executed[i]) == 0)
            && (r.failure.None? ==> forall c :: c in r.executed ==> exitCode(c) == 0)
            && (r.failure.Some? ==>
                  r.executed != [] && r.failure.value == r.executed[|r.executed| - 1]
                  && exitCode(r.failure.value) != 0)
    decreases |cmds|
  {
    if cmds != [] {
      FailFastStops(cmds[..|cmds| - 1], hasEffects, exitCode);
    }
  }

  /** The MakeScript object: the commands in order and the registry. */
  class MakeScript {
    var cmds: seq<Command>
    var libs: map<string, string>
    var libDeps: map<string, seq<string>>

    function Reg(): Registry
      reads this
    {
      Registry(libs, libDeps)
    }

    constructor()
      ensures cmds == [] && libs == map[] && libDeps == map[]
    {
      cmds := [];
      libs := map[];
      libDeps := map[];
    }

    /** `register(cmd)`: the four pattern writes, then the dependency loop. */
    method Register(cmd: Command)
      modifies this
      ensures cmds == old(cmds)
      ensures Reg() == Registered(old(Reg()), cmd)
    {
      var newLib := WriteLibraries(cmd);
      if newLib.None? {
        return;
      }
      var artifact := Basename(newLib.value);
      RecordDeps(artifact, Split(cmd.bashcmd));
    }

    /** The four pattern writes of `register`: the last archive written, if any. */
    method WriteLibraries(cmd: Command) returns (newLib: Option<string>)
      modifies this
      ensures cmds == old(cmds) && libDeps == old(libDeps)
      ensures libs == AddEntries(old(libs), LibEntries(cmd))
      ensures newLib == LastPath(LibEntries(cmd))
    {
      var s := cmd.bashcmd;
      newLib := None;
      if StartsWith(s, "ar ") {
        var m := SearchLib(s, 0, "ar", ArCreateFlags, false);
        newLib := WriteEntry(ArchiveEntry(m, cmd.curdir), newLib);
      }
      AddEntriesSnoc(old(libs), [], ArPart(cmd));
      ghost var es := ArPart(cmd);
      if StartsWith(s, LinkPrefix) {
        var m := SearchLib(s, 0, "llvm-link", LinkOutputFlags, false);
        newLib := WriteEntry(ArchiveEntry(m, cmd.curdir), newLib);
      }
      AddEntriesSnoc(old(libs), es, LinkPart(cmd));
      es := es + LinkPart(cmd);
      if StartsWith(s, LinkPrefix) {
        var m := SearchLib(s, 0, "llvm-link", LinkOutputFlags, true);
        newLib := WriteEntry(BitcodeEntry(m, cmd.curdir), newLib);
      }
      AddEntriesSnoc(old(libs), es, BitcodePart(cmd));
      es := es + BitcodePart(cmd);
      if StartsWith(s, "/usr/bin/ar ") || StartsWith(s, "/usr/local/bin/llvm-ar ") {
        var m := SearchLib(s, 0, "ar", ArQuickFlags, false);
        newLib := WriteEntry(ArchiveEntry(m, cmd.curdir), newLib);
      }
      AddEntriesSnoc(old(libs), es, QuickArPart(cmd));
    }

    /** One pattern's write: for a match, `libs[lib] = new_lib`, and `new_lib`
        becomes the archive written. */
    method WriteEntry(es: seq<Entry>, newLib: Option<string>) returns (r: Option<string>)
      requires |es| <= 1
      modifies this
      ensures cmds == old(cmds) && libDeps == old(libDeps)
      ensures libs == if es == [] then old(libs) else old(libs)[es[0].key := es[0].path]
      ensures r == if es == [] then newLib else Some(es[0].path)
    {
      r := newLib;
      if es != [] {
        libs := libs[es[0].key := es[0].path];
        r := Some(es[0].path);
      }
    }

    /** The dependency loop of `register`: each `.bc` token other than the
        artifact is appended to the artifact's list. */
    method RecordDeps(artifact: string, tokens: seq<string>)
      modifies this
      ensures cmds == old(cmds) && libs == old(libs)
      ensures libDeps == AddDeps(old(libDeps), artifact, DepsOf(tokens, artifact))
    {
      var i := 0;
      while i < |tokens|
        invariant 0 <= i <= |tokens|
        invariant cmds == old(cmds) && libs == old(libs)
        invariant libDeps == AddDeps(old(libDeps), artifact, DepsOf(tokens[..i], artifact))
      {
        var dep := tokens[i];
        ghost var before := DepsOf(tokens[..i], artifact);
        DepsOfStep(tokens, i, artifact);
        if !EndsWith(dep, ".bc") || artifact == dep {
          assert DepsOf(tokens[..i + 1], artifact) == before + [] == before;
        }
        if !EndsWith(dep, ".bc") {
          i := i + 1;
          continue;
        }
        if artifact == dep {
          i := i + 1;
          continue;
        }
        AddDepsSnoc(old(libDeps), artifact, before, dep);
        libDeps := libDeps[artifact := Get(libDeps, artifact) + [dep]];
        i := i + 1;
      }
      assert tokens[..|tokens|] == tokens;
    }

    /** The constructor from a parsed trace: each command is transformed,
        appended, then registered, in input order. */
    static method FromCommands(parsed: seq<Command>) returns (m: MakeScript)
      ensures fresh(m)
      ensures m.cmds == parsed && m.Reg() == RegisterAll(EmptyRegistry, parsed)
    {
      m := new MakeScript();
      var i := 0;
      while i < |parsed|
        invariant 0 <= i <= |parsed|
        invariant fresh(m)
        invariant m.cmds == parsed[..i] && m.Reg() == RegisterAll(EmptyRegistry, parsed[..i])
      {
        ghost var before := m.Reg();
        var transformed := Transform(parsed[i]);
        m.cmds := m.cmds + [transformed];
        m.Register(transformed);
        RegisterStep(parsed, i, before, m.Reg());
        SnocPrefix(parsed, i);
        i := i + 1;
      }
      assert parsed[..|parsed|] == parsed;
    }

    /** `str(self)`: the commands rendered one per line. */
    function ToScript(show: Command -> string): string
      reads this
    {
      Script(cmds, show)
    }

    /** `execute_cmds(keep_going)`, with each command's effect test and exit
        code given. */
    method ExecuteCmds(keepGoing: bool, hasEffects: Command -> bool, exitCode: Command -> int)
      returns (r: Execution)
      ensures r == Execute(cmds, keepGoing, hasEffects, exitCode)
    {
      r := Execution([], [], None);
      var i := 0;
      while i < |cmds|
        invariant 0 <= i <= |cmds|
        invariant r == Execute(cmds[..i], keepGoing, hasEffects, exitCode) && r.failure.None?
      {
        var cmd := cmds[i];
        assert cmds[..i + 1][..i] == cmds[..i];
        if !hasEffects(cmd) {
          i := i + 1;
          continue;
        }
        var code := exitCode(cmd);
        r := r.(executed := r.executed + [cmd]);
        if code != 0 {
          if keepGoing {
            r := r.(reported := r.reported + [cmd]);
          } else {
            r := r.(failure := Some(cmd));
            FailureEndsRun(cmds, i + 1, keepGoing, hasEffects, exitCode);
            return;
          }
        }
        i := i + 1;
      }
      assert cmds[..|cmds|] == cmds;
    }

    /** `append_cmd(cmd)`: register, then store the transformed command. */
    method AppendCmd(cmd: Command)
      modifies this
      ensures cmds == old(cmds) + [cmd]
      ensures Reg() == Registered(old(Reg()), cmd)
    {
      Register(cmd);
      cmds := cmds + [Transform(cmd)];
    }

    /** `append_cmdlist(cmds)`: register every command, then store them all,
        in order. */
    method AppendCmdList(newCmds: seq<Command>)
      modifies this
      ensures cmds == old(cmds) + newCmds
      ensures Reg() == RegisterAll(old(Reg()), newCmds)
    {
      var i := 0;
      while i < |newCmds|
        invariant 0 <= i <= |newCmds|
        invariant cmds == old(cmds) && Reg() == RegisterAll(old(Reg()), newCmds[..i])
      {
        Register(newCmds[i]);
        RegisterAllSnoc(old(Reg()), newCmds, i);
        i := i + 1;
      }
      assert newCmds[..|newCmds|] == newCmds;
      TransformAllKeeps(newCmds);
      cmds := cmds + TransformAll(newCmds);
    }
  }
}
