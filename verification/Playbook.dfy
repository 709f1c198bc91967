/**
 `PlaybookRunner` of rrmngmnt/playbook_runner.py: a run makes a temporary directory on the host,
 uploads files into it while it builds the command line that names them, runs the command, and
 removes the directory whatever happened.
 */
module Playbook {
  import opened Wrappers
  import opened Text

  // ---------------------------------------------------------------- the remote file system

  datatype Fs = Fs(files: map<string, string>, dirs: set<string>)

  /** `path` is `dir` or lies below it. */
  predicate Under(path: string, dir: string) {
    path == dir || dir + "/" <= path
  }

  /** `rm -rf dir` */
  function Cleared(fs: Fs, dir: string): Fs {
    Fs(map p | p in fs.files && !Under(p, dir) :: fs.files[p], set p | p in fs.dirs && !Under(p, dir))
  }

  predicate NothingUnder(fs: Fs, dir: string) {
    (forall p :: p in fs.files ==> !Under(p, dir)) && (forall p :: p in fs.dirs ==> !Under(p, dir))
  }

  /** `os.path.basename` */
  function Basename(path: string): string
    decreases |path|
  {
    if path == "" || path[|path| - 1] == '/' then "" else Basename(path[..|path| - 1]) + [path[|path| - 1]]
  }

  /** What stands behind the last slash, or everything if there is none. */
  lemma {:induction false} BasenameIsLastPart(folder: string, name: string)
    requires '/' !in name
    ensures Basename(name) == name && Basename(folder + "/" + name) == name
    decreases |name|
  {
    var path := folder + "/" + name;
    if name != "" {
      var front := name[..|name| - 1];
      BasenameIsLastPart(folder, front);
      assert name == front + [name[|name| - 1]];
      assert path[..|path| - 1] == folder + "/" + front;
    }
  }

  /** `os.path.join(dir, name)` for a directory without a trailing slash and a plain name. */
  function InDir(dir: string, name: string): string {
    dir + ("/" + name)
  }

  /** Everything outside the runner: local regular files (so no base name is "", "." or ".."),
   remote paths that cannot be written, and what a command does. */
  datatype World = World(local: map<string, string>, refuses: set<string>, exec: (Fs, seq<string>) -> Execution)

  datatype Results = Results(rc: int, out: string, err: string)

  /** The file system a command leaves, and its results unless the connection broke. */
  datatype Execution = Execution(fs: Fs, results: Option<Results>)

  // ---------------------------------------------------------------- arguments and what they ask for

  /** Arguments of `run`; "" and [] and None stand for what Python takes as not given. */
  datatype Arguments = Arguments(
    playbook: string, extraVars: Option<string>, varsFiles: seq<string>, inventory: string, verbose: int,
    checkMode: bool, sshArgs: seq<string>, uploadPlaybook: bool, vaultFile: string)

  const BINARY := "ansible-playbook"
  const EXTRA_VARS := "extra_vars.json"
  const INVENTORY := "inventory"
  const DEFAULT_INVENTORY := "localhost ansible_connection=local"
  const VARS_PREFIX := "-e@"
  const VAULT_PREFIX := "--vault-password-file="
  const SSH_PREFIX := "--ssh-common-args="

  /** One append to the command line: a plain word, or a prefix and the path of a file put in the directory first. */
  datatype Action =
    | Word(word: string)
    | Upload(prefix: string, source: string)
    | Create(prefix: string, name: string, content: string)

  function Verbosity(n: int): (s: string)
    ensures |s| == (if n > 0 then n else 0) && forall i :: 0 <= i < |s| ==> s[i] == 'v'
  {
    if n <= 0 then "" else "v" + Verbosity(n - 1)
  }

  function Uploads(sources: seq<string>): seq<Action> {
    if sources == [] then [] else [Upload(VARS_PREFIX, sources[0])] + Uploads(sources[1..])
  }

  /** What a run asks for, in order; each stage ends with the next one. */
  function Plan(a: Arguments): seq<Action> {
    (if a.extraVars.Some? then [Create(VARS_PREFIX, EXTRA_VARS, a.extraVars.value)] else [])
    + (Uploads(a.varsFiles) + FromVault(a))
  }

  function FromVault(a: Arguments): seq<Action> {
    (if a.vaultFile != "" then [Upload(VAULT_PREFIX, a.vaultFile)] else []) + FromInventory(a)
  }

  function FromInventory(a: Arguments): seq<Action> {
    [Word("-i")] +
    ([if a.inventory != "" then Upload("", a.inventory) else Create("", INVENTORY, DEFAULT_INVENTORY)]
     + FromVerbosity(a))
  }

  function FromVerbosity(a: Arguments): seq<Action> {
    [Word("-" + Verbosity(a.verbose))] + FromCheck(a)
  }

  function FromCheck(a: Arguments): seq<Action> {
    (if a.checkMode then [Word("--check")] else []) + FromSsh(a)
  }

  function FromSsh(a: Arguments): seq<Action> {
    (if a.sshArgs != [] then [Word(SSH_PREFIX + Join(a.sshArgs, " "))] else []) + [PlaybookAction(a)]
  }

  function PlaybookAction(a: Arguments): Action {
    if a.uploadPlaybook then Upload("", a.playbook) else Word(a.playbook)
  }

  function NameOf(x: Action): string {
    match x
    case Word(_) => ""
    case Upload(_, source) => Basename(source)
    case Create(_, name, _) => name
  }

  /** The word an action appends. */
  function WordOf(x: Action, dir: string): string {
    match x
    case Word(word) => word
    case Upload(prefix, _) => prefix + InDir(dir, NameOf(x))
    case Create(prefix, _, _) => prefix + InDir(dir, NameOf(x))
  }

  predicate Possible(x: Action, w: World, dir: string) {
    match x
    case Word(_) => true
    case Upload(_, source) => source in w.local && InDir(dir, NameOf(x)) !in w.refuses
    case Create(_, _, _) => InDir(dir, NameOf(x)) !in w.refuses
  }

  /** The content an action is to put on the host. */
  function ContentOf(x: Action, w: World): string
    requires x.Upload? ==> x.source in w.local
  {
    match x
    case Word(_) => ""
    case Upload(_, source) => w.local[source]
    case Create(_, _, content) => content
  }

  // ---------------------------------------------------------------- performing

  /** File system, command line, and whether nothing has raised so far. */
  datatype Progress = Progress(fs: Fs, cmd: seq<string>, ok: bool)

  function Perform(x: Action, w: World, dir: string, p: Progress): Progress {
    if !Possible(x, w, dir) then p.(ok := false)
    else if x.Word? then p.(cmd := p.cmd + [x.word])
    else p.(fs := p.fs.(files := p.fs.files[InDir(dir, NameOf(x)) := ContentOf(x, w)]),
            cmd := p.cmd + [WordOf(x, dir)])
  }

  function PerformAll(xs: seq<Action>, w: World, dir: string, p: Progress): Progress
    decreases |xs|
  {
    if xs == [] || !p.ok then p else PerformAll(xs[1..], w, dir, Perform(xs[0], w, dir, p))
  }

  lemma PerformCons(x: Action, rest: seq<Action>, w: World, dir: string, p: Progress)
    requires p.ok
    ensures PerformAll([x] + rest, w, dir, p) == PerformAll(rest, w, dir, Perform(x, w, dir, p))
    ensures !Perform(x, w, dir, p).ok ==> PerformAll([x] + rest, w, dir, p) == Perform(x, w, dir, p)
  {
    assert ([x] + rest)[1..] == rest;
  }

  // ---------------------------------------------------------------- a run

  /** How a run ends: the file system, the command line, the file system the command met, and its results. */
  datatype Ending = Ending(fs: Fs, cmd: seq<string>, met: Option<Fs>, results: Option<Results>)

  function RunSpec(a: Arguments, w: World, dir: string, fs: Fs, cmd: seq<string>): Ending {
    var cleared := Cleared(fs, dir);
    if "/tmp" !in cleared.dirs then Ending(cleared, cmd, None, None)
    else
      var p := PerformAll(Plan(a), w, dir, Progress(cleared.(dirs := cleared.dirs + {dir}), cmd, true));
      if !p.ok then Ending(Cleared(p.fs, dir), p.cmd, None, None)
      else
        var x := w.exec(p.fs, p.cmd);
        Ending(Cleared(x.fs, dir), p.cmd, Some(p.fs), x.results)
  }

  class Remote {
    var fs: Fs
    var met: Option<Fs> // what the playbook command found when it started

    constructor (fs: Fs)
      ensures this.fs == fs && met == None
    {
      this.fs, met := fs, None;
    }
  }

  class PlaybookRunner {
    const remote: Remote
    const shortUuid: string
    var tmpExecDir: Option<string>
    var cmd: seq<string>
    var results: Option<Results>

    constructor (remote: Remote, shortUuid: string)
      ensures this.remote == remote && this.shortUuid == shortUuid
      ensures tmpExecDir == None && cmd == [BINARY] && results == None
    {
      this.remote, this.shortUuid := remote, shortUuid;
      tmpExecDir, cmd, results := None, [BINARY], None;
    }

    function ExecDir(): string {
      "/tmp/" + shortUuid
    }

    /** `fs.put`: a directory at the destination would take the file inside. */
    method UploadFile(source: string, w: World) returns (path: Option<string>)
      requires OnlyFilesInside()
      modifies remote`fs
      ensures var x := Upload("", source); var dir := tmpExecDir.value;
              if Possible(x, w, dir)
              then path == Some(InDir(dir, Basename(source)))
                   && var files := old(remote.fs.files)[InDir(dir, Basename(source)) := w.local[source]];
                      remote.fs == old(remote.fs).(files := files)
              else path == None && remote.fs == old(remote.fs)
    {
      var filePathOnHost := InDir(tmpExecDir.value, Basename(source));
      var destination := filePathOnHost;
      NoDirectoryInTheWay(Basename(source));
      if destination in remote.fs.dirs {
        destination := InDir(destination, Basename(source));
      }
      if source !in w.local || destination in w.refuses {
        return None;
      }
      remote.fs := remote.fs.(files := remote.fs.files[destination := w.local[source]]);
      return Some(filePathOnHost);
    }

    /** `fs.create_file` into the temporary directory. */
    method CreateFile(name: string, content: string, w: World) returns (path: Option<string>)
      requires tmpExecDir.Some?
      modifies remote`fs
      ensures var dir := tmpExecDir.value;
              if InDir(dir, name) !in w.refuses
              then path == Some(InDir(dir, name))
                   && remote.fs == old(remote.fs).(files := old(remote.fs.files)[InDir(dir, name) := content])
              else path == None && remote.fs == old(remote.fs)
    {
      var destination := InDir(tmpExecDir.value, name);
      if destination in w.refuses {
        return None;
      }
      remote.fs := remote.fs.(files := remote.fs.files[destination := content]);
      return Some(destination);
    }

    ghost function Now(ok: bool): Progress
      reads this, remote
    {
      Progress(remote.fs, cmd, ok)
    }

    predicate OnlyFilesInside()
      reads this, remote
    {
      tmpExecDir.Some? &&
      forall d :: d in remote.fs.dirs ==> !(tmpExecDir.value + "/" <= d)
    }

    lemma NoDirectoryInTheWay(n: string)
      requires OnlyFilesInside()
      ensures InDir(tmpExecDir.value, n) !in remote.fs.dirs
    {
      assert tmpExecDir.value + "/" <= InDir(tmpExecDir.value, n);
    }

    /** Uploads a file and appends the prefixed path. */
    method Attach(prefix: string, source: string, w: World) returns (ok: bool)
      requires OnlyFilesInside()
      modifies `cmd, remote`fs
      ensures OnlyFilesInside()
      ensures Now(ok) == Perform(Upload(prefix, source), w, tmpExecDir.value, old(Now(true)))
    {
      var path := UploadFile(source, w);
      if path == None {
        return false;
      }
      cmd := cmd + [prefix + path.value];
      return true;
    }

    /** Generates a file and appends the prefixed path. */
    method AttachNew(prefix: string, name: string, content: string, w: World) returns (ok: bool)
      requires OnlyFilesInside()
      modifies `cmd, remote`fs
      ensures OnlyFilesInside()
      ensures Now(ok) == Perform(Create(prefix, name, content), w, tmpExecDir.value, old(Now(true)))
    {
      var path := CreateFile(name, content, w);
      if path == None {
        return false;
      }
      cmd := cmd + [prefix + path.value];
      return true;
    }

    /** The part of `run` that builds the command line; false if an upload or a file creation raised. */
    method Prepare(a: Arguments, w: World) returns (ok: bool)
      requires OnlyFilesInside()
      modifies `cmd, remote`fs
      ensures Now(ok) == PerformAll(Plan(a), w, tmpExecDir.value, old(Now(true)))
    {
      ghost var goal := PerformAll(Plan(a), w, tmpExecDir.value, Now(true));
      if a.extraVars.Some? {
        ok := AttachNew(VARS_PREFIX, EXTRA_VARS, a.extraVars.value, w);
        if !ok { return; }
      }
      assert Uploads(a.varsFiles) + FromVault(a) == Uploads(a.varsFiles[0..]) + FromVault(a);
      assert [] + (Uploads(a.varsFiles) + FromVault(a)) == Uploads(a.varsFiles) + FromVault(a);
      for i := 0 to |a.varsFiles|
        invariant OnlyFilesInside()
        invariant goal == PerformAll(Uploads(a.varsFiles[i..]) + FromVault(a), w, tmpExecDir.value, Now(true))
      {
        UploadsStep(a, i);
        ok := Attach(VARS_PREFIX, a.varsFiles[i], w);
        if !ok { return; }
      }
      assert Uploads(a.varsFiles[|a.varsFiles|..]) + FromVault(a) == FromVault(a);
      ok := PrepareRest(a, w);
    }

    method PrepareRest(a: Arguments, w: World) returns (ok: bool)
      requires OnlyFilesInside()
      modifies `cmd, remote`fs
      ensures Now(ok) == PerformAll(FromVault(a), w, tmpExecDir.value, old(Now(true)))
    {
      if a.vaultFile != "" {
        ok := Attach(VAULT_PREFIX, a.vaultFile, w);
        if !ok { return; }
      } else {
        assert FromVault(a) == FromInventory(a);
      }
      ok := PrepareInventory(a, w);
    }

    method PrepareInventory(a: Arguments, w: World) returns (ok: bool)
      requires OnlyFilesInside()
      modifies `cmd, remote`fs
      ensures Now(ok) == PerformAll(FromInventory(a), w, tmpExecDir.value, old(Now(true)))
    {
      ghost var before := Now(true);
      cmd := cmd + ["-i"];
      ghost var next := if a.inventory != "" then Upload("", a.inventory) else Create("", INVENTORY, DEFAULT_INVENTORY);
      PerformCons(Word("-i"), [next] + FromVerbosity(a), w, tmpExecDir.value, before);
      PerformCons(next, FromVerbosity(a), w, tmpExecDir.value, Now(true));
      if a.inventory != "" {
        ok := Attach("", a.inventory, w);
      } else {
        ok := AttachNew("", INVENTORY, DEFAULT_INVENTORY, w);
      }
      if !ok { return; }
      ok := PrepareWords(a, w);
    }

    method PrepareWords(a: Arguments, w: World) returns (ok: bool)
      requires OnlyFilesInside()
      modifies `cmd, remote`fs
      ensures Now(ok) == PerformAll(FromVerbosity(a), w, tmpExecDir.value, old(Now(true)))
    {
      PerformCons(Word("-" + Verbosity(a.verbose)), FromCheck(a), w, tmpExecDir.value, Now(true));
      cmd := cmd + ["-" + Verbosity(a.verbose)];
      if a.checkMode {
        PerformCons(Word("--check"), FromSsh(a), w, tmpExecDir.value, Now(true));
        cmd := cmd + ["--check"];
      } else {
        assert FromCheck(a) == FromSsh(a);
      }
      if a.sshArgs != [] {
        PerformCons(Word(SSH_PREFIX + Join(a.sshArgs, " ")), [PlaybookAction(a)], w, tmpExecDir.value, Now(true));
        cmd := cmd + [SSH_PREFIX + Join(a.sshArgs, " ")];
      } else {
        assert FromSsh(a) == [PlaybookAction(a)];
      }
      PerformCons(PlaybookAction(a), [], w, tmpExecDir.value, Now(true));
      assert [PlaybookAction(a)] + [] == [PlaybookAction(a)];
      ok := true;
      if a.uploadPlaybook {
        ok := Attach("", a.playbook, w);
      } else {
        cmd := cmd + [a.playbook];
      }
    }

    /** `run`, with the bracket of `_exec_dir` around it. */
    method Run(a: Arguments, w: World) returns (r: Option<Results>)
      modifies this, remote
      ensures Ending(remote.fs, cmd, remote.met, r) == RunSpec(a, w, ExecDir(), old(remote.fs), old(cmd))
      ensures tmpExecDir == if "/tmp" in Cleared(old(remote.fs), ExecDir()).dirs then None else old(tmpExecDir)
      ensures results == if r.Some? then r else old(results)
    {
      var dir := ExecDir();
      remote.met := None;
      remote.fs := Cleared(remote.fs, dir);
      if "/tmp" !in remote.fs.dirs {
        return None; // mkdir raises
      }
      remote.fs := remote.fs.(dirs := remote.fs.dirs + {dir});
      tmpExecDir := Some(dir);
      var ok := Prepare(a, w);
      r := None;
      if ok {
        remote.met := Some(remote.fs);
        var x := w.exec(remote.fs, cmd);
        remote.fs := x.fs;
        r := x.results;
        if r.Some? {
          results := r;
        }
      }
      tmpExecDir := None;
      remote.fs := Cleared(remote.fs, dir);
    }
  }

  lemma UploadsStep(a: Arguments, i: nat)
    requires i < |a.varsFiles|
    ensures Uploads(a.varsFiles[i..]) + FromVault(a) ==
            [Upload(VARS_PREFIX, a.varsFiles[i])] + (Uploads(a.varsFiles[i + 1..]) + FromVault(a))
  {
    assert a.varsFiles[i..][1..] == a.varsFiles[i + 1..];
  }

  // ---------------------------------------------------------------- the directory comes and goes

  /** `rm -rf` takes the directory and what its path leads to, and leaves all else as it is. */
  lemma ClearedSpec(fs: Fs, dir: string)
    ensures var left := Cleared(fs, dir);
            && (forall p :: p in left.files <==> p in fs.files && p != dir && !(dir + "/" <= p))
            && (forall p :: p in left.files ==> left.files[p] == fs.files[p])
            && (forall p :: p in left.dirs <==> p in fs.dirs && p != dir && !(dir + "/" <= p))
    ensures NothingUnder(Cleared(fs, dir), dir) && Cleared(Cleared(fs, dir), dir) == Cleared(fs, dir)
  {
  }

  /** Outside the directory the command finds everything as it was before the run. */
  lemma CommandFindsTheRest(a: Arguments, w: World, dir: string, fs: Fs, cmd: seq<string>, path: string)
    requires RunSpec(a, w, dir, fs, cmd).met.Some? && path != dir && !(dir + "/" <= path)
    ensures var met := RunSpec(a, w, dir, fs, cmd).met.value;
            && (path in met.files <==> path in fs.files) && (path in met.files ==> met.files[path] == fs.files[path])
            && (path in met.dirs <==> path in fs.dirs)
  {
    var cleared := Cleared(fs, dir);
    PerformingStaysInside(Plan(a), w, dir, Progress(cleared.(dirs := cleared.dirs + {dir}), cmd, true));
  }

  lemma InDirIsUnder(dir: string, name: string)
    ensures Under(InDir(dir, name), dir)
  {
    assert InDir(dir, name)[..|dir| + 1] == dir + "/";
  }

  /** Performing actions changes nothing outside the directory, and no directory at all. */
  lemma {:induction false} PerformingStaysInside(xs: seq<Action>, w: World, dir: string, p: Progress)
    ensures var q := PerformAll(xs, w, dir, p);
            q.fs.dirs == p.fs.dirs && forall path :: !Under(path, dir) ==>
              && (path in q.fs.files <==> path in p.fs.files)
              && (path in p.fs.files ==> q.fs.files[path] == p.fs.files[path])
    decreases |xs|
  {
    if xs != [] && p.ok {
      InDirIsUnder(dir, NameOf(xs[0]));
      PerformingStaysInside(xs[1..], w, dir, Perform(xs[0], w, dir, p));
    }
  }

  /**
   However a run ends, nothing is left at or below its directory. The command, if it comes to that,
   meets a file system that differs from the one before only inside the directory; and if it never
   starts, the run leaves everything outside the directory as it was.
   */
  lemma DirectoryComesAndGoes(a: Arguments, w: World, dir: string, fs: Fs, cmd: seq<string>)
    ensures var end := RunSpec(a, w, dir, fs, cmd);
            && NothingUnder(end.fs, dir)
            && (end.met == None ==> end.fs == Cleared(fs, dir) && end.results == None)
            && (end.met.Some? ==> Cleared(end.met.value, dir) == Cleared(fs, dir) && dir in end.met.value.dirs)
  {
    var cleared := Cleared(fs, dir);
    ClearedSpec(fs, dir);
    if "/tmp" in cleared.dirs {
      var start := Progress(cleared.(dirs := cleared.dirs + {dir}), cmd, true);
      PerformingStaysInside(Plan(a), w, dir, start);
      var p := PerformAll(Plan(a), w, dir, start);
      assert Cleared(p.fs, dir).files == cleared.files;
      assert Cleared(p.fs, dir).dirs == cleared.dirs;
    }
  }

  // ---------------------------------------------------------------- what the files hold

  predicate AllPossible(xs: seq<Action>, w: World, dir: string) {
    forall i :: 0 <= i < |xs| ==> Possible(xs[i], w, dir)
  }

  function WordsOf(xs: seq<Action>, dir: string): seq<string> {
    if xs == [] then [] else [WordOf(xs[0], dir)] + WordsOf(xs[1..], dir)
  }

  /** The command line grows by one word an action, whatever the files are. */
  lemma {:induction false} CommandFollowsPlan(xs: seq<Action>, w: World, dir: string, p: Progress)
    requires p.ok
    ensures var q := PerformAll(xs, w, dir, p);
            (q.ok <==> AllPossible(xs, w, dir)) && (q.ok ==> q.cmd == p.cmd + WordsOf(xs, dir))
    decreases |xs|
  {
    if xs == [] {
      assert p.cmd + [] == p.cmd;
    } else {
      var next, rest := Perform(xs[0], w, dir, p), xs[1..];
      assert xs == [xs[0]] + rest;
      AllPossibleCons(xs[0], rest, w, dir);
      if next.ok {
        CommandFollowsPlan(rest, w, dir, next);
        assert next.cmd + WordsOf(rest, dir) == p.cmd + ([WordOf(xs[0], dir)] + WordsOf(rest, dir));
      }
    }
  }

  lemma AllPossibleCons(x: Action, rest: seq<Action>, w: World, dir: string)
    ensures AllPossible([x] + rest, w, dir) <==> Possible(x, w, dir) && AllPossible(rest, w, dir)
  {
    var xs := [x] + rest;
    assert xs[0] == x;
    forall i | 0 <= i < |rest| ensures rest[i] == xs[i + 1] { }
    assert forall i :: 0 < i < |xs| ==> xs[i] == rest[i - 1];
  }

  predicate Puts(x: Action, name: string) {
    !x.Word? && NameOf(x) == name
  }

  /** Nobody puts a file of that name: its path is as before. */
  lemma {:induction false} Unwritten(xs: seq<Action>, w: World, dir: string, p: Progress, name: string)
    requires forall i :: 0 <= i < |xs| ==> !Puts(xs[i], name)
    ensures var path := InDir(dir, name); var q := PerformAll(xs, w, dir, p);
            && (path in q.fs.files <==> path in p.fs.files)
            && (path in p.fs.files ==> q.fs.files[path] == p.fs.files[path])
    decreases |xs|
  {
    if xs != [] && p.ok {
      assert !Puts(xs[0], name);
      InDirInjective(dir, name, NameOf(xs[0]));
      Unwritten(xs[1..], w, dir, Perform(xs[0], w, dir, p), name);
    }
  }

  lemma InDirInjective(dir: string, a: string, b: string)
    ensures InDir(dir, a) == InDir(dir, b) ==> a == b
  {
    assert InDir(dir, a)[|dir| + 1..] == a && InDir(dir, b)[|dir| + 1..] == b;
  }

  /** The last action to put a file of a name decides what it holds. */
  lemma {:induction false} LastPutWins(xs: seq<Action>, w: World, dir: string, p: Progress, i: nat)
    requires p.ok && i < |xs| && AllPossible(xs, w, dir) && !xs[i].Word?
    requires forall j :: i < j < |xs| ==> !Puts(xs[j], NameOf(xs[i]))
    ensures var path := InDir(dir, NameOf(xs[i])); var q := PerformAll(xs, w, dir, p);
            path in q.fs.files && q.fs.files[path] == ContentOf(xs[i], w)
    decreases |xs|
  {
    var next := Perform(xs[0], w, dir, p);
    if i == 0 {
      Unwritten(xs[1..], w, dir, next, NameOf(xs[0]));
    } else {
      LastPutWins(xs[1..], w, dir, next, i - 1);
    }
  }

  /** Every file an action put in the directory still holds what that action put there. */
  predicate Intact(xs: seq<Action>, w: World, dir: string, files: map<string, string>)
    requires AllPossible(xs, w, dir)
  {
    forall i :: 0 <= i < |xs| && !xs[i].Word? ==>
      InDir(dir, NameOf(xs[i])) in files && files[InDir(dir, NameOf(xs[i]))] == ContentOf(xs[i], w)
  }

  /** Files put under one name are put with one content. */
  predicate Agreeing(xs: seq<Action>, w: World, dir: string)
    requires AllPossible(xs, w, dir)
  {
    forall i, j :: 0 <= i < j < |xs| && !xs[i].Word? && !xs[j].Word? && NameOf(xs[i]) == NameOf(xs[j])
      ==> ContentOf(xs[i], w) == ContentOf(xs[j], w)
  }

  function LastPut(xs: seq<Action>, i: nat): (j: nat)
    requires i < |xs| && !xs[i].Word?
    ensures i <= j < |xs| && Puts(xs[j], NameOf(xs[i]))
    ensures forall k :: j < k < |xs| ==> !Puts(xs[k], NameOf(xs[i]))
    decreases |xs|
  {
    if i == |xs| - 1 || Puts(xs[|xs| - 1], NameOf(xs[i])) then |xs| - 1
    else LastPut(xs[..|xs| - 1], i)
  }

  lemma IntactIffAgreeing(xs: seq<Action>, w: World, dir: string, p: Progress)
    requires p.ok && AllPossible(xs, w, dir)
    ensures Intact(xs, w, dir, PerformAll(xs, w, dir, p).fs.files) <==> Agreeing(xs, w, dir)
  {
    if Agreeing(xs, w, dir) {
      forall i | 0 <= i < |xs| && !xs[i].Word?
        ensures var path := InDir(dir, NameOf(xs[i])); var files := PerformAll(xs, w, dir, p).fs.files;
                path in files && files[path] == ContentOf(xs[i], w)
      {
        LastPutWins(xs, w, dir, p, LastPut(xs, i));
      }
    }
  }

  /**
   When the command starts, the command line is the old one and one word an action; and every
   uploaded or generated path in those words names a file with exactly the supplied content, exactly
   when no two of the files share a name with different contents.
   */
  lemma CommandFindsItsFiles(a: Arguments, w: World, dir: string, fs: Fs, cmd: seq<string>)
    requires RunSpec(a, w, dir, fs, cmd).met.Some?
    ensures var end := RunSpec(a, w, dir, fs, cmd);
            && end.cmd == cmd + WordsOf(Plan(a), dir)
            && AllPossible(Plan(a), w, dir)
            && (Intact(Plan(a), w, dir, end.met.value.files) <==> Agreeing(Plan(a), w, dir))
  {
    var cleared := Cleared(fs, dir);
    var start := Progress(cleared.(dirs := cleared.dirs + {dir}), cmd, true);
    CommandFollowsPlan(Plan(a), w, dir, start);
    IntactIffAgreeing(Plan(a), w, dir, start);
  }

  /** A variables file called extra_vars.json spoils the generated file of that name. */
  lemma ExtraVarsOverwritten(a: Arguments, w: World, dir: string, k: nat)
    requires AllPossible(Plan(a), w, dir) && a.extraVars.Some? && k < |a.varsFiles|
    requires Basename(a.varsFiles[k]) == EXTRA_VARS
    requires a.varsFiles[k] in w.local && w.local[a.varsFiles[k]] != a.extraVars.value
    ensures !Agreeing(Plan(a), w, dir)
  {
    UploadsAt(a.varsFiles, k);
    var xs := Plan(a);
    assert xs[0] == Create(VARS_PREFIX, EXTRA_VARS, a.extraVars.value);
    assert xs[1 + k] == Uploads(a.varsFiles)[k];
    assert ContentOf(xs[0], w) != ContentOf(xs[1 + k], w);
  }

  lemma {:induction false} UploadsAt(sources: seq<string>, k: nat)
    requires k < |sources|
    ensures |Uploads(sources)| == |sources| && Uploads(sources)[k] == Upload(VARS_PREFIX, sources[k])
    decreases |sources|
  {
    if k > 0 {
      UploadsAt(sources[1..], k - 1);
    } else if |sources| > 1 {
      UploadsAt(sources[1..], 0);
    }
  }

  predicate IsLastPut(xs: seq<Action>, j: nat, name: string) {
    j < |xs| && Puts(xs[j], name) && forall k :: j < k < |xs| ==> !Puts(xs[k], name)
  }

  /**
   A second run on one runner executes the words of both runs. A path of the first run then names a
   file exactly when the second run puts a file of that name too, and that file has the content the
   first run meant exactly when the second run put it there last.
   */
  lemma SecondRunRepeatsFirst(a: Arguments, b: Arguments, w: World, w': World, dir: string,
                              fs: Fs, fs': Fs, cmd: seq<string>, i: nat)
    requires RunSpec(a, w, dir, fs, cmd).met.Some?
    requires RunSpec(b, w', dir, fs', RunSpec(a, w, dir, fs, cmd).cmd).met.Some?
    requires i < |Plan(a)| && !Plan(a)[i].Word?
    ensures var end := RunSpec(b, w', dir, fs', RunSpec(a, w, dir, fs, cmd).cmd);
            var files, name := end.met.value.files, NameOf(Plan(a)[i]);
            && end.cmd == cmd + WordsOf(Plan(a), dir) + WordsOf(Plan(b), dir)
            && AllPossible(Plan(a), w, dir) && AllPossible(Plan(b), w', dir)
            && (InDir(dir, name) in files <==> exists j :: 0 <= j < |Plan(b)| && Puts(Plan(b)[j], name))
            && (InDir(dir, name) in files && files[InDir(dir, name)] == ContentOf(Plan(a)[i], w) <==>
                  exists j: nat :: IsLastPut(Plan(b), j, name) && ContentOf(Plan(b)[j], w') == ContentOf(Plan(a)[i], w))
  {
    var cmd1, name := RunSpec(a, w, dir, fs, cmd).cmd, NameOf(Plan(a)[i]);
    CommandFindsItsFiles(a, w, dir, fs, cmd);
    CommandFindsItsFiles(b, w', dir, fs', cmd1);
    var cleared := Cleared(fs', dir);
    InDirIsUnder(dir, name);
    var start := Progress(cleared.(dirs := cleared.dirs + {dir}), cmd1, true);
    FileOfName(Plan(b), w', dir, start, name, ContentOf(Plan(a)[i], w));
  }

  /** A path that named nothing before. */
  lemma FileOfName(xs: seq<Action>, w: World, dir: string, p: Progress, name: string, content: string)
    requires p.ok && AllPossible(xs, w, dir) && InDir(dir, name) !in p.fs.files
    ensures var files := PerformAll(xs, w, dir, p).fs.files; var path := InDir(dir, name);
            && (path in files <==> exists j :: 0 <= j < |xs| && Puts(xs[j], name))
            && (path in files && files[path] == content <==>
                  exists j: nat :: IsLastPut(xs, j, name) && ContentOf(xs[j], w) == content)
  {
    if j :| 0 <= j < |xs| && Puts(xs[j], name) {
      var last := LastPut(xs, j);
      assert IsLastPut(xs, last, name);
      LastPutWins(xs, w, dir, p, last);
    } else {
      Unwritten(xs, w, dir, p, name);
    }
  }

  /** The directory starts empty: all the command finds in it are files this run's actions put there. */
  lemma DirectoryHoldsOnlyItsFiles(a: Arguments, w: World, dir: string, fs: Fs, cmd: seq<string>, path: string)
    requires var end := RunSpec(a, w, dir, fs, cmd); end.met.Some? && path in end.met.value.files && Under(path, dir)
    ensures exists i :: 0 <= i < |Plan(a)| && !Plan(a)[i].Word? && path == InDir(dir, NameOf(Plan(a)[i]))
  {
    var cleared := Cleared(fs, dir);
    OnlyPut(Plan(a), w, dir, Progress(cleared.(dirs := cleared.dirs + {dir}), cmd, true), path);
  }

  lemma {:induction false} OnlyPut(xs: seq<Action>, w: World, dir: string, p: Progress, path: string)
    requires path in PerformAll(xs, w, dir, p).fs.files && path !in p.fs.files
    ensures exists i :: 0 <= i < |xs| && !xs[i].Word? && path == InDir(dir, NameOf(xs[i]))
    decreases |xs|
  {
    if xs != [] && p.ok && !(!xs[0].Word? && path == InDir(dir, NameOf(xs[0]))) {
      OnlyPut(xs[1..], w, dir, Perform(xs[0], w, dir, p), path);
      var i :| 0 <= i < |xs[1..]| && !xs[1..][i].Word? && path == InDir(dir, NameOf(xs[1..][i]));
      assert xs[i + 1] == xs[1..][i];
    }
  }

  // ---------------------------------------------------------------- what the command line says

  /** The files an ansible-playbook argument list refers to, read option by option; the last word is the playbook. */
  function References(ws: seq<string>): seq<string>
    decreases |ws|
  {
    if ws == [] then []
    else if VARS_PREFIX <= ws[0] then [ws[0][|VARS_PREFIX|..]] + References(ws[1..])
    else if VAULT_PREFIX <= ws[0] then [ws[0][|VAULT_PREFIX|..]] + References(ws[1..])
    else if ws[0] == "-i" && |ws| > 1 then [ws[1]] + References(ws[2..])
    else if |ws| == 1 then [ws[0]]
    else References(ws[1..])
  }

  /** Variables first, generated ones before the given ones in their order; then vault, inventory, playbook. */
  function Mentioned(a: Arguments, dir: string): seq<string> {
    (if a.extraVars.Some? then [InDir(dir, EXTRA_VARS)] else []) + (InDirs(dir, a.varsFiles) + MentionedLast(a, dir))
  }

  function MentionedLast(a: Arguments, dir: string): seq<string> {
    (if a.vaultFile != "" then [InDir(dir, Basename(a.vaultFile))] else [])
    + [InventoryPath(a, dir), PlaybookPath(a, dir)]
  }

  function InventoryPath(a: Arguments, dir: string): string {
    InDir(dir, if a.inventory != "" then Basename(a.inventory) else INVENTORY)
  }

  function PlaybookPath(a: Arguments, dir: string): string {
    if a.uploadPlaybook then InDir(dir, Basename(a.playbook)) else a.playbook
  }

  /** The directory is absolute, and a playbook that is not uploaded does not look like an option. */
  predicate Readable(a: Arguments, dir: string) {
    dir != "" && dir[0] == '/' && (!a.uploadPlaybook ==> a.playbook != "" && a.playbook[0] != '-')
  }

  function InDirs(dir: string, sources: seq<string>): seq<string> {
    if sources == [] then [] else [InDir(dir, Basename(sources[0]))] + InDirs(dir, sources[1..])
  }

  /** Reading the command line back gives every uploaded or generated path, in the documented order. */
  lemma CommandMentionsFiles(a: Arguments, dir: string)
    requires Readable(a, dir)
    ensures References(WordsOf(Plan(a), dir)) == Mentioned(a, dir)
  {
    var rest := Uploads(a.varsFiles) + FromVault(a);
    ReadVarsFiles(a, a.varsFiles, dir);
    if a.extraVars.Some? {
      ReadVars(Create(VARS_PREFIX, EXTRA_VARS, a.extraVars.value), InDir(dir, EXTRA_VARS), rest, dir);
    } else {
      assert Plan(a) == rest;
      assert Mentioned(a, dir) == InDirs(dir, a.varsFiles) + MentionedLast(a, dir);
    }
  }

  lemma WordsCons(x: Action, rest: seq<Action>, dir: string)
    ensures WordsOf([x] + rest, dir) == [WordOf(x, dir)] + WordsOf(rest, dir)
  {
    assert ([x] + rest)[1..] == rest;
  }

  lemma ReadVars(x: Action, path: string, rest: seq<Action>, dir: string)
    requires WordOf(x, dir) == VARS_PREFIX + path
    ensures References(WordsOf([x] + rest, dir)) == [path] + References(WordsOf(rest, dir))
  {
    WordsCons(x, rest, dir);
    ReadPrefixed(VARS_PREFIX, path, WordsOf(rest, dir));
  }

  lemma ReadPrefixed(prefix: string, path: string, rest: seq<string>)
    requires prefix == VARS_PREFIX || prefix == VAULT_PREFIX
    ensures References([prefix + path] + rest) == [path] + References(rest)
  {
    var word := prefix + path;
    assert ([word] + rest)[1..] == rest;
    assert word[|prefix|..] == path && word[1] == prefix[1];
  }

  /** An option without a file is passed over. */
  lemma ReadPast(w: string, rest: seq<string>)
    requires !(VARS_PREFIX <= w) && !(VAULT_PREFIX <= w) && w != "-i" && rest != []
    ensures References([w] + rest) == References(rest)
  {
    assert ([w] + rest)[1..] == rest;
  }

  lemma {:induction false} ReadVarsFiles(a: Arguments, sources: seq<string>, dir: string)
    requires Readable(a, dir)
    ensures References(WordsOf(Uploads(sources) + FromVault(a), dir)) == InDirs(dir, sources) + MentionedLast(a, dir)
    decreases |sources|
  {
    if sources == [] {
      ReadFromVault(a, dir);
      assert Uploads(sources) + FromVault(a) == FromVault(a);
      assert [] + MentionedLast(a, dir) == MentionedLast(a, dir);
    } else {
      var x, path := Upload(VARS_PREFIX, sources[0]), InDir(dir, Basename(sources[0]));
      var rest := Uploads(sources[1..]) + FromVault(a);
      assert Uploads(sources) + FromVault(a) == [x] + rest;
      ReadVars(x, path, rest, dir);
      ReadVarsFiles(a, sources[1..], dir);
      FirstOff(path, InDirs(dir, sources[1..]), MentionedLast(a, dir));
    }
  }

  lemma FirstOff(path: string, more: seq<string>, last: seq<string>)
    ensures [path] + (more + last) == ([path] + more) + last
  {
  }

  lemma ReadFromVault(a: Arguments, dir: string)
    requires Readable(a, dir)
    ensures References(WordsOf(FromVault(a), dir)) == MentionedLast(a, dir)
  {
    ReadFromInventory(a, dir);
    if a.vaultFile != "" {
      WordsCons(Upload(VAULT_PREFIX, a.vaultFile), FromInventory(a), dir);
      ReadPrefixed(VAULT_PREFIX, InDir(dir, Basename(a.vaultFile)), WordsOf(FromInventory(a), dir));
    } else {
      assert FromVault(a) == FromInventory(a);
    }
  }

  lemma ReadFromInventory(a: Arguments, dir: string)
    requires Readable(a, dir)
    ensures References(WordsOf(FromInventory(a), dir)) == [InventoryPath(a, dir), PlaybookPath(a, dir)]
  {
    var next := if a.inventory != "" then Upload("", a.inventory) else Create("", INVENTORY, DEFAULT_INVENTORY);
    var path, rest := InventoryPath(a, dir), WordsOf(FromVerbosity(a), dir);
    assert WordOf(next, dir) == path by { assert "" + path == path; }
    WordsCons(Word("-i"), [next] + FromVerbosity(a), dir);
    WordsCons(next, FromVerbosity(a), dir);
    ReadInventory(path, rest);
    assert ["-i"] + ([path] + rest) == WordsOf(FromInventory(a), dir);
    ReadFromVerbosity(a, dir);
  }

  lemma ReadInventory(path: string, rest: seq<string>)
    ensures References(["-i"] + ([path] + rest)) == [path] + References(rest)
  {
    var ws := ["-i"] + ([path] + rest);
    assert ws[2..] == rest;
  }

  lemma ReadFromVerbosity(a: Arguments, dir: string)
    requires Readable(a, dir)
    ensures References(WordsOf(FromVerbosity(a), dir)) == [PlaybookPath(a, dir)]
  {
    var v := "-" + Verbosity(a.verbose);
    assert |v| > 1 ==> v[1] == 'v';
    ReadFromCheck(a, dir);
    WordsCons(Word(v), FromCheck(a), dir);
    ReadPast(v, WordsOf(FromCheck(a), dir));
  }

  lemma ReadFromCheck(a: Arguments, dir: string)
    requires Readable(a, dir)
    ensures References(WordsOf(FromCheck(a), dir)) == [PlaybookPath(a, dir)] && WordsOf(FromCheck(a), dir) != []
  {
    ReadFromSsh(a, dir);
    if a.checkMode {
      var word := "--check";
      assert word[1] == '-' && word[2] == 'c';
      WordsCons(Word(word), FromSsh(a), dir);
      ReadPast(word, WordsOf(FromSsh(a), dir));
    } else {
      assert FromCheck(a) == FromSsh(a);
    }
  }

  lemma ReadFromSsh(a: Arguments, dir: string)
    requires Readable(a, dir)
    ensures References(WordsOf(FromSsh(a), dir)) == [PlaybookPath(a, dir)] && WordsOf(FromSsh(a), dir) != []
  {
    ReadPlaybook(a, dir);
    if a.sshArgs != [] {
      var word := SSH_PREFIX + Join(a.sshArgs, " ");
      assert word[1] == '-' && word[2] == 's';
      WordsCons(Word(word), [PlaybookAction(a)], dir);
      ReadPast(word, [PlaybookPath(a, dir)]);
    } else {
      assert FromSsh(a) == [PlaybookAction(a)];
    }
  }

  lemma ReadPlaybook(a: Arguments, dir: string)
    requires Readable(a, dir)
    ensures WordsOf([PlaybookAction(a)], dir) == [PlaybookPath(a, dir)]
    ensures References([PlaybookPath(a, dir)]) == [PlaybookPath(a, dir)]
  {
    var last := PlaybookPath(a, dir);
    assert WordOf(PlaybookAction(a), dir) == last by { assert "" + last == last; }
    assert [PlaybookAction(a)][1..] == [] && [last] + [] == [last];
    assert last[0] != '-';
  }
}
