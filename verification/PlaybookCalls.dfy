/**
 `PlaybookRunner.run` of rrmngmnt/playbook_runner.py as its caller sees it: what a first run executes
 and what the files it names hold, in terms of the arguments alone.
 */
module PlaybookCalls {
  import opened Wrappers
  import opened Text
  import opened Playbook

  /** A file on the caller's machine: its folder, if its path has one, and its name. */
  datatype Source = Source(folder: Option<string>, name: string)

  function PathOf(s: Source): string {
    if s.folder == None then s.name else s.folder.value + "/" + s.name
  }

  /** The arguments of a call; `playbook` lies on the host if it is not to be uploaded. */
  datatype Given = Given(
    playbook: Source, uploadPlaybook: bool, extraVars: Option<string>, varsFiles: seq<Source>,
    vault: Option<Source>, inventory: Option<Source>, verbose: int, checkMode: bool, sshArgs: seq<string>)

  predicate IsFile(s: Source) {
    s.name != "" && '/' !in s.name
  }

  predicate AreFiles(ss: seq<Source>) {
    ss == [] || (IsFile(ss[0]) && AreFiles(ss[1..]))
  }

  predicate WellGiven(g: Given) {
    IsFile(g.playbook) && AreFiles(g.varsFiles)
    && (g.vault.Some? ==> IsFile(g.vault.value)) && (g.inventory.Some? ==> IsFile(g.inventory.value))
  }

  function Paths(ss: seq<Source>): seq<string> {
    if ss == [] then [] else [PathOf(ss[0])] + Paths(ss[1..])
  }

  function ArgumentsOf(g: Given): Arguments {
    Arguments(PathOf(g.playbook), g.extraVars, Paths(g.varsFiles),
              if g.inventory == None then "" else PathOf(g.inventory.value), g.verbose, g.checkMode, g.sshArgs,
              g.uploadPlaybook, if g.vault == None then "" else PathOf(g.vault.value))
  }

  // ---------------------------------------------------------------- the command line

  function VarsWords(ss: seq<Source>, dir: string): seq<string> {
    if ss == [] then [] else ["-e@" + (dir + "/" + ss[0].name)] + VarsWords(ss[1..], dir)
  }

  /** The words behind the binary, in the order of the source. */
  function CommandWords(g: Given, dir: string): seq<string> {
    (if g.extraVars.Some? then ["-e@" + (dir + "/" + "extra_vars.json")] else [])
    + (VarsWords(g.varsFiles, dir)
    + VaultAndLater(g, dir))
  }

  function VaultAndLater(g: Given, dir: string): seq<string> {
    (if g.vault.Some? then ["--vault-password-file=" + (dir + "/" + g.vault.value.name)] else [])
    + (["-i"]
    + ([dir + "/" + (if g.inventory.Some? then g.inventory.value.name else "inventory")]
    + (["-" + Verbosity(g.verbose)]
    + ((if g.checkMode then ["--check"] else [])
    + ((if g.sshArgs != [] then ["--ssh-common-args=" + Join(g.sshArgs, " ")] else [])
    + [if g.uploadPlaybook then dir + "/" + g.playbook.name else PathOf(g.playbook)])))))
  }

  lemma PathParts(s: Source)
    requires IsFile(s)
    ensures Basename(PathOf(s)) == s.name && PathOf(s) != ""
  {
    BasenameIsLastPart(if s.folder == None then "" else s.folder.value, s.name);
  }

  lemma {:induction false} WordsConcat(a: seq<Action>, b: seq<Action>, dir: string)
    ensures WordsOf(a + b, dir) == WordsOf(a, dir) + WordsOf(b, dir)
    decreases |a|
  {
    if a == [] {
      assert a + b == b;
    } else {
      assert (a + b)[1..] == a[1..] + b;
      WordsConcat(a[1..], b, dir);
    }
  }

  lemma OneWord(x: Action, dir: string)
    ensures WordsOf([x], dir) == [WordOf(x, dir)]
  {
    assert [x][1..] == [];
  }

  lemma InDirText(dir: string, name: string)
    ensures InDir(dir, name) == dir + "/" + name
  {
  }

  /** A path alone, as the word of a file with no option in front. */
  lemma BareWord(x: Action, dir: string)
    requires !x.Word? && x.prefix == ""
    ensures WordsOf([x], dir) == [InDir(dir, NameOf(x))]
  {
    OneWord(x, dir);
    assert "" + InDir(dir, NameOf(x)) == InDir(dir, NameOf(x));
  }

  /** The command line of a run, word for word. */
  lemma PlanSaysCommand(g: Given, dir: string)
    requires WellGiven(g)
    ensures WordsOf(Plan(ArgumentsOf(g)), dir) == CommandWords(g, dir)
  {
    var a := ArgumentsOf(g);
    var vars := if a.extraVars.Some? then [Create(VARS_PREFIX, EXTRA_VARS, a.extraVars.value)] else [];
    WordsConcat(vars, Uploads(a.varsFiles) + FromVault(a), dir);
    WordsConcat(Uploads(a.varsFiles), FromVault(a), dir);
    VarsSayWords(g.varsFiles, dir);
    VaultSaysWords(g, dir);
    if a.extraVars.Some? {
      OneWord(vars[0], dir);
      InDirText(dir, EXTRA_VARS);
    }
  }

  lemma {:induction false} VarsSayWords(ss: seq<Source>, dir: string)
    requires AreFiles(ss)
    ensures WordsOf(Uploads(Paths(ss)), dir) == VarsWords(ss, dir)
    decreases |ss|
  {
    if ss != [] {
      var first, rest := Upload(VARS_PREFIX, PathOf(ss[0])), Uploads(Paths(ss[1..]));
      assert Paths(ss)[1..] == Paths(ss[1..]);
      assert Uploads(Paths(ss)) == [first] + rest;
      WordsConcat([first], rest, dir);
      OneWord(first, dir);
      PathParts(ss[0]);
      InDirText(dir, ss[0].name);
      VarsSayWords(ss[1..], dir);
    }
  }

  lemma VaultSaysWords(g: Given, dir: string)
    requires WellGiven(g)
    ensures WordsOf(FromVault(ArgumentsOf(g)), dir) == VaultAndLater(g, dir)
  {
    var a := ArgumentsOf(g);
    if g.vault.Some? {
      PathParts(g.vault.value);
    }
    var vault := if a.vaultFile != "" then [Upload(VAULT_PREFIX, a.vaultFile)] else [];
    WordsConcat(vault, FromInventory(a), dir);
    if g.vault.Some? {
      OneWord(vault[0], dir);
      InDirText(dir, g.vault.value.name);
    }
    InventorySaysWords(g, dir);
  }

  lemma InventorySaysWords(g: Given, dir: string)
    requires WellGiven(g)
    ensures WordsOf(FromInventory(ArgumentsOf(g)), dir) ==
            ["-i"] + ([dir + "/" + (if g.inventory.Some? then g.inventory.value.name else "inventory")]
                      + WordsOf(FromVerbosity(ArgumentsOf(g)), dir))
    ensures WordsOf(FromVerbosity(ArgumentsOf(g)), dir) ==
            ["-" + Verbosity(g.verbose)]
            + ((if g.checkMode then ["--check"] else [])
               + ((if g.sshArgs != [] then ["--ssh-common-args=" + Join(g.sshArgs, " ")] else [])
                  + [if g.uploadPlaybook then dir + "/" + g.playbook.name else PathOf(g.playbook)]))
  {
    var a := ArgumentsOf(g);
    if g.inventory.Some? {
      PathParts(g.inventory.value);
    }
    var x := if a.inventory != "" then Upload("", a.inventory) else Create("", INVENTORY, DEFAULT_INVENTORY);
    WordsConcat([Word("-i")], [x] + FromVerbosity(a), dir);
    OneWord(Word("-i"), dir);
    WordsConcat([x], FromVerbosity(a), dir);
    BareWord(x, dir);
    InDirText(dir, NameOf(x));
    FlagsSayWords(g, dir);
  }

  lemma FlagsSayWords(g: Given, dir: string)
    requires WellGiven(g)
    ensures WordsOf(FromVerbosity(ArgumentsOf(g)), dir) ==
            ["-" + Verbosity(g.verbose)]
            + ((if g.checkMode then ["--check"] else [])
               + ((if g.sshArgs != [] then ["--ssh-common-args=" + Join(g.sshArgs, " ")] else [])
                  + [if g.uploadPlaybook then dir + "/" + g.playbook.name else PathOf(g.playbook)]))
  {
    var a := ArgumentsOf(g);
    var verbose, check := [Word("-" + Verbosity(a.verbose))], if a.checkMode then [Word("--check")] else [];
    var ssh := if a.sshArgs != [] then [Word(SSH_PREFIX + Join(a.sshArgs, " "))] else [];
    WordsConcat(verbose, FromCheck(a), dir);
    OneWord(verbose[0], dir);
    WordsConcat(check, FromSsh(a), dir);
    OneWord(Word("--check"), dir);
    WordsConcat(ssh, [PlaybookAction(a)], dir);
    OneWord(Word(SSH_PREFIX + Join(a.sshArgs, " ")), dir);
    OneWord(PlaybookAction(a), dir);
    if g.uploadPlaybook {
      PathParts(g.playbook);
      BareWord(PlaybookAction(a), dir);
      InDirText(dir, g.playbook.name);
    }
  }

  /** The file arguments read back: one path in the directory for each given or generated file, in order. */
  lemma CommandMentionsSources(g: Given, dir: string)
    requires WellGiven(g) && Readable(ArgumentsOf(g), dir)
    ensures References(CommandWords(g, dir)) ==
            (if g.extraVars.Some? then [InDir(dir, "extra_vars.json")] else [])
            + (SourcePaths(g.varsFiles, dir)
            + ((if g.vault.Some? then [InDir(dir, g.vault.value.name)] else [])
            + [InDir(dir, if g.inventory.Some? then g.inventory.value.name else "inventory"),
               if g.uploadPlaybook then InDir(dir, g.playbook.name) else PathOf(g.playbook)]))
  {
    PlanSaysCommand(g, dir);
    CommandMentionsFiles(ArgumentsOf(g), dir);
    SourcesInDirs(g.varsFiles, dir);
    PathParts(g.playbook);
    if g.vault.Some? {
      PathParts(g.vault.value);
    }
    if g.inventory.Some? {
      PathParts(g.inventory.value);
    }
  }

  function SourcePaths(ss: seq<Source>, dir: string): seq<string> {
    if ss == [] then [] else [InDir(dir, ss[0].name)] + SourcePaths(ss[1..], dir)
  }

  lemma {:induction false} SourcesInDirs(ss: seq<Source>, dir: string)
    requires AreFiles(ss)
    ensures InDirs(dir, Paths(ss)) == SourcePaths(ss, dir)
    decreases |ss|
  {
    if ss != [] {
      PathParts(ss[0]);
      assert Paths(ss)[1..] == Paths(ss[1..]);
      SourcesInDirs(ss[1..], dir);
    }
  }

  // ---------------------------------------------------------------- the files

  /** A file to be put in the directory: its name, where it is read from unless it is generated, and its content. */
  datatype Item = Item(name: string, from: Option<string>, content: string)

  function Local(path: string, w: World): string {
    if path in w.local then w.local[path] else ""
  }

  function Uploaded(s: Source, w: World): Item {
    Item(s.name, Some(PathOf(s)), Local(PathOf(s), w))
  }

  function UploadedAll(ss: seq<Source>, w: World): seq<Item> {
    if ss == [] then [] else [Uploaded(ss[0], w)] + UploadedAll(ss[1..], w)
  }

  /** Every file a run puts on the host, with what it is to hold. */
  function Items(g: Given, w: World): seq<Item> {
    (if g.extraVars.Some? then [Item("extra_vars.json", None, g.extraVars.value)] else [])
    + (UploadedAll(g.varsFiles, w)
    + ((if g.vault.Some? then [Uploaded(g.vault.value, w)] else [])
    + ([if g.inventory.Some? then Uploaded(g.inventory.value, w)
        else Item("inventory", None, "localhost ansible_connection=local")]
    + (if g.uploadPlaybook then [Uploaded(g.playbook, w)] else []))))
  }

  /** What an action puts. */
  function ItemOf(x: Action, w: World): seq<Item> {
    match x
    case Word(_) => []
    case Upload(_, source) => [Item(Basename(source), Some(source), Local(source, w))]
    case Create(_, name, content) => [Item(name, None, content)]
  }

  function ItemsOf(xs: seq<Action>, w: World): seq<Item> {
    if xs == [] then [] else ItemOf(xs[0], w) + ItemsOf(xs[1..], w)
  }

  lemma {:induction false} ItemsConcat(a: seq<Action>, b: seq<Action>, w: World)
    ensures ItemsOf(a + b, w) == ItemsOf(a, w) + ItemsOf(b, w)
    decreases |a|
  {
    if a == [] {
      assert a + b == b;
    } else {
      assert (a + b)[1..] == a[1..] + b;
      ItemsConcat(a[1..], b, w);
    }
  }

  lemma OneItem(x: Action, w: World)
    ensures ItemsOf([x], w) == ItemOf(x, w)
  {
    assert [x][1..] == [] && ItemOf(x, w) + [] == ItemOf(x, w);
  }

  lemma {:induction false} VarsPutItems(ss: seq<Source>, w: World)
    requires AreFiles(ss)
    ensures ItemsOf(Uploads(Paths(ss)), w) == UploadedAll(ss, w)
    decreases |ss|
  {
    if ss != [] {
      var first, rest := Upload(VARS_PREFIX, PathOf(ss[0])), Uploads(Paths(ss[1..]));
      assert Paths(ss)[1..] == Paths(ss[1..]);
      assert Uploads(Paths(ss)) == [first] + rest;
      ItemsConcat([first], rest, w);
      OneItem(first, w);
      PathParts(ss[0]);
      VarsPutItems(ss[1..], w);
    }
  }

  lemma PlanPutsItems(g: Given, w: World)
    requires WellGiven(g)
    ensures ItemsOf(Plan(ArgumentsOf(g)), w) == Items(g, w)
  {
    var a := ArgumentsOf(g);
    var vars := if a.extraVars.Some? then [Create(VARS_PREFIX, EXTRA_VARS, a.extraVars.value)] else [];
    ItemsConcat(vars, Uploads(a.varsFiles) + FromVault(a), w);
    ItemsConcat(Uploads(a.varsFiles), FromVault(a), w);
    VarsPutItems(g.varsFiles, w);
    VaultPutsItems(g, w);
    if a.extraVars.Some? {
      OneItem(vars[0], w);
    }
  }

  lemma VaultPutsItems(g: Given, w: World)
    requires WellGiven(g)
    ensures ItemsOf(FromVault(ArgumentsOf(g)), w) ==
            (if g.vault.Some? then [Uploaded(g.vault.value, w)] else [])
            + ([if g.inventory.Some? then Uploaded(g.inventory.value, w)
                else Item("inventory", None, "localhost ansible_connection=local")]
            + (if g.uploadPlaybook then [Uploaded(g.playbook, w)] else []))
  {
    var a := ArgumentsOf(g);
    if g.vault.Some? {
      PathParts(g.vault.value);
      OneItem(Upload(VAULT_PREFIX, a.vaultFile), w);
    }
    if g.inventory.Some? {
      PathParts(g.inventory.value);
    }
    var vault := if a.vaultFile != "" then [Upload(VAULT_PREFIX, a.vaultFile)] else [];
    var x := if a.inventory != "" then Upload("", a.inventory) else Create("", INVENTORY, DEFAULT_INVENTORY);
    ItemsConcat(vault, FromInventory(a), w);
    ItemsConcat([Word("-i")], [x] + FromVerbosity(a), w);
    OneItem(Word("-i"), w);
    ItemsConcat([x], FromVerbosity(a), w);
    OneItem(x, w);
    FlagsPutItems(g, w);
  }

  lemma FlagsPutItems(g: Given, w: World)
    requires WellGiven(g)
    ensures ItemsOf(FromVerbosity(ArgumentsOf(g)), w) == if g.uploadPlaybook then [Uploaded(g.playbook, w)] else []
  {
    var a := ArgumentsOf(g);
    var check, ssh := if a.checkMode then [Word("--check")] else [], FromSsh(a);
    ItemsConcat([Word("-" + Verbosity(a.verbose))], FromCheck(a), w);
    OneItem(Word("-" + Verbosity(a.verbose)), w);
    ItemsConcat(check, FromSsh(a), w);
    OneItem(Word("--check"), w);
    var word := Word(SSH_PREFIX + Join(a.sshArgs, " "));
    ItemsConcat(if a.sshArgs != [] then [word] else [], [PlaybookAction(a)], w);
    OneItem(word, w);
    OneItem(PlaybookAction(a), w);
    PathParts(g.playbook);
  }

  /** Every file that is to be uploaded is there, and every path that is to be written can be. */
  predicate Feasible(items: seq<Item>, w: World, dir: string) {
    forall i :: i in items ==> (i.from.Some? ==> i.from.value in w.local) && InDir(dir, i.name) !in w.refuses
  }

  /** Every path holds the content meant for it. */
  predicate AllHeld(items: seq<Item>, dir: string, files: map<string, string>) {
    forall i :: i in items ==> InDir(dir, i.name) in files && files[InDir(dir, i.name)] == i.content
  }

  /** Files of one name have one content; so it is if all names differ. */
  predicate NoClash(items: seq<Item>) {
    forall i, j :: i in items && j in items && i.name == j.name ==> i.content == j.content
  }

  lemma {:induction false} ItemMember(xs: seq<Action>, w: World, k: nat)
    requires k < |xs| && !xs[k].Word?
    ensures ItemOf(xs[k], w)[0] in ItemsOf(xs, w)
    decreases |xs|
  {
    if k > 0 {
      ItemMember(xs[1..], w, k - 1);
    }
  }

  lemma {:induction false} MemberItem(xs: seq<Action>, w: World, i: Item) returns (k: nat)
    requires i in ItemsOf(xs, w)
    ensures k < |xs| && !xs[k].Word? && i == ItemOf(xs[k], w)[0]
    decreases |xs|
  {
    if i in ItemOf(xs[0], w) {
      k := 0;
    } else {
      k := MemberItem(xs[1..], w, i);
      k := k + 1;
    }
  }

  lemma FeasibleIsPossible(xs: seq<Action>, w: World, dir: string)
    ensures AllPossible(xs, w, dir) <==> Feasible(ItemsOf(xs, w), w, dir)
  {
    if AllPossible(xs, w, dir) {
      forall i | i in ItemsOf(xs, w)
        ensures (i.from.Some? ==> i.from.value in w.local) && InDir(dir, i.name) !in w.refuses
      {
        var k := MemberItem(xs, w, i);
        assert Possible(xs[k], w, dir);
      }
    }
    if Feasible(ItemsOf(xs, w), w, dir) {
      forall k | 0 <= k < |xs| ensures Possible(xs[k], w, dir) {
        if !xs[k].Word? {
          ItemMember(xs, w, k);
        }
      }
    }
  }

  lemma HeldIsIntact(xs: seq<Action>, w: World, dir: string, files: map<string, string>)
    requires AllPossible(xs, w, dir)
    ensures Intact(xs, w, dir, files) <==> AllHeld(ItemsOf(xs, w), dir, files)
  {
    if Intact(xs, w, dir, files) {
      forall i | i in ItemsOf(xs, w)
        ensures InDir(dir, i.name) in files && files[InDir(dir, i.name)] == i.content
      {
        var k := MemberItem(xs, w, i);
        assert Possible(xs[k], w, dir);
      }
    }
    if AllHeld(ItemsOf(xs, w), dir, files) {
      forall k | 0 <= k < |xs| && !xs[k].Word?
        ensures InDir(dir, NameOf(xs[k])) in files && files[InDir(dir, NameOf(xs[k]))] == ContentOf(xs[k], w)
      {
        ItemMember(xs, w, k);
        assert Possible(xs[k], w, dir);
      }
    }
  }

  lemma NoClashIsAgreeing(xs: seq<Action>, w: World, dir: string)
    requires AllPossible(xs, w, dir)
    ensures Agreeing(xs, w, dir) <==> NoClash(ItemsOf(xs, w))
  {
    if Agreeing(xs, w, dir) {
      forall i, j | i in ItemsOf(xs, w) && j in ItemsOf(xs, w) && i.name == j.name ensures i.content == j.content {
        var k := MemberItem(xs, w, i);
        var l := MemberItem(xs, w, j);
        assert Possible(xs[k], w, dir) && Possible(xs[l], w, dir);
      }
    }
    if NoClash(ItemsOf(xs, w)) {
      forall k, l | 0 <= k < l < |xs| && !xs[k].Word? && !xs[l].Word? && NameOf(xs[k]) == NameOf(xs[l])
        ensures ContentOf(xs[k], w) == ContentOf(xs[l], w)
      {
        ItemMember(xs, w, k);
        ItemMember(xs, w, l);
        assert Possible(xs[k], w, dir) && Possible(xs[l], w, dir);
      }
    }
  }

  // ---------------------------------------------------------------- a first run

  /**
   The first run of a runner. The command starts exactly when /tmp is there, every local file can be
   read and every path written; its words are those of the arguments; every path among them that was
   uploaded or generated holds what it should exactly when no two such files clash; the rest of the
   host is as it was; and afterwards nothing is left of the directory.
   */
  method FirstRun(remote: Remote, uuid: string, g: Given, w: World) returns (r: Option<Results>, cmd: seq<string>)
    requires WellGiven(g)
    modifies remote
    ensures var dir := "/tmp/" + uuid; var items := Items(g, w);
            && (remote.met.Some? <==> "/tmp" in old(remote.fs.dirs) && Feasible(items, w, dir))
            && (remote.met == None ==> r == None)
            && (remote.met.Some? ==>
                  && cmd == ["ansible-playbook"] + CommandWords(g, dir)
                  && r == w.exec(remote.met.value, cmd).results
                  && (AllHeld(items, dir, remote.met.value.files) <==> NoClash(items))
                  && forall p :: p != dir && !(dir + "/" <= p) ==>
                       && (p in remote.met.value.files <==> p in old(remote.fs.files))
                       && (p in old(remote.fs.files) ==> remote.met.value.files[p] == old(remote.fs.files)[p]))
            && (forall p :: p in remote.fs.files || p in remote.fs.dirs ==> p != dir && !(dir + "/" <= p))
  {
    ghost var fs, dir, a := remote.fs, "/tmp/" + uuid, ArgumentsOf(g);
    var runner := new PlaybookRunner(remote, uuid);
    r := runner.Run(ArgumentsOf(g), w);
    cmd := runner.cmd;
    RunOfGiven(g, w, dir, fs);
    ghost var start := [BINARY];
    if remote.met.Some? {
      forall p | p != dir && !(dir + "/" <= p)
        ensures p in remote.met.value.files <==> p in fs.files
        ensures p in fs.files ==> remote.met.value.files[p] == fs.files[p]
      {
        CommandFindsTheRest(a, w, dir, fs, start, p);
      }
    }
  }

  lemma RunOfGiven(g: Given, w: World, dir: string, fs: Fs)
    requires WellGiven(g) && "/tmp/" <= dir
    ensures var end := RunSpec(ArgumentsOf(g), w, dir, fs, [BINARY]); var items := Items(g, w);
            && (end.met.Some? <==> "/tmp" in fs.dirs && Feasible(items, w, dir))
            && (end.met == None ==> end.results == None)
            && (end.met.Some? ==>
                  && end.cmd == ["ansible-playbook"] + CommandWords(g, dir)
                  && end.results == w.exec(end.met.value, end.cmd).results
                  && (AllHeld(items, dir, end.met.value.files) <==> NoClash(items)))
            && (forall p :: p in end.fs.files || p in end.fs.dirs ==> p != dir && !(dir + "/" <= p))
  {
    var a := ArgumentsOf(g);
    var xs, cleared := Plan(a), Cleared(fs, dir);
    var start := Progress(cleared.(dirs := cleared.dirs + {dir}), [BINARY], true);
    ClearedSpec(fs, dir);
    PlanSaysCommand(g, dir);
    PlanPutsItems(g, w);
    FeasibleIsPossible(xs, w, dir);
    CommandFollowsPlan(xs, w, dir, start);
    DirectoryComesAndGoes(a, w, dir, fs, [BINARY]);
    var end := RunSpec(a, w, dir, fs, [BINARY]);
    if end.met.Some? {
      CommandFindsItsFiles(a, w, dir, fs, [BINARY]);
      HeldIsIntact(xs, w, dir, end.met.value.files);
      NoClashIsAgreeing(xs, w, dir);
    }
  }
}
