/**
 `MountPoint` of rrmngmnt/filesystem.py: a context manager that mounts on entry, may remount in
 between, and on exit unmounts and removes the temporary directory it made, if it made one.
 The remote side is a mount table and a set of directories; `Faults` says which remote commands
 work, and what other programs have left in the temporary directory by then.
 */
module MountPoint {
  import opened Wrappers
  import opened Text

  datatype Mount = Mount(source: string, target: string, fsType: Option<string>, opts: Option<string>)

  /** One `rm -rf`: what it was applied to, what that held, and whether anything was mounted there. */
  datatype Removal = Removal(path: string, contents: seq<string>, mounted: bool)

  /**
   A command returns 0, returns something else, or never returns because the connection breaks, before
   it has done its work or after.
   */
  datatype Call = Works | Fails | Breaks | BreaksAfter

  predicate Acts(c: Call) {
    c == Works || c == BreaksAfter
  }

  predicate Lost(c: Call) {
    c == Breaks || c == BreaksAfter
  }

  datatype Remount = Remount(opts: string, call: Call, caught: bool)

  /** The commands of one block, the name `mktemp` picks, and what others leave in that directory by its end. */
  datatype Faults = Faults(
    tempName: string, mktemp: Call, mount: Call,
    umount: Call, strays: seq<string>, ls: Call, rm: Call)

  /** One `with` block: its remounts, and whether its body raises after them. */
  datatype Block = Block(faults: Faults, remounts: seq<Remount>, bodyRaises: bool)

  datatype Outcome = Done | TempError | MountError | Broken

  /** The fields of the object and the remote side. */
  datatype State = State(
    source: string, fsType: Option<string>, opts: Option<string>,
    target: Option<string>, temporary: bool, mounted: bool,
    table: seq<Mount>, directories: map<string, seq<string>>, removals: seq<Removal>)

  predicate MountedAt(table: seq<Mount>, path: string) {
    exists i :: 0 <= i < |table| && table[i].target == path
  }

  // ---------------------------------------------------------------- remote commands

  /** `umount`: the topmost mount at the path goes. */
  function Unmount(table: seq<Mount>, path: string): seq<Mount> {
    if table == [] then []
    else if table[|table| - 1].target == path then table[..|table| - 1]
    else Unmount(table[..|table| - 1], path) + [table[|table| - 1]]
  }

  function SetOptions(table: seq<Mount>, path: string, opts: string): seq<Mount> {
    if table == [] then []
    else
      var last, front := table[|table| - 1], table[..|table| - 1];
      if last.target == path then front + [last.(opts := Some(opts))] else SetOptions(front, path, opts) + [last]
  }

  /** `listdir`: the output of `ls -A1`, split at whitespace; a failing `ls` prints nothing. */
  function Listdir(contents: seq<string>, ls: Call): seq<string> {
    Words(if ls == Works then Unlines(contents) else "", IsSpace)
  }

  // ---------------------------------------------------------------- the methods

  function DoMount(st: State, f: Faults): (State, Outcome) {
    if st.temporary && (!Acts(f.mktemp) || f.tempName in st.directories) then (st, TempError)
    else if st.temporary && f.mktemp == BreaksAfter then
      (st.(directories := st.directories[f.tempName := []]), TempError)
    else
      var st1 := if st.temporary
                 then st.(target := Some(f.tempName), directories := st.directories[f.tempName := []])
                 else st;
      if !Acts(f.mount) || st1.target == None || st1.target.value !in st1.directories
      then (st1, if Lost(f.mount) then Broken else MountError)
      else
        var st2 := st1.(table := st1.table + [Mount(st1.source, st1.target.value, st1.fsType, st1.opts)]);
        if f.mount == BreaksAfter then (st2, Broken) else (st2.(mounted := true), Done)
  }

  /** What the temporary directory holds when `umount` comes to look at it. */
  function Found(st: State, f: Faults): seq<string> {
    if st.target.Some? && st.target.value in st.directories
    then st.directories[st.target.value] + f.strays
    else f.strays
  }

  function DoUmount(st: State, f: Faults): (State, Outcome) {
    if !Acts(f.umount) || st.target == None || !MountedAt(st.table, st.target.value)
    then (st, if Lost(f.umount) then Broken else MountError)
    else
      var path := st.target.value;
      var st1 := st.(table := Unmount(st.table, path));
      if f.umount == BreaksAfter then (st1, Broken)
      else if !st.temporary then (st1.(mounted := false), Done)
      else
        var st2 := st1.(directories := st1.directories[path := Found(st, f)]);
        if Lost(f.ls) then (st2, Broken)
        else if Listdir(Found(st, f), f.ls) != [] then (st2.(mounted := false), Done)
        else DoRmdir(st2, path, f)
  }

  /** The `rm -rf` of the clean-up, and the assignment behind it. */
  function DoRmdir(st: State, path: string, f: Faults): (State, Outcome)
    requires path in st.directories
  {
    if f.rm == Breaks then (st, Broken)
    else
      var st1 := st.(removals := st.removals + [Removal(path, st.directories[path], MountedAt(st.table, path))],
                     directories := if Acts(f.rm) then st.directories - {path} else st.directories);
      if f.rm == BreaksAfter then (st1, Broken) else (st1.(mounted := false), Done)
  }

  function DoRemount(st: State, r: Remount): (State, Outcome) {
    if !st.mounted then (st, MountError)
    else if !Acts(r.call) || st.target == None || !MountedAt(st.table, st.target.value)
    then (st, if Lost(r.call) then Broken else MountError)
    else
      var st1 := st.(table := SetOptions(st.table, st.target.value, r.opts));
      if r.call == BreaksAfter then (st1, Broken) else (st1.(opts := Some(r.opts)), Done)
  }

  /** The body of a block: remounts until one fails uncaught. Does it raise? */
  function DoBody(st: State, rs: seq<Remount>, raises: bool): (State, bool)
    decreases |rs|
  {
    if rs == [] then (st, raises)
    else
      var (st1, out) := DoRemount(st, rs[0]);
      if out != Done && !rs[0].caught then (st1, true) else DoBody(st1, rs[1..], raises)
  }

  /** `__exit__` and what leaves the block: a failed unmount surfaces only if the body did not raise. */
  function DoExit(st: State, f: Faults, raised: bool): (State, bool) {
    var (st1, out) := DoUmount(st, f);
    (st1, raised || out != Done)
  }

  /** A whole `with` block. Does an exception leave it? */
  function DoBlock(st: State, b: Block): (State, bool) {
    var (st1, out) := DoMount(st, b.faults);
    if out != Done then (st1, true)
    else
      var (st2, raised) := DoBody(st1, b.remounts, b.bodyRaises);
      DoExit(st2, b.faults, raised)
  }

  class Host {
    var table: seq<Mount>
    var directories: map<string, seq<string>>
    var removals: seq<Removal>

    constructor (table: seq<Mount>, directories: map<string, seq<string>>)
      ensures this.table == table && this.directories == directories && removals == []
    {
      this.table, this.directories, removals := table, directories, [];
    }
  }

  class Point {
    const host: Host
    const source: string
    const fsType: Option<string>
    const temporary: bool
    var opts: Option<string>
    var target: Option<string>
    var mounted: bool

    ghost function Abstract(): State
      reads this, host
    {
      State(source, fsType, opts, target, temporary, mounted, host.table, host.directories, host.removals)
    }

    /** An omitted or empty target stands for a temporary directory. */
    constructor (host: Host, source: string, target: Option<string>, fsType: Option<string>, opts: Option<string>)
      ensures this.host == host && !mounted && this.source == source && this.target == target
      ensures this.fsType == fsType && this.opts == opts
      ensures temporary <==> target == None || target == Some("")
    {
      this.host, this.source, this.fsType, this.opts, this.target := host, source, fsType, opts, target;
      temporary, mounted := target == None || target == Some(""), false;
    }

    method DoesMount(f: Faults) returns (out: Outcome)
      modifies this, host
      ensures (Abstract(), out) == DoMount(old(Abstract()), f)
    {
      if temporary {
        if Acts(f.mktemp) && f.tempName !in host.directories {
          host.directories := host.directories[f.tempName := []];
        } else {
          return TempError;
        }
        if f.mktemp == BreaksAfter {
          return TempError;
        }
        target := Some(f.tempName);
      }
      if Acts(f.mount) && target.Some? && target.value in host.directories {
        host.table := host.table + [Mount(source, target.value, fsType, opts)];
        if f.mount == BreaksAfter {
          return Broken;
        }
      } else {
        return if Lost(f.mount) then Broken else MountError;
      }
      mounted := true;
      return Done;
    }

    method DoesUmount(f: Faults) returns (out: Outcome)
      modifies this, host
      ensures (Abstract(), out) == DoUmount(old(Abstract()), f)
    {
      if Acts(f.umount) && target.Some? && MountedAt(host.table, target.value) {
        host.table := Unmount(host.table, target.value);
        if f.umount == BreaksAfter {
          return Broken;
        }
      } else {
        return if Lost(f.umount) then Broken else MountError;
      }
      if temporary {
        var path := target.value;
        var contents := if path in host.directories then host.directories[path] + f.strays else f.strays;
        host.directories := host.directories[path := contents];
        if Lost(f.ls) {
          return Broken;
        }
        var listing := Listdir(contents, f.ls);
        if listing == [] {
          out := Rmdir(path, f.rm);
          if out == Broken {
            return;
          }
        }
      }
      mounted := false;
      return Done;
    }

    /** `rm -rf`, whose exit code nobody looks at. */
    method Rmdir(path: string, rm: Call) returns (out: Outcome)
      requires path in host.directories
      modifies host`directories, host`removals
      ensures host.removals == if rm == Breaks then old(host.removals)
              else old(host.removals) + [Removal(path, old(host.directories)[path], MountedAt(host.table, path))]
      ensures host.directories == if Acts(rm) then old(host.directories) - {path} else old(host.directories)
      ensures out == if Lost(rm) then Broken else Done
    {
      if rm == Breaks {
        return Broken;
      }
      host.removals := host.removals + [Removal(path, host.directories[path], MountedAt(host.table, path))];
      if Acts(rm) {
        host.directories := host.directories - {path};
      }
      return if rm == BreaksAfter then Broken else Done;
    }

    method DoesRemount(r: Remount) returns (out: Outcome)
      modifies this, host
      ensures (Abstract(), out) == DoRemount(old(Abstract()), r)
    {
      if !mounted {
        return MountError;
      }
      if Acts(r.call) && target.Some? && MountedAt(host.table, target.value) {
        host.table := SetOptions(host.table, target.value, r.opts);
        if r.call == BreaksAfter {
          return Broken;
        }
      } else {
        return if Lost(r.call) then Broken else MountError;
      }
      opts := Some(r.opts);
      return Done;
    }

    /** `with mount_point: ...` */
    method With(b: Block) returns (raises: bool)
      modifies this, host
      ensures (Abstract(), raises) == DoBlock(old(Abstract()), b)
    {
      var out := DoesMount(b.faults);
      if out != Done {
        return true;
      }
      ghost var entered := Abstract();
      var raised, i := false, 0;
      while i < |b.remounts| && !raised
        invariant i <= |b.remounts|
        invariant DoBody(entered, b.remounts, b.bodyRaises) ==
                  if raised then (Abstract(), true) else DoBody(Abstract(), b.remounts[i..], b.bodyRaises)
      {
        assert b.remounts[i..][0] == b.remounts[i] && b.remounts[i..][1..] == b.remounts[i + 1..];
        var r := DoesRemount(b.remounts[i]);
        raised := r != Done && !b.remounts[i].caught;
        i := i + 1;
      }
      raised := raised || b.bodyRaises;
      out := DoesUmount(b.faults);
      if out == MountError {
        return true; // re-raised, or logged while the body's exception passes
      }
      return raised || out == Broken;
    }
  }

  // ---------------------------------------------------------------- what holds in every state

  /**
   The mount table is `base`, with this object's mount on top exactly while it says it is mounted;
   the options there are left open, since a remount may take effect and not be heard of.
   */
  predicate Stacked(st: State, base: seq<Mount>) {
    if st.mounted then
      && st.target.Some? && st.target.value in st.directories
      && |st.table| == |base| + 1 && st.table[..|base|] == base
      && st.table[|base|].(opts := None) == Mount(st.source, st.target.value, st.fsType, None)
    else st.table == base
  }

  /** Whether the object says so exactly when its target is mounted. */
  predicate TellsTruth(st: State) {
    st.mounted <==> st.target.Some? && MountedAt(st.table, st.target.value)
  }

  /** What is mounted is mounted on existing directories, and never on an earlier temporary one of the object's. */
  predicate Apart(st: State, base: seq<Mount>) {
    && (!st.temporary ==> st.target.Some?)
    && (st.temporary && st.target.Some? ==> !MountedAt(base, st.target.value))
    && forall i :: 0 <= i < |base| ==> base[i].target in st.directories
  }

  predicate Good(st: State, base: seq<Mount>) {
    Stacked(st, base) && Apart(st, base)
  }

  /** Something else is mounted at the target, which has been given. */
  predicate Shared(st: State, base: seq<Mount>) {
    !st.temporary && st.target.Some? && MountedAt(base, st.target.value)
  }

  lemma GoodTellsTruth(st: State, base: seq<Mount>)
    requires Good(st, base)
    ensures TellsTruth(st) <==> st.mounted || !Shared(st, base)
  {
    if st.mounted {
      assert st.table[|base|].target == st.target.value;
    }
  }

  /** There is something to mount on: a directory `mktemp` makes and reports, or the given one. */
  predicate HasTarget(st: State, f: Faults) {
    if st.temporary then f.mktemp == Works && f.tempName !in st.directories
    else st.target.Some? && st.target.value in st.directories
  }

  /** The block is entered. */
  predicate Enters(st: State, f: Faults) {
    HasTarget(st, f) && f.mount == Works
  }

  /** The mount takes effect, and the object never hears of it. */
  predicate Strands(st: State, f: Faults) {
    HasTarget(st, f) && f.mount == BreaksAfter
  }

  /** Where the object mounts. */
  function TargetOf(st: State, f: Faults): string
    requires HasTarget(st, f)
  {
    if st.temporary then f.tempName else st.target.value
  }

  /** Entering puts one mount on top, of the object's own source, type and options, whatever is mounted already. */
  lemma MountSpec(st: State, f: Faults)
    ensures var (st1, out) := DoMount(st, f);
            && (out == Done <==> Enters(st, f))
            && (Enters(st, f) ==>
                  && Stacked(st1, st.table) && st1.mounted && st1.target == Some(TargetOf(st, f))
                  && st1.table == st.table + [Mount(st.source, TargetOf(st, f), st.fsType, st.opts)]
                  && st1.source == st.source && st1.fsType == st.fsType && st1.opts == st.opts
                  && st1.temporary == st.temporary && st1.removals == st.removals
                  && st1.directories == if st.temporary then st.directories[f.tempName := []] else st.directories)
            && (st1.table == st.table <==> !Enters(st, f) && !Strands(st, f))
  {
    var (st1, out) := DoMount(st, f);
    if HasTarget(st, f) && Acts(f.mount) {
      assert st1.table[..|st.table|] == st.table;
    }
  }

  /** An attempt that fails: what it may leave behind is the temporary directory, and a mount on it. */
  lemma FailedMountSpec(st: State, f: Faults, base: seq<Mount>)
    requires Good(st, base) && !st.mounted && !Enters(st, f)
    ensures var st1 := DoMount(st, f).0;
            && Apart(st1, base) && !st1.mounted && st1.removals == st.removals && st1.temporary == st.temporary
            && st1.source == st.source && st1.fsType == st.fsType && st1.opts == st.opts
            && (st1.table == base <==> !Strands(st, f))
            && (TellsTruth(st1) <==> !Strands(st, f) && !Shared(st, base)) && (Shared(st1, base) <==> Shared(st, base))
            && st1.directories == if st.temporary && Acts(f.mktemp) && f.tempName !in st.directories
                                  then st.directories[f.tempName := []] else st.directories
  {
    var st1 := DoMount(st, f).0;
    MountSpec(st, f);
    if Strands(st, f) {
      assert st1.table[|base|].target == st1.target.value;
    }
  }

  /** Remounting touches the options of the topmost mount, here and in the table, and nothing else. */
  lemma RemountSpec(st: State, r: Remount, base: seq<Mount>)
    requires Stacked(st, base) && st.mounted
    ensures var (st1, out) := DoRemount(st, r);
            && Stacked(st1, base) && st1 == st.(table := st1.table, opts := st1.opts)
            && (out == Done <==> r.call == Works)
            && st1.table[|base|].opts == (if Acts(r.call) then Some(r.opts) else st.table[|base|].opts)
            && st1.opts == (if r.call == Works then Some(r.opts) else st.opts)
  {
    assert MountedAt(st.table, st.target.value) by { assert st.table[|base|].target == st.target.value; }
    assert st.table[..|st.table| - 1] == base;
    if Acts(r.call) {
      var st1 := DoRemount(st, r).0;
      assert st1.table == base + [st.table[|base|].(opts := Some(r.opts))];
    }
  }

  /** Some remount fails, or is not heard of, and nobody catches it. */
  predicate RemountRaises(rs: seq<Remount>) {
    rs != [] && ((rs[0].call != Works && !rs[0].caught) || RemountRaises(rs[1..]))
  }

  /**
   The options after the remounts of a body, which ends with the first failure nobody catches: as the
   object has heard of them, or as they are in effect.
   */
  function Latest(opts: Option<string>, rs: seq<Remount>, heard: bool): Option<string>
    decreases |rs|
  {
    if rs == [] then opts
    else
      var next := if rs[0].call == Works || (!heard && rs[0].call == BreaksAfter) then Some(rs[0].opts) else opts;
      if rs[0].call != Works && !rs[0].caught then next else Latest(next, rs[1..], heard)
  }

  lemma {:induction false} BodySpec(st: State, rs: seq<Remount>, raises: bool, base: seq<Mount>)
    requires Stacked(st, base) && st.mounted
    ensures var (st1, raised) := DoBody(st, rs, raises);
            && Stacked(st1, base) && st1 == st.(table := st1.table, opts := Latest(st.opts, rs, true))
            && st1.table[|base|].opts == Latest(st.table[|base|].opts, rs, false)
            && (raised <==> raises || RemountRaises(rs))
    decreases |rs|
  {
    if rs != [] {
      RemountSpec(st, rs[0], base);
      var (st1, out) := DoRemount(st, rs[0]);
      if out == Done || rs[0].caught {
        BodySpec(st1, rs[1..], raises, base);
      }
    }
  }

  predicate NoneUnheard(rs: seq<Remount>) {
    rs == [] || (rs[0].call != BreaksAfter && NoneUnheard(rs[1..]))
  }

  lemma {:induction false} LatestIsHeard(opts: Option<string>, rs: seq<Remount>)
    requires NoneUnheard(rs)
    ensures Latest(opts, rs, true) == Latest(opts, rs, false)
    decreases |rs|
  {
    if rs != [] {
      LatestIsHeard(if rs[0].call == Works then Some(rs[0].opts) else opts, rs[1..]);
    }
  }

  /** In a body that goes through, the options are those of the last remount that worked, if any did. */
  lemma {:induction false} LatestIsLastThatWorked(opts: Option<string>, rs: seq<Remount>, k: int)
    requires !RemountRaises(rs) && -1 <= k < |rs| && (k >= 0 ==> rs[k].call == Works)
    requires forall i :: k < i < |rs| ==> rs[i].call != Works
    ensures Latest(opts, rs, true) == if k >= 0 then Some(rs[k].opts) else opts
    decreases |rs|
  {
    if rs != [] {
      var next := if rs[0].call == Works then Some(rs[0].opts) else opts;
      LatestIsLastThatWorked(next, rs[1..], if k > 0 then k - 1 else -1);
    }
  }

  /** The commands of the clean-up do not all come back. */
  predicate CleanupBreaks(f: Faults, contents: seq<string>) {
    Lost(f.ls) || (Listdir(contents, f.ls) == [] && Lost(f.rm))
  }

  /** The directory is taken for empty, and `rm -rf` runs on it. */
  predicate Removes(f: Faults, contents: seq<string>) {
    !Lost(f.ls) && Listdir(contents, f.ls) == [] && f.rm != Breaks
  }

  lemma UmountSpec(st: State, f: Faults, base: seq<Mount>)
    requires Stacked(st, base) && st.mounted && (st.temporary ==> !MountedAt(base, st.target.value))
    ensures var st1 := DoUmount(st, f).0; st1.source == st.source && st1.fsType == st.fsType && st1.opts == st.opts
    ensures var (st1, out) := DoUmount(st, f); var contents := Found(st, f); var path := st.target.value;
            if !Acts(f.umount) then st1 == st && out != Done
            else if f.umount == BreaksAfter then st1 == st.(table := base) && out == Broken
            else
              && st1.table == base && st1.target == st.target && st1.temporary == st.temporary
              && (st.temporary && CleanupBreaks(f, contents) ==> out == Broken && st1.mounted)
              && (!(st.temporary && CleanupBreaks(f, contents)) ==> out == Done && !st1.mounted)
              && st1.removals == st.removals +
                   (if st.temporary && Removes(f, contents) then [Removal(path, contents, false)] else [])
              && st1.directories == (if !st.temporary then st.directories
                   else if Removes(f, contents) && Acts(f.rm) then st.directories - {path}
                   else st.directories[path := contents])
  {
    var path := st.target.value;
    assert MountedAt(st.table, path) by { assert st.table[|base|].target == path; }
    assert st.table[..|st.table| - 1] == base;
    assert Unmount(st.table, path) == base;
    assert st.removals + [] == st.removals;
    assert st.directories[path := Found(st, f)] - {path} == st.directories - {path};
  }

  // ---------------------------------------------------------------- one block

  /** What the object has mounted when the body of the block is over, and what it finds in its directory then. */
  lemma InsideSpec(st: State, b: Block)
    requires Enters(st, b.faults)
    ensures var f := b.faults; var (inside, raised) := DoBody(DoMount(st, f).0, b.remounts, b.bodyRaises);
            && DoBlock(st, b) == DoExit(inside, f, raised) && (raised <==> b.bodyRaises || RemountRaises(b.remounts))
            && Stacked(inside, st.table) && inside.mounted && inside.opts == Latest(st.opts, b.remounts, true)
            && inside.target == Some(TargetOf(st, f))
            && inside.temporary == st.temporary && inside.removals == st.removals
            && inside.source == st.source && inside.fsType == st.fsType
            && inside.directories == (if st.temporary then st.directories[f.tempName := []] else st.directories)
            && (st.temporary ==> Found(inside, f) == f.strays)
  {
    MountSpec(st, b.faults);
    BodySpec(DoMount(st, b.faults).0, b.remounts, b.bodyRaises, st.table);
    assert [] + b.faults.strays == b.faults.strays;
  }

  /** The connection breaks between the unmount's effect and the assignment that records it. */
  predicate ExitBreaks(st: State, f: Faults) {
    f.umount == BreaksAfter || (f.umount == Works && st.temporary && CleanupBreaks(f, f.strays))
  }

  /**
   What a whole block leaves, whatever fails in it. The mount table is as before exactly unless a
   mount took effect unheard or the unmount took none. The object tells the truth about its target
   exactly unless the connection broke behind the mount's or the unmount's effect, or during the
   clean-up; but on a target that something else is mounted on, exactly while it says it is mounted.
   And this is when an exception leaves the block.
   */
  lemma BlockSpec(st: State, b: Block, base: seq<Mount>)
    requires Good(st, base) && !st.mounted
    ensures var (end, raises) := DoBlock(st, b); var f := b.faults;
            && Apart(end, base) && (Shared(end, base) <==> Shared(st, base))
            && (end.table == base <==> !Strands(st, f) && !(Enters(st, f) && !Acts(f.umount)))
            && (end.mounted <==> Enters(st, f) && (!Acts(f.umount) || ExitBreaks(st, f)))
            && (TellsTruth(end) <==> if Shared(st, base) then end.mounted
                                     else !Strands(st, f) && !(Enters(st, f) && ExitBreaks(st, f)))
            && (raises <==> !Enters(st, f) || b.bodyRaises || RemountRaises(b.remounts) || end.mounted)
            && (Stacked(end, base) <==> !Strands(st, f) && !(Enters(st, f) && ExitBreaks(st, f)))
            && end.temporary == st.temporary && end.source == st.source && end.fsType == st.fsType
            && end.opts == if Enters(st, f) then Latest(st.opts, b.remounts, true) else st.opts
  {
    var f := b.faults;
    if Enters(st, f) {
      InsideSpec(st, b);
      var inside := DoBody(DoMount(st, f).0, b.remounts, b.bodyRaises).0;
      UmountSpec(inside, f, base);
      if !Acts(f.umount) {
        GoodTellsTruth(inside, base);
        assert |inside.table| == |base| + 1;
      }
    } else {
      MountSpec(st, f);
      FailedMountSpec(st, f, base);
    }
  }

  /**
   What `rm -rf` is applied to in a block: at most the directory `mktemp` made in it, when nothing is
   mounted there.
   */
  lemma RemovalSpec(st: State, b: Block, base: seq<Mount>)
    requires Good(st, base) && !st.mounted
    ensures var end := DoBlock(st, b).0; var f := b.faults;
            end.removals == st.removals +
              (if Enters(st, f) && f.umount == Works && st.temporary && Removes(f, f.strays)
               then [Removal(f.tempName, f.strays, false)] else [])
    ensures st.temporary && Enters(st, b.faults) ==> b.faults.tempName !in st.directories
    ensures Untouched(st.directories, DoBlock(st, b).0.directories)
  {
    var f := b.faults;
    assert st.removals + [] == st.removals;
    if Enters(st, f) {
      InsideSpec(st, b);
      UmountSpec(DoBody(DoMount(st, f).0, b.remounts, b.bodyRaises).0, f, base);
    } else {
      MountSpec(st, f);
      FailedMountSpec(st, f, base);
    }
  }

  predicate Untouched(before: map<string, seq<string>>, after: map<string, seq<string>>) {
    forall p :: p in before ==> p in after && after[p] == before[p]
  }

  /**
   Between entry and exit, after any remounts, failed or not, the object tells the truth, and its target
   is mounted from its source, with its type, and with its options or those of the latest remount.
   */
  lemma TruthInsideBlock(st: State, f: Faults, rs: seq<Remount>, base: seq<Mount>)
    requires Good(st, base) && !st.mounted && Enters(st, f)
    ensures var inside := DoBody(DoMount(st, f).0, rs, false).0;
            && TellsTruth(inside) && inside.mounted && Good(inside, base)
            && inside.temporary == st.temporary && inside.target == Some(TargetOf(st, f))
            && inside.source == st.source && inside.fsType == st.fsType && inside.opts == Latest(st.opts, rs, true)
            && inside.table
            == base + [Mount(st.source, TargetOf(st, f), st.fsType, Latest(st.opts, rs, false))]
            && (NoneUnheard(rs) ==> inside.opts == inside.table[|base|].opts)
  {
    MountSpec(st, f);
    var entered := DoMount(st, f).0;
    BodySpec(entered, rs, false, base);
    var inside := DoBody(entered, rs, false).0;
    GoodTellsTruth(inside, base);
    assert inside.table == inside.table[..|base|] + [inside.table[|base|]];
    if NoneUnheard(rs) {
      LatestIsHeard(st.opts, rs);
    }
  }

  /** `listdir` sees nothing exactly when `ls` failed, or every name is all whitespace. */
  lemma ListdirEmpty(contents: seq<string>, ls: Call)
    ensures Listdir(contents, ls) == [] <==>
            ls != Works || forall i :: 0 <= i < |contents| ==> Every(contents[i], IsSpace)
  {
    WordsSpec(if ls == Works then Unlines(contents) else "", IsSpace);
    BlankUnlines(contents);
  }

  lemma {:induction false} BlankUnlines(contents: seq<string>)
    ensures Every(Unlines(contents), IsSpace) <==> forall i :: 0 <= i < |contents| ==> Every(contents[i], IsSpace)
    decreases |contents|
  {
    if contents != [] {
      var text, rest := Unlines(contents), Unlines(contents[1..]);
      BlankUnlines(contents[1..]);
      assert text[..|contents[0]|] == contents[0] && text[|contents[0]|] == '\n' && text[|contents[0]| + 1..] == rest;
      if Every(text, IsSpace) {
        forall i | 0 <= i < |rest| ensures IsSpace(rest[i]) { assert rest[i] == text[|contents[0]| + 1 + i]; }
        forall i | 0 <= i < |contents| ensures Every(contents[i], IsSpace) {
          assert i > 0 ==> contents[i] == contents[1..][i - 1];
        }
      }
    }
  }

  /** `ls` fails, or can only show names that are all whitespace. */
  predicate LooksEmpty(f: Faults) {
    f.ls == Fails || (f.ls == Works && forall i :: 0 <= i < |f.strays| ==> Every(f.strays[i], IsSpace))
  }

  lemma RemovesIff(f: Faults)
    ensures Removes(f, f.strays) <==> LooksEmpty(f) && f.rm != Breaks
  {
    ListdirEmpty(f.strays, f.ls);
  }

  /**
   When `rm -rf` is applied to a directory that is not empty: exactly when a block on a temporary
   directory comes to its clean-up, other programs left something there, and it looks empty.
   */
  lemma RemovesNonEmpty(st: State, b: Block, base: seq<Mount>)
    requires Good(st, base) && !st.mounted
    ensures var end := DoBlock(st, b).0; var f := b.faults;
            (exists i :: |st.removals| <= i < |end.removals| && end.removals[i].contents != [])
            <==> st.temporary && Enters(st, f) && f.umount == Works && f.rm != Breaks && f.strays != [] && LooksEmpty(f)
  {
    RemovalSpec(st, b, base);
    RemovesIff(b.faults);
    var end, f := DoBlock(st, b).0, b.faults;
    if Enters(st, f) && f.umount == Works && st.temporary && Removes(f, f.strays) {
      assert end.removals[|st.removals|] == Removal(f.tempName, f.strays, false);
    }
  }

  /**
   The directories are as before exactly when no temporary directory was made, or when everything from
   mounting to removing was done; a failed mount, in particular, leaves the temporary directory behind.
   */
  lemma DirectoriesRestored(st: State, b: Block, base: seq<Mount>)
    requires Good(st, base) && !st.mounted
    ensures var end := DoBlock(st, b).0; var f := b.faults;
            end.directories == st.directories <==>
              || !st.temporary || !Acts(f.mktemp) || f.tempName in st.directories
              || (Enters(st, f) && f.umount == Works && LooksEmpty(f) && Acts(f.rm))
  {
    var f := b.faults;
    RemovesIff(f);
    if Enters(st, f) {
      InsideSpec(st, b);
      UmountSpec(DoBody(DoMount(st, f).0, b.remounts, b.bodyRaises).0, f, base);
      if st.temporary {
        assert st.directories[f.tempName := []] - {f.tempName} == st.directories;
      }
    } else {
      MountSpec(st, f);
      FailedMountSpec(st, f, base);
    }
  }

  // ---------------------------------------------------------------- sequences of blocks

  function DoBlocks(st: State, bs: seq<Block>): State
    decreases |bs|
  {
    if bs == [] then st else DoBlocks(DoBlock(st, bs[0]).0, bs[1..])
  }

  /** The block's exit commands come back, the unmount succeeds, and no mount takes effect unheard. */
  predicate Reliable(f: Faults) {
    f.mount != BreaksAfter && f.umount == Works && !Lost(f.ls) && !Lost(f.rm)
  }

  predicate AllReliable(bs: seq<Block>) {
    bs == [] || (Reliable(bs[0].faults) && AllReliable(bs[1..]))
  }

  /** A removal one of the blocks may do: its own directory, not mounted any more, looking empty. */
  predicate IsRemovalOf(r: Removal, f: Faults) {
    r == Removal(f.tempName, f.strays, false) && LooksEmpty(f)
  }

  /** Removals since `before` are such, and hit directories that did not exist before. */
  ghost predicate SafeRemovals(before: State, after: State, bs: seq<Block>) {
    && before.removals <= after.removals
    && forall i :: |before.removals| <= i < |after.removals| ==>
         after.removals[i].path !in before.directories
         && exists k :: 0 <= k < |bs| && IsRemovalOf(after.removals[i], bs[k].faults)
  }

  /**
   Over any sequence of blocks whose unmounts work, whatever mounts, remounts and bodies do: the mount
   table is restored, the object says it has nothing mounted, `rm -rf` was only ever applied to a block's own temporary
   directory, unmounted and looking empty, and every directory there was before is as it was.
   */
  lemma {:induction false} BlocksRestoreTable(st: State, bs: seq<Block>, base: seq<Mount>)
    requires Good(st, base) && !st.mounted && AllReliable(bs)
    ensures var end := DoBlocks(st, bs);
            && end.table == base && !end.mounted && Good(end, base)
            && (TellsTruth(end) <==> !Shared(st, base))
            && SafeRemovals(st, end, bs) && Untouched(st.directories, end.directories)
    decreases |bs|
  {
    if bs == [] {
      GoodTellsTruth(st, base);
    } else {
      var next, end := DoBlock(st, bs[0]).0, DoBlocks(st, bs);
      BlockSpec(st, bs[0], base);
      RemovalSpec(st, bs[0], base);
      RemovesIff(bs[0].faults);
      BlocksRestoreTable(next, bs[1..], base);
      forall i | |st.removals| <= i < |end.removals|
        ensures end.removals[i].path !in st.directories
        ensures exists k :: 0 <= k < |bs| && IsRemovalOf(end.removals[i], bs[k].faults)
      {
        if i < |next.removals| {
          assert end.removals[i] == next.removals[i] && IsRemovalOf(end.removals[i], bs[0].faults);
        } else {
          var k :| 0 <= k < |bs[1..]| && IsRemovalOf(end.removals[i], bs[1..][k].faults);
          assert bs[k + 1] == bs[1..][k];
        }
      }
    }
  }

  /** So with every `ls` working and no blank names, only empty directories are ever removed. */
  lemma BlocksRemoveOnlyEmpty(st: State, bs: seq<Block>, base: seq<Mount>)
    requires Good(st, base) && !st.mounted && AllReliable(bs)
    requires forall k :: 0 <= k < |bs| ==> bs[k].faults.ls == Works && NoBlankName(bs[k].faults.strays)
    ensures var end := DoBlocks(st, bs);
            forall i :: |st.removals| <= i < |end.removals| ==> end.removals[i].contents == []
  {
    BlocksRestoreTable(st, bs, base);
    var end := DoBlocks(st, bs);
    forall i | |st.removals| <= i < |end.removals| ensures end.removals[i].contents == [] {
      var k :| 0 <= k < |bs| && IsRemovalOf(end.removals[i], bs[k].faults);
      SeenOrEmpty(bs[k].faults);
    }
  }

  lemma SeenOrEmpty(f: Faults)
    ensures f.ls == Works && LooksEmpty(f) && NoBlankName(f.strays) ==> f.strays == []
  {
    var firstIsBlank := f.strays != [] && Every(f.strays[0], IsSpace);
  }

  predicate NoBlankName(names: seq<string>) {
    forall i :: 0 <= i < |names| ==> !Every(names[i], IsSpace)
  }

  // ---------------------------------------------------------------- entering twice

  /** A block on an object in whatever state, with exit commands that work, takes away just its own mount. */
  lemma ReliableBlockSpec(st: State, b: Block)
    requires Enters(st, b.faults) && Reliable(b.faults)
    requires st.temporary ==> !MountedAt(st.table, b.faults.tempName)
    ensures var (end, raises) := DoBlock(st, b);
            && end.table == st.table && !end.mounted && end.target == Some(TargetOf(st, b.faults))
            && end.temporary == st.temporary
            && (raises <==> b.bodyRaises || RemountRaises(b.remounts))
  {
    InsideSpec(st, b);
    UmountSpec(DoBody(DoMount(st, b.faults).0, b.remounts, b.bodyRaises).0, b.faults, st.table);
  }

  /**
   A block `b` on the same object inside the body of a block with commands `f`, after any remounts;
   both are entered and their exit commands work. A given target has both mounts taken back, and the
   object is wrong about it only between the two exits, or if something else is mounted there. A
   temporary point has forgotten the first directory: its mount stays for good and the outer exit
   raises, and yet the object always tells the truth, about the second directory.
   */
  lemma EnteringTwice(st: State, f: Faults, rs: seq<Remount>, b: Block, raised: bool, base: seq<Mount>)
    requires Good(st, base) && !st.mounted && Enters(st, f) && Reliable(f)
    requires Reliable(b.faults) && Enters(DoBody(DoMount(st, f).0, rs, false).0, b.faults)
    ensures var outer := DoBody(DoMount(st, f).0, rs, false).0;
            var inner := DoBlock(outer, b).0;
            var (end, raises) := DoExit(inner, f, raised);
            && inner.table == outer.table && !inner.mounted && !end.mounted
            && (TellsTruth(inner) <==> st.temporary)
            && (end.table == base <==> !st.temporary) && (st.temporary ==> end.table == outer.table)
            && (TellsTruth(end) <==> !Shared(st, base)) && (raises <==> raised || st.temporary)
  {
    var outer := DoBody(DoMount(st, f).0, rs, false).0;
    TruthInsideBlock(st, f, rs, base);
    TopOfStack(outer, base);
    assert st.temporary ==> !MountedAt(outer.table, b.faults.tempName);
    ReliableBlockSpec(outer, b);
    SecondExit(DoBlock(outer, b).0, f, base);
  }

  /** What the outer exit finds: its mount on top, or a target nothing is mounted on. */
  lemma SecondExit(st: State, f: Faults, base: seq<Mount>)
    requires st.target.Some? && !st.mounted && f.umount == Works
    ensures var (end, out) := DoUmount(st, f);
            if !MountedAt(st.table, st.target.value) then end == st && out == MountError
            else st.table != [] && st.table[|st.table| - 1].target == st.target.value && !st.temporary ==>
              end == st.(table := st.table[..|st.table| - 1]) && out == Done
  {
  }

  lemma TopOfStack(st: State, base: seq<Mount>)
    requires Good(st, base) && st.mounted
    ensures MountedAt(st.table, st.target.value) && st.table[..|st.table| - 1] == base && |st.table| == |base| + 1
    ensures forall path :: MountedAt(st.table, path) ==> path in st.directories
    ensures forall path :: path != st.target.value ==> (MountedAt(st.table, path) <==> MountedAt(base, path))
  {
    assert st.table[|base|].target == st.target.value;
    assert forall i :: 0 <= i < |base| ==> st.table[i] == base[i];
  }
}
