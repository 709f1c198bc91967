/**
 The choice of a service provider: the `_can_handle` checks of rrmngmnt/service.py and the sticky
 provider cache of `Host.service` in rrmngmnt/host.py.
 */
module Providers {
  import opened Wrappers
  import opened Text

  /** The three default classes, or a class the caller passed to `Host`. */
  datatype Provider = Systemd | SysVinit | InitCtl | Custom(id: nat)

  const DEFAULTS: seq<Provider> := [Systemd, SysVinit, InitCtl]

  /** What the remote commands of the checks report, fixed for the time of a run. */
  datatype Facts = Facts(
    tools: set<string>,          // commands `which` finds
    units: Option<string>,       // unit names listed for systemctl, None if the pipeline fails
    scripts: set<string>,        // existing files
    jobs: Option<string>,        // job names listed by initctl, None if the pipeline fails
    custom: set<(nat, string)>)  // what custom providers can handle

  /** A check passes, raises CanNotHandle, or fails on `re.match(...)` being None. */
  datatype Verdict = Handles | CanNotHandle | AttributeError

  // ---------------------------------------------------------------- the checks

  predicate IsNewline(c: char) {
    c == '\n'
  }

  function LastAt(s: string): (r: Option<nat>)
    ensures r.Some? ==> r.value < |s| && s[r.value] == '@' && '@' !in s[r.value + 1..]
    ensures r == None ==> '@' !in s
  {
    if s == "" then None
    else if s[|s| - 1] == '@' then Some(|s| - 1)
    else
      assert s == s[..|s| - 1] + [s[|s| - 1]];
      var r := LastAt(s[..|s| - 1]);
      assert r.Some? ==> s[r.value + 1..] == s[..|s| - 1][r.value + 1..] + [s[|s| - 1]];
      r
  }

  /** The name systemctl is asked for: `re.match(r'^.*@', name)`, or the name itself if it has no '@'. */
  function Stem(name: string): Option<string> {
    if '@' !in name then Some(name)
    else match LastAt(name[..RunLength(name, IsNewline)])
      case None => None
      case Some(k) => Some(name[..k + 1])
  }

  predicate Listed(name: string, out: Option<string>) {
    out.Some? && name in SplitLines(Strip(out.value, IsSpace))
  }

  function Check(p: Provider, name: string, f: Facts): Verdict {
    match p
    case Systemd =>
      if "systemctl" !in f.tools then CanNotHandle
      else if Stem(name) == None then AttributeError
      else if Listed(Stem(name).value, f.units) then Handles else CanNotHandle
    case SysVinit =>
      if name == "libvirtd" || "service" !in f.tools || "/etc/init.d/" + name !in f.scripts
      then CanNotHandle
      else Handles
    case InitCtl =>
      if "initctl" !in f.tools || !Listed(name, f.jobs) then CanNotHandle else Handles
    case Custom(id) =>
      if (id, name) in f.custom then Handles else CanNotHandle
  }

  class SystemService {
    const provider: Provider
    var name: string

    constructor (provider: Provider, name: string)
      ensures this.provider == provider && this.name == name
    {
      this.provider, this.name := provider, name;
    }

    /** `_can_handle`; the systemd check works on a shortened name and puts the full one back only if it passes. */
    method CanHandle(f: Facts) returns (v: Verdict)
      modifies this
      ensures v == Check(provider, old(name), f)
      ensures name == if provider == Systemd && v == CanNotHandle && "systemctl" in f.tools && Stem(old(name)).Some?
                      then Stem(old(name)).value else old(name)
    {
      match provider
      case Systemd =>
        if "systemctl" !in f.tools {
          return CanNotHandle;
        }
        var origName := name;
        if '@' in name {
          var at := LastAt(name[..RunLength(name, IsNewline)]);
          if at == None {
            return AttributeError;
          }
          name := name[..at.value + 1];
        }
        if f.units == None || name !in SplitLines(Strip(f.units.value, IsSpace)) {
          return CanNotHandle;
        }
        name := origName;
        return Handles;
      case SysVinit =>
        if name == "libvirtd" {
          return CanNotHandle;
        }
        if "service" !in f.tools {
          return CanNotHandle;
        }
        return if "/etc/init.d/" + name in f.scripts then Handles else CanNotHandle;
      case InitCtl =>
        if "initctl" !in f.tools {
          return CanNotHandle;
        }
        return if f.jobs == None || name !in SplitLines(Strip(f.jobs.value, IsSpace)) then CanNotHandle else Handles;
      case Custom(id) =>
        return if (id, name) in f.custom then Handles else CanNotHandle;
    }
  }

  /** An instance `base@instance` is judged by its template `base@`, whatever the instance is called. */
  lemma InstancesShareTheirTemplate(base: string, one: string, other: string, f: Facts)
    requires '@' !in one && '@' !in other && Free(base, IsNewline)
    ensures Stem(base + "@" + one) == Some(base + "@")
    ensures Check(Systemd, base + "@" + one, f) == Check(Systemd, base + "@" + other, f)
  {
    StemOfInstance(base, one);
    StemOfInstance(base, other);
  }

  lemma StemOfInstance(base: string, instance: string)
    requires '@' !in instance && Free(base, IsNewline)
    ensures Stem(base + "@" + instance) == Some(base + "@")
  {
    var name, front := base + "@" + instance, base + "@";
    RunLengthThrough(front, instance, IsNewline);
    var n := RunLength(name, IsNewline);
    var line := name[..n];
    assert line[|base|] == '@' && line[|base| + 1..] == instance[..n - |front|];
    LastAtIs(line, |base|);
    assert line[..|base| + 1] == front;
    assert '@' in name by { assert name[|base|] == '@'; }
    assert name[..n][..|base| + 1] == name[..|base| + 1];
  }

  lemma {:induction false} LastAtIs(s: string, k: nat)
    requires k < |s| && s[k] == '@' && '@' !in s[k + 1..]
    ensures LastAt(s) == Some(k)
    decreases |s|
  {
    if k < |s| - 1 {
      assert s[k + 1..][|s| - k - 2] == s[|s| - 1];
      assert s[..|s| - 1][k + 1..] == s[k + 1..][..|s| - k - 2];
      LastAtIs(s[..|s| - 1], k);
    }
  }

  // ---------------------------------------------------------------- what the checks mean

  /** A name as the pipelines print it. */
  predicate PlainName(name: string) {
    name != "" && Trimmed(name, IsSpace) && Free(name, IsLineBreak)
  }

  predicate PlainNames(names: seq<string>) {
    forall i :: 0 <= i < |names| ==> PlainName(names[i])
  }

  /** Names printed one a line are found by name. */
  lemma ListedIsMember(name: string, names: seq<string>)
    requires PlainNames(names)
    ensures Listed(name, Some(Unlines(names))) <==> name in names
  {
    if names == [] {
      assert Strip("", IsSpace) == "";
    } else {
      var last := names[|names| - 1];
      assert names[|names| - 1 := last + ""] == names by { assert last + "" == last; }
      assert PlainName(names[0]) && PlainName(last);
      StrippedLines(names, "");
    }
  }

  /**
   systemd takes a name without '@' exactly when systemctl is there and lists it, and an instance
   `base@x` exactly when systemctl is there and lists `base@`. If the listing fails it takes none.
   */
  lemma SystemdTakes(units: seq<string>, name: string, base: string, x: string, f: Facts)
    requires PlainNames(units) && f.units == Some(Unlines(units))
    requires '@' !in name && '@' !in x && Free(base, IsNewline)
    ensures Check(Systemd, name, f) == if "systemctl" in f.tools && name in units then Handles else CanNotHandle
    ensures Check(Systemd, base + "@" + x, f)
         == if "systemctl" in f.tools && base + "@" in units then Handles else CanNotHandle
    ensures Check(Systemd, name, f.(units := None)) == CanNotHandle
  {
    ListedIsMember(name, units);
    ListedIsMember(base + "@", units);
    StemOfInstance(base, x);
  }

  /** The check breaks exactly on names whose only '@' stand behind a newline, if systemctl is there. */
  lemma SystemdBreaks(first: string, more: string, f: Facts)
    requires Free(first, IsNewline)
    ensures Check(Systemd, first + "\n" + more, f) == AttributeError
       <==> "systemctl" in f.tools && '@' !in first && '@' in more
  {
    var name := first + "\n" + more;
    assert name == first + ("\n" + more);
    RunLengthWord(first, "\n" + more, IsNewline);
    assert name[..|first|] == first;
    assert '@' in name <==> '@' in first || '@' in more;
  }

  /** A system V script is taken unless it is libvirtd's; it has to be there, and so has `service`. */
  lemma SysVinitTakes(name: string, f: Facts)
    ensures Check(SysVinit, name, f)
         == if name != "libvirtd" && "service" in f.tools && "/etc/init.d/" + name in f.scripts then Handles
            else CanNotHandle
  {
  }

  /** An upstart job is taken exactly when initctl is there and lists it. */
  lemma InitCtlTakes(jobs: seq<string>, name: string, f: Facts)
    requires PlainNames(jobs) && f.jobs == Some(Unlines(jobs))
    ensures Check(InitCtl, name, f) == if "initctl" in f.tools && name in jobs then Handles else CanNotHandle
    ensures Check(InitCtl, name, f.(jobs := None)) == CanNotHandle
  {
    ListedIsMember(name, jobs);
  }

  // ---------------------------------------------------------------- choosing

  datatype Error = NoProvider | Broken

  /** `_create_service`: the earliest default that can handle the name. */
  function FirstCapable(ps: seq<Provider>, name: string, f: Facts): Result<Provider, Error> {
    if ps == [] then Err(NoProvider)
    else match Check(ps[0], name, f)
      case Handles => Ok(ps[0])
      case CanNotHandle => FirstCapable(ps[1..], name, f)
      case AttributeError => Err(Broken)
  }

  /** What `service` answers when `cache` is the cached provider. */
  function Choose(cache: Option<Provider>, name: string, f: Facts): Result<Provider, Error> {
    if cache == None then FirstCapable(DEFAULTS, name, f)
    else match Check(cache.value, name, f)
      case Handles => Ok(cache.value)
      case CanNotHandle => FirstCapable(DEFAULTS, name, f)
      case AttributeError => Err(Broken)
  }

  function NextCache(cache: Option<Provider>, name: string, f: Facts): Option<Provider> {
    match Choose(cache, name, f)
    case Ok(p) => Some(p)
    case Err(_) => cache
  }

  class Host {
    var serviceProvider: Option<Provider>

    constructor (serviceProvider: Option<Provider>)
      ensures this.serviceProvider == serviceProvider
    {
      this.serviceProvider := serviceProvider;
    }

    method CreateService(name: string, f: Facts) returns (r: Result<SystemService, Error>)
      modifies this
      ensures match r
              case Ok(s) => fresh(s) && s.name == name && Ok(s.provider) == FirstCapable(DEFAULTS, name, f)
                            && serviceProvider == Some(s.provider)
              case Err(e) => FirstCapable(DEFAULTS, name, f) == Err(e) && serviceProvider == old(serviceProvider)
    {
      for i := 0 to |DEFAULTS|
        invariant FirstCapable(DEFAULTS, name, f) == FirstCapable(DEFAULTS[i..], name, f)
        invariant serviceProvider == old(serviceProvider)
      {
        assert DEFAULTS[i..][1..] == DEFAULTS[i + 1..];
        var service := new SystemService(DEFAULTS[i], name);
        var v := service.CanHandle(f);
        match v {
        case Handles =>
          serviceProvider := Some(DEFAULTS[i]);
          return Ok(service);
        case CanNotHandle =>
        case AttributeError =>
          return Err(Broken);
        }
      }
      return Err(NoProvider);
    }

    /** `service`: the object handed out serves the name asked for, with the provider that is cached from now on. */
    method Service(name: string, f: Facts) returns (r: Result<SystemService, Error>)
      modifies this
      ensures match r
              case Ok(s) => fresh(s) && s.name == name && Ok(s.provider) == Choose(old(serviceProvider), name, f)
              case Err(e) => Choose(old(serviceProvider), name, f) == Err(e)
      ensures serviceProvider == NextCache(old(serviceProvider), name, f)
    {
      if serviceProvider == None {
        r := CreateService(name, f);
        if r.Ok? {
          serviceProvider := Some(r.value.provider);
        }
        return;
      }
      var service := new SystemService(serviceProvider.value, name);
      var v := service.CanHandle(f);
      match v {
      case Handles =>
        return Ok(service);
      case CanNotHandle =>
        r := CreateService(name, f);
        if r.Ok? {
          serviceProvider := Some(r.value.provider);
        }
      case AttributeError =>
        return Err(Broken);
      }
    }
  }

  /** What a host has: commands, listed units, init scripts, listed jobs. */
  datatype Installed = Installed(tools: set<string>, units: seq<string>, scripts: set<string>, jobs: seq<string>)

  /** What the checks get to see of it. */
  function Printed(on: Installed): Facts {
    Facts(on.tools, Some(Unlines(on.units)), on.scripts, Some(Unlines(on.jobs)), {})
  }

  /** The provider of a service, `unit` being what systemctl would list it under. */
  function Expected(on: Installed, name: string, unit: string): Option<Provider> {
    if "systemctl" in on.tools && unit in on.units then Some(Systemd)
    else if name != "libvirtd" && "service" in on.tools && "/etc/init.d/" + name in on.scripts then Some(SysVinit)
    else if "initctl" in on.tools && name in on.jobs then Some(InitCtl)
    else None
  }

  /**
   The first service asked of a host, an instance of a template if `x` is given: systemd before system
   V scripts before upstart, each only if it knows the service; and what is chosen is remembered.
   */
  method FirstService(on: Installed, base: string, x: Option<string>)
    returns (provider: Option<Provider>, remembered: Option<Provider>)
    requires PlainNames(on.units) && PlainNames(on.jobs)
    requires if x == None then '@' !in base else '@' !in x.value && Free(base, IsNewline)
    ensures provider == match x { case None => Expected(on, base, base)
                                  case Some(i) => Expected(on, base + "@" + i, base + "@") }
    ensures remembered == provider
  {
    var f := Printed(on);
    var name := if x == None then base else base + "@" + x.value;
    if x == None {
      SystemdTakes(on.units, name, "", "", f);
    } else {
      SystemdTakes(on.units, "", base, x.value, f);
    }
    ExpectedIsChosen(on, name, if x == None then base else base + "@");
    var host := new Host(None);
    var r := host.Service(name, f);
    return if r.Ok? then Some(r.value.provider) else None, host.serviceProvider;
  }

  lemma ExpectedIsChosen(on: Installed, name: string, unit: string)
    requires PlainNames(on.jobs)
    requires Check(Systemd, name, Printed(on))
          == if "systemctl" in on.tools && unit in on.units then Handles else CanNotHandle
    ensures Choose(None, name, Printed(on))
         == match Expected(on, name, unit) { case Some(p) => Ok(p) case None => Err(NoProvider) }
  {
    var f := Printed(on);
    SysVinitTakes(name, f);
    InitCtlTakes(on.jobs, name, f);
    InDefaultOrder(name, f);
  }

  /** systemd, then system V scripts, then upstart. */
  lemma InDefaultOrder(name: string, f: Facts)
    ensures FirstCapable(DEFAULTS, name, f) ==
            if Check(Systemd, name, f) == Handles then Ok(Systemd)
            else if Check(Systemd, name, f) == AttributeError then Err(Broken)
            else if Check(SysVinit, name, f) == Handles then Ok(SysVinit)
            else if Check(InitCtl, name, f) == Handles then Ok(InitCtl)
            else Err(NoProvider)
  {
    FirstCapableSpec(name, f, Systemd);
    FirstCapableSpec(name, f, SysVinit);
    FirstCapableSpec(name, f, InitCtl);
    assert DEFAULTS[0] == Systemd && DEFAULTS[1] == SysVinit && DEFAULTS[2] == InitCtl;
  }

  // ---------------------------------------------------------------- sequences of calls

  function CacheAfter(cache: Option<Provider>, names: seq<string>, f: Facts): Option<Provider>
    decreases |names|
  {
    if names == [] then cache else CacheAfter(NextCache(cache, names[0], f), names[1..], f)
  }

  function Answers(cache: Option<Provider>, names: seq<string>, f: Facts): seq<Result<Provider, Error>>
    decreases |names|
  {
    if names == [] then []
    else [Choose(cache, names[0], f)] + Answers(NextCache(cache, names[0], f), names[1..], f)
  }

  /** `p` is the earliest default that can handle the name, and no earlier one breaks. */
  predicate Earliest(p: Provider, name: string, f: Facts) {
    exists i :: 0 <= i < |DEFAULTS| && DEFAULTS[i] == p && Check(p, name, f) == Handles
                && forall j :: 0 <= j < i ==> Check(DEFAULTS[j], name, f) == CanNotHandle
  }

  /** Each answer: the provider cached at that time if it can handle the name, else the earliest default that can. */
  lemma ChooseSpec(cache: Option<Provider>, name: string, f: Facts, p: Provider)
    ensures Choose(cache, name, f) == Ok(p) <==>
            || (cache == Some(p) && Check(p, name, f) == Handles)
            || ((cache == None || Check(cache.value, name, f) == CanNotHandle) && Earliest(p, name, f))
    ensures Choose(cache, name, f) == Err(NoProvider) <==>
            (cache == None || Check(cache.value, name, f) == CanNotHandle)
            && forall i :: 0 <= i < |DEFAULTS| ==> Check(DEFAULTS[i], name, f) == CanNotHandle
  {
    FirstCapableSpec(name, f, p);
  }

  lemma FirstCapableSpec(name: string, f: Facts, p: Provider)
    ensures FirstCapable(DEFAULTS, name, f) == Ok(p) <==> Earliest(p, name, f)
    ensures FirstCapable(DEFAULTS, name, f) == Err(NoProvider) <==>
            forall i :: 0 <= i < |DEFAULTS| ==> Check(DEFAULTS[i], name, f) == CanNotHandle
  {
    var a, b, c := Check(Systemd, name, f), Check(SysVinit, name, f), Check(InitCtl, name, f);
    assert DEFAULTS[0] == Systemd && DEFAULTS[1] == SysVinit && DEFAULTS[2] == InitCtl;
    assert FirstCapable(DEFAULTS[3..], name, f) == Err(NoProvider);
    assert DEFAULTS[2..][1..] == DEFAULTS[3..] && DEFAULTS[1..][1..] == DEFAULTS[2..];
    assert FirstCapable(DEFAULTS[2..], name, f) ==
           match c {
             case Handles => Ok(InitCtl)
             case CanNotHandle => Err(NoProvider)
             case AttributeError => Err(Broken) };
    assert FirstCapable(DEFAULTS[1..], name, f) ==
           match b {
             case Handles => Ok(SysVinit)
             case CanNotHandle => FirstCapable(DEFAULTS[2..], name, f)
             case AttributeError => Err(Broken) };
  }

  /** Over any sequence of calls: every provider handed out handles the name it is handed out for. */
  lemma {:induction false} AnswersHandle(cache: Option<Provider>, names: seq<string>, f: Facts)
    ensures |Answers(cache, names, f)| == |names|
    ensures forall i :: 0 <= i < |names| ==>
              Answers(cache, names, f)[i].Ok? ==> Check(Answers(cache, names, f)[i].value, names[i], f) == Handles
    ensures forall i :: 0 <= i < |names| ==>
              Answers(cache, names, f)[i] == Choose(CacheAfter(cache, names[..i], f), names[i], f)
    decreases |names|
  {
    if names != [] {
      var next := NextCache(cache, names[0], f);
      AnswersHandle(next, names[1..], f);
      var p := Choose(cache, names[0], f);
      if p.Ok? {
        ChooseSpec(cache, names[0], f, p.value);
      }
      forall i | 0 < i < |names| ensures CacheAfter(cache, names[..i], f) == CacheAfter(next, names[1..][..i - 1], f) {
        assert names[..i][1..] == names[1..][..i - 1];
      }
    }
  }

  /** A custom provider is never picked again once another one has taken its place. */
  lemma {:induction false} DisplacedCustomStaysOut(cache: Option<Provider>, names: seq<string>, f: Facts)
    requires cache == None || cache.value in DEFAULTS
    ensures CacheAfter(cache, names, f) == None || CacheAfter(cache, names, f).value in DEFAULTS
    ensures |Answers(cache, names, f)| == |names|
    ensures forall i :: 0 <= i < |names| ==>
              Answers(cache, names, f)[i].Ok? ==> Answers(cache, names, f)[i].value in DEFAULTS
    decreases |names|
  {
    if names != [] {
      var p := Choose(cache, names[0], f);
      if p.Ok? {
        ChooseSpec(cache, names[0], f, p.value);
        assert p.value in DEFAULTS;
      }
      DisplacedCustomStaysOut(NextCache(cache, names[0], f), names[1..], f);
    }
  }

  /** Some default class comes to handle the name, and no class before it breaks on it. */
  ghost predicate Served(name: string, f: Facts) {
    exists p :: Earliest(p, name, f)
  }

  /**
   When a custom provider is displaced: it stays cached through any calls exactly when it can handle
   every name asked for that some default class could take over. A name nobody handles leaves it.
   */
  lemma {:induction false} CustomKeptIffNeverServed(id: nat, names: seq<string>, f: Facts)
    ensures CacheAfter(Some(Custom(id)), names, f) == Some(Custom(id)) <==>
            forall n :: n in names ==> Check(Custom(id), n, f) == Handles || !Served(n, f)
    decreases |names|
  {
    if names != [] {
      var c, n, rest := Custom(id), names[0], names[1..];
      assert forall m :: m in names <==> m == n || m in rest;
      ServedSpec(n, f);
      if Check(c, n, f) == Handles || !Served(n, f) {
        CustomKeptIffNeverServed(id, rest, f);
      } else {
        var p :| Earliest(p, n, f);
        FirstCapableSpec(n, f, p);
        DisplacedCustomStaysOut(Some(p), rest, f);
      }
    }
  }

  lemma ServedSpec(name: string, f: Facts)
    ensures Served(name, f) <==> FirstCapable(DEFAULTS, name, f).Ok?
  {
    match FirstCapable(DEFAULTS, name, f)
    case Ok(p) => FirstCapableSpec(name, f, p);
    case Err(_) =>
      forall p ensures !Earliest(p, name, f) { FirstCapableSpec(name, f, p); }
  }

  /** The cache stays with one provider through any calls that provider can handle. */
  lemma {:induction false} CacheIsSticky(p: Provider, names: seq<string>, f: Facts)
    requires forall n :: n in names ==> Check(p, n, f) == Handles
    ensures CacheAfter(Some(p), names, f) == Some(p)
    ensures |Answers(Some(p), names, f)| == |names|
    ensures forall i :: 0 <= i < |names| ==> Answers(Some(p), names, f)[i] == Ok(p)
    decreases |names|
  {
    if names != [] {
      assert names[0] in names;
      CacheIsSticky(p, names[1..], f);
    }
  }

  /**
   What was asked before matters for a name exactly when the provider it left in the cache can handle
   the name too and is not the one an empty cache would give. (Only the first default can break on a
   name, so a broken check breaks with an empty cache as well.)
   */
  lemma HistoryMatters(p: Provider, name: string, f: Facts)
    ensures Choose(Some(p), name, f) != Choose(None, name, f) <==>
            Check(p, name, f) == Handles && !Earliest(p, name, f)
  {
    FirstCapableSpec(name, f, p);
  }
}
