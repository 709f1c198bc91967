/**
 A remote process as its reader sees it: a script of writes, closes and the exit, which runs on
 its own while the reader works. `schedule` says how many script events happen before each action
 of the reader, so that quantifying over schedules quantifies over interleavings; a process does
 not stop half-way, so once the schedule is used up the rest of the script runs.
 */
module Remote {
  import opened Wrappers

  datatype Event = WriteOut(text: string) | WriteErr(text: string) | CloseOut | CloseErr | Exit(code: int)

  /** What the remaining script still writes to stdout, and to stderr. */
  function Outs(es: seq<Event>): string {
    if es == [] then "" else (if es[0].WriteOut? then es[0].text else "") + Outs(es[1..])
  }

  function Errs(es: seq<Event>): string {
    if es == [] then "" else (if es[0].WriteErr? then es[0].text else "") + Errs(es[1..])
  }

  function ExitCode(es: seq<Event>): Option<int> {
    if es == [] then None else if es[0].Exit? then Some(es[0].code) else ExitCode(es[1..])
  }

  /** The rest of the script closes both streams and exits, each once, and writes to no closed stream. */
  predicate WellFormed(es: seq<Event>, outClosed: bool, errClosed: bool, exited: bool) {
    if es == [] then outClosed && errClosed && exited
    else match es[0]
      case WriteOut(_) => !outClosed && WellFormed(es[1..], outClosed, errClosed, exited)
      case WriteErr(_) => !errClosed && WellFormed(es[1..], outClosed, errClosed, exited)
      case CloseOut => !outClosed && WellFormed(es[1..], true, errClosed, exited)
      case CloseErr => !errClosed && WellFormed(es[1..], outClosed, true, exited)
      case Exit(_) => !exited && WellFormed(es[1..], outClosed, errClosed, true)
  }

  lemma {:induction false} ClosedMeansSilent(es: seq<Event>, outClosed: bool, errClosed: bool, exited: bool)
    requires WellFormed(es, outClosed, errClosed, exited)
    ensures outClosed ==> Outs(es) == ""
    ensures errClosed ==> Errs(es) == ""
    ensures exited <==> ExitCode(es) == None
  {
    if es != [] {
      var e := es[0];
      ClosedMeansSilent(es[1..], outClosed || e.CloseOut?, errClosed || e.CloseErr?, exited || e.Exit?);
    }
  }

  // ---------------------------------------------------------------- lines

  /** The first line of a text, with its newline if it has one. */
  function FirstLine(s: string): (l: string)
    ensures l <= s && (s != "" ==> l != "")
  {
    if s == "" then "" else if s[0] == '\n' then "\n" else [s[0]] + FirstLine(s[1..])
  }

  function Lines(s: string): seq<string>
    decreases |s|
  {
    if s == "" then [] else [FirstLine(s)] + Lines(s[|FirstLine(s)|..])
  }

  predicate HasNewline(s: string) {
    '\n' in s
  }

  /** More text behind a complete line does not change it. */
  lemma {:induction false} FirstLineStable(s: string, more: string)
    requires HasNewline(s) || more == ""
    ensures FirstLine(s + more) == FirstLine(s)
  {
    if more == "" {
      assert s + more == s;
    } else if s[0] != '\n' {
      assert (s + more)[1..] == s[1..] + more;
      FirstLineStable(s[1..], more);
    }
  }

  // ---------------------------------------------------------------- the channel

  class Channel {
    var pending: seq<Event>
    var schedule: seq<nat>
    var outBuffer: string
    var errBuffer: string
    var outClosed: bool
    var errClosed: bool
    var exit: Option<int>
    var fetches: nat // how often the exit code was fetched

    ghost var OutLeft: string // everything not yet taken from stdout, written already or not
    ghost var ErrLeft: string
    ghost var Code: Option<int> // the code the process exits with, now or later

    ghost predicate Valid()
      reads this
    {
      && WellFormed(pending, outClosed, errClosed, exit.Some?)
      && OutLeft == outBuffer + Outs(pending)
      && ErrLeft == errBuffer + Errs(pending)
      && Code == if exit.Some? then exit else ExitCode(pending)
    }

    /** The three things no amount of progress on the process's side changes. */
    twostate predicate Kept()
      reads this
    {
      Valid() && OutLeft == old(OutLeft) && ErrLeft == old(ErrLeft) && Code == old(Code)
    }

    constructor (script: seq<Event>, schedule: seq<nat>)
      requires WellFormed(script, false, false, false)
      ensures Valid() && fetches == 0 && exit == None
      ensures OutLeft == Outs(script) && ErrLeft == Errs(script) && Code == ExitCode(script)
    {
      pending, this.schedule := script, schedule;
      outBuffer, errBuffer, outClosed, errClosed, exit, fetches := "", "", false, false, None, 0;
      OutLeft, ErrLeft, Code := Outs(script), Errs(script), ExitCode(script);
    }

    /** One event of the process. */
    method Step()
      requires Valid() && pending != []
      modifies this
      ensures Valid() && pending == old(pending)[1..] && schedule == old(schedule) && fetches == old(fetches)
      ensures Kept()
      ensures old(exit).Some? ==> exit == old(exit)
    {
      ClosedMeansSilent(pending, outClosed, errClosed, exit.Some?);
      match pending[0] {
      case WriteOut(text) => outBuffer := outBuffer + text;
      case WriteErr(text) => errBuffer := errBuffer + text;
      case CloseOut => outClosed := true;
      case CloseErr => errClosed := true;
      case Exit(code) => exit := Some(code);
      }
      pending := pending[1..];
    }

    /** What the process gets done before the reader's next action. */
    method Tick()
      requires Valid()
      modifies this
      ensures Kept() && fetches == old(fetches)
      ensures old(exit).Some? ==> exit == old(exit)
      ensures |schedule| <= |old(schedule)|
      ensures exit == None ==> |schedule| < |old(schedule)|
    {
      var n := if schedule == [] then |pending| else schedule[0];
      schedule := if schedule == [] then [] else schedule[1..];
      while n > 0 && pending != []
        invariant Kept() && fetches == old(fetches)
        invariant old(exit).Some? ==> exit == old(exit)
        invariant |schedule| <= |old(schedule)|
        invariant |old(schedule)| == 0 ==> n == |pending|
        invariant |old(schedule)| > 0 ==> |schedule| < |old(schedule)|
      {
        Step();
        n := n - 1;
      }
    }

    /** Blocks until stdout has ended, or, if a line will do, until one is complete. */
    method AwaitOut(lineWillDo: bool)
      requires Valid()
      modifies this
      ensures Kept() && fetches == old(fetches) && schedule == old(schedule)
      ensures old(exit).Some? ==> exit == old(exit)
      ensures (lineWillDo && HasNewline(outBuffer)) || Outs(pending) == ""
    {
      while !outClosed && !(lineWillDo && HasNewline(outBuffer))
        invariant Kept() && fetches == old(fetches) && schedule == old(schedule)
        invariant old(exit).Some? ==> exit == old(exit)
        decreases |pending|
      {
        Step();
      }
      ClosedMeansSilent(pending, outClosed, errClosed, exit.Some?);
    }

    /** `readline`: blocks for a whole line or the end of the stream; "" only at the end. */
    method ReadLine() returns (line: string)
      requires Valid()
      modifies this
      ensures Valid() && fetches == old(fetches)
      ensures line == FirstLine(old(OutLeft)) && OutLeft == old(OutLeft)[|line|..]
      ensures ErrLeft == old(ErrLeft) && Code == old(Code)
      ensures old(exit).Some? ==> exit == old(exit)
      ensures |schedule| <= |old(schedule)|
    {
      Tick();
      AwaitOut(true);
      FirstLineStable(outBuffer, Outs(pending));
      line := FirstLine(outBuffer);
      outBuffer, OutLeft := outBuffer[|line|..], OutLeft[|line|..];
    }

    /** `stdout.read()`: everything up to the end of the stream. */
    method ReadOut() returns (text: string)
      requires Valid()
      modifies this
      ensures Valid() && fetches == old(fetches)
      ensures text == old(OutLeft) && OutLeft == "" && ErrLeft == old(ErrLeft) && Code == old(Code)
      ensures old(exit).Some? ==> exit == old(exit)
    {
      Tick();
      AwaitOut(false);
      text := outBuffer;
      outBuffer, OutLeft := "", "";
    }

    /** `stderr.read()` */
    method ReadErr() returns (text: string)
      requires Valid()
      modifies this
      ensures Valid() && fetches == old(fetches)
      ensures text == old(ErrLeft) && ErrLeft == "" && OutLeft == old(OutLeft) && Code == old(Code)
      ensures old(exit).Some? ==> exit == old(exit)
    {
      Tick();
      while !errClosed
        invariant Kept() && fetches == old(fetches)
        invariant old(exit).Some? ==> exit == old(exit)
        decreases |pending|
      {
        Step();
      }
      ClosedMeansSilent(pending, outClosed, errClosed, exit.Some?);
      text := errBuffer;
      errBuffer, ErrLeft := "", "";
    }

    /** `exit_status_ready` */
    method ExitReady() returns (ready: bool)
      requires Valid()
      modifies this
      ensures Valid() && fetches == old(fetches) && ready == exit.Some?
      ensures OutLeft == old(OutLeft) && ErrLeft == old(ErrLeft) && Code == old(Code)
      ensures old(exit).Some? ==> exit == old(exit)
      ensures |schedule| <= |old(schedule)|
      ensures !ready ==> |schedule| < |old(schedule)|
    {
      Tick();
      ready := exit.Some?;
    }

    /** `recv_exit_status`: blocks until the process exits. */
    method RecvExit() returns (code: int)
      requires Valid()
      modifies this
      ensures Valid() && fetches == old(fetches) + 1 && Some(code) == old(Code) && exit == Some(code)
      ensures OutLeft == old(OutLeft) && ErrLeft == old(ErrLeft) && Code == old(Code)
      ensures |schedule| <= |old(schedule)|
    {
      while exit == None
        invariant Kept() && fetches == old(fetches) && schedule == old(schedule)
        decreases |pending|
      {
        Step();
      }
      code := exit.value;
      fetches := fetches + 1;
    }
  }
}
