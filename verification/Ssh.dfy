/**
 Remote commands of rrmngmnt/ssh.py: the memoised exit code, the `execute` context manager that
 closes the streams on every path, `run`, and the polling loop of `wait_for_connectivity_state`.
 */
module Ssh {
  import opened Wrappers
  import opened Remote

  /** One of the three file objects `exec_command` hands out. */
  class Stream {
    var open: bool

    constructor ()
      ensures open
    {
      open := true;
    }

    method Close()
      modifies this
      ensures !open
    {
      open := false;
    }
  }

  /** Where, if anywhere, an exception is raised while a command runs. */
  datatype Fault = NoFault | ExecFails | WriteFails | ReadOutFails | ReadErrFails

  datatype Results = Results(rc: Option<int>, out: string, err: string)

  class Command {
    var rc: Option<int>
    var stdin: Stream?
    var stdout: Stream?
    var stderr: Stream?
    var channel: Channel? // the channel behind stdout

    constructor ()
      ensures rc == None && stdin == null && stdout == null && stderr == null && channel == null
    {
      rc, stdin, stdout, stderr, channel := None, null, null, null, null;
    }

    /** Streams come and go together; a known exit code is the one of a channel. */
    ghost predicate Valid()
      reads this, channel
    {
      && (stdout != null <==> channel != null)
      && (stdin != null <==> stdout != null) && (stderr != null <==> stdout != null)
      && (channel != null ==> channel.Valid())
    }

    ghost predicate AllClosed()
      reads this, stdin, stdout, stderr
    {
      && (stdin != null ==> !stdin.open) && (stdout != null ==> !stdout.open) && (stderr != null ==> !stderr.open)
    }

    /** `get_rc`: fetched from the channel at most once, and never changed after that. */
    method GetRc(wait: bool) returns (r: Option<int>)
      requires Valid()
      modifies `rc, channel
      ensures Valid() && r == rc
      ensures old(rc).Some? ==> rc == old(rc)
      ensures channel == null ==> rc == old(rc)
      ensures channel != null ==>
                && channel.OutLeft == old(channel.OutLeft) && channel.ErrLeft == old(channel.ErrLeft)
                && channel.Code == old(channel.Code)
                && |channel.schedule| <= old(|channel.schedule|)
                && channel.fetches == old(channel.fetches) + (if old(rc) == None && rc.Some? then 1 else 0)
                && (old(rc) == None && rc.Some? ==> rc == old(channel.Code))
                && (wait ==> rc.Some?)
                && (rc == None ==> |channel.schedule| < old(|channel.schedule|))
    {
      if rc == None {
        if stdout != null {
          var ready := channel.ExitReady();
          if ready || wait {
            var code := channel.RecvExit();
            rc := Some(code);
          }
        }
      }
      return rc;
    }

    /** Entering `execute`: `exec_command` on a new channel either raises or yields three open streams. */
    method Begin(link: Channel, fails: bool) returns (ok: bool)
      requires Valid() && link.Valid()
      modifies this
      ensures Valid() && ok == !fails && rc == old(rc)
      ensures !ok ==> stdin == old(stdin) && stdout == old(stdout) && stderr == old(stderr) && channel == old(channel)
      ensures ok ==> channel == link && fresh(stdin) && fresh(stdout) && fresh(stderr)
                     && stdin.open && stdout.open && stderr.open
    {
      if fails {
        return false;
      }
      stdin := new Stream();
      stdout := new Stream();
      stderr := new Stream();
      channel := link;
      return true;
    }

    /** Leaving `execute`: wait for the code unless an exception is passing, then close whatever there is and log. */
    method Finish(raised: bool)
      requires Valid()
      modifies `rc, channel, stdin, stdout, stderr
      ensures Valid() && AllClosed()
      ensures old(rc).Some? ==> rc == old(rc)
      ensures channel == null ==> rc == old(rc)
      ensures channel != null ==>
                && channel.OutLeft == old(channel.OutLeft) && channel.ErrLeft == old(channel.ErrLeft)
                && channel.Code == old(channel.Code)
                && channel.fetches == old(channel.fetches) + (if old(rc) == None && rc.Some? then 1 else 0)
                && (old(rc) == None && rc.Some? ==> rc == old(channel.Code))
                && (!raised ==> rc.Some?)
    {
      if !raised {
        var _ := GetRc(true);
      }
      if stdin != null {
        stdin.Close();
      }
      if stdout != null {
        stdout.Close();
      }
      if stderr != null {
        stderr.Close();
      }
      var _ := GetRc(false); // the log line "RC: %s"
    }

    /**
     `run`: on every path the streams are closed and the code fetched at most once; a run in which
     nothing raises returns everything the process wrote, and the exit code.
     */
    method Run(link: Channel, input: string, fault: Fault) returns (r: Option<Results>)
      requires Valid() && link.Valid() && link != channel
      modifies this, link, channel, stdin, stdout, stderr
      ensures Valid() && AllClosed()
      ensures r.Some? <==> RunsThrough(input, fault)
      ensures r.Some? ==>
                && r.value.out == old(link.OutLeft) && r.value.err == old(link.ErrLeft)
                && r.value.rc == (if old(rc).Some? then old(rc) else old(link.Code)) && r.value.rc == rc
      ensures old(rc).Some? ==> rc == old(rc)
      ensures fault == ExecFails ==> unchanged(link)
      ensures fault != ExecFails ==>
                && channel == link && fresh(stdin) && fresh(stdout) && fresh(stderr)
                && link.fetches == old(link.fetches) + (if old(rc) == None && rc.Some? then 1 else 0)
    {
      var ok := Begin(link, fault == ExecFails);
      if !ok {
        Finish(true);
        return None;
      }
      var out, err;
      ok, out, err := Converse(input, fault);
      Finish(!ok);
      return if ok then Some(Results(rc, out, err)) else None;
    }

    /** The body of the `with` block in `run`. */
    method Converse(input: string, fault: Fault) returns (ok: bool, out: string, err: string)
      requires Valid() && channel != null
      modifies channel, stdin
      ensures Valid() && channel.Code == old(channel.Code) && channel.fetches == old(channel.fetches)
      ensures ok <==> fault != ReadOutFails && fault != ReadErrFails && (fault == WriteFails ==> input == "")
      ensures ok ==> out == old(channel.OutLeft) && err == old(channel.ErrLeft)
    {
      ok, out, err := false, "", "";
      if input != "" {
        if fault == WriteFails {
          return;
        }
        stdin.Close();
      }
      if fault == ReadOutFails {
        return;
      }
      out := channel.ReadOut();
      if fault == ReadErrFails {
        return;
      }
      err := channel.ReadErr();
      ok := true;
    }
  }

  /** No exception is raised: nothing fails, or only the writing that an empty input skips. */
  predicate RunsThrough(input: string, fault: Fault) {
    fault == NoFault || (fault == WriteFails && input == "")
  }

  /** A fresh command on any process, at any speed: all of its output and its own exit code, fetched once. */
  method RunScript(script: seq<Event>, schedule: seq<nat>, input: string, fault: Fault)
    returns (r: Option<Results>, fetches: nat, leftOpen: bool)
    requires WellFormed(script, false, false, false)
    ensures r == if fault == NoFault || (fault == WriteFails && input == "")
                 then Some(Results(ExitCode(script), Outs(script), Errs(script)))
                 else None
    ensures r.Some? ==> r.value.rc.Some? && fetches == 1
    ensures fetches <= 1 && !leftOpen
  {
    var link := new Channel(script, schedule);
    var command := new Command();
    ClosedMeansSilent(script, false, false, false);
    r := command.Run(link, input, fault);
    fetches := link.fetches;
    leftOpen := (command.stdin != null && command.stdin.open) || (command.stdout != null && command.stdout.open)
                || (command.stderr != null && command.stderr.open);
  }

  /** Running one command object twice: the second run returns its own output under the first run's exit code. */
  method SecondRunIsStale(c: Command, first: Channel, second: Channel) returns (a: Results, b: Results)
    requires c.Valid() && c.channel == null && c.rc == None && c.stdin == null && c.stdout == null && c.stderr == null
    requires first != second && first.Valid() && second.Valid() && first.Code.Some?
    modifies c, first, second
    ensures a == Results(old(first.Code), old(first.OutLeft), old(first.ErrLeft))
    ensures b == Results(old(first.Code), old(second.OutLeft), old(second.ErrLeft))
  {
    var r := c.Run(first, "", NoFault);
    a := r.value;
    r := c.Run(second, "", NoFault);
    b := r.value;
  }

  // ---------------------------------------------------------------- waiting for connectivity

  /** How many probes are made before the loop gives up: floor(T / s) + 2, or one if T is negative. */
  function MaxProbes(timeout: real, sample: real): (n: nat)
    requires sample > 0.0
    ensures n >= 1
  {
    if timeout < 0.0 then 1 else (timeout / sample).Floor + 2
  }

  /** The number of sleeps after which the counter first exceeds the timeout. */
  lemma CounterExceeds(timeout: real, sample: real, k: nat)
    requires sample > 0.0
    ensures k as real * sample > timeout <==> k + 1 >= MaxProbes(timeout, sample)
  {
    if timeout < 0.0 {
      MulMonotone(k as real, timeout / sample, sample);
      assert timeout / sample * sample == timeout;
      assert k as real * sample >= 0.0;
    } else {
      var q := timeout / sample;
      assert q * sample == timeout;
      MulMonotone(0.0, q, sample);
      MulMonotone(k as real, q, sample);
      assert k as real > q <==> k > q.Floor;
    }
  }

  lemma MulMonotone(a: real, b: real, s: real)
    requires s > 0.0
    ensures a * s > b * s <==> a > b
  {
    assert (a - b) * s == a * s - b * s;
  }

  /** The earliest probe that matches among the first `n`, if any. */
  predicate FirstMatch(probe: nat -> bool, positive: bool, i: nat) {
    probe(i) == positive && forall j: nat :: j < i ==> probe(j) != positive
  }

  /**
   `wait_for_connectivity_state`: true exactly when one of the first floor(T/s)+2 probes matches, and
   then it stops there; otherwise it gives up after sleeping more than T and at most T + s.
   */
  method WaitForConnectivityState(probe: nat -> bool, positive: bool, timeout: real, sample: real)
    returns (ok: bool, probes: nat, slept: real)
    requires sample > 0.0
    ensures ok <==> exists i: nat :: i < MaxProbes(timeout, sample) && probe(i) == positive
    ensures probes >= 1
    ensures ok ==> FirstMatch(probe, positive, probes - 1)
    ensures slept == (probes - 1) as real * sample
    ensures !ok ==> probes == MaxProbes(timeout, sample) && slept > timeout
    ensures !ok && timeout >= 0.0 ==> slept <= timeout + sample
    ensures !ok && timeout < 0.0 ==> slept == 0.0
  {
    var counter := 0.0;
    probes, slept := 0, 0.0;
    while true
      invariant counter == probes as real * sample && slept == counter
      invariant probes < MaxProbes(timeout, sample)
      invariant forall j: nat :: j < probes ==> probe(j) != positive
      decreases MaxProbes(timeout, sample) - probes
    {
      var connective := probe(probes);
      probes := probes + 1;
      if connective == positive {
        return true, probes, slept;
      }
      CounterExceeds(timeout, sample, probes - 1);
      if counter > timeout {
        assert probes == MaxProbes(timeout, sample);
        if timeout >= 0.0 {
          GivesUpInTime(timeout, sample);
        }
        return false, probes, slept;
      }
      slept := slept + sample;
      counter := counter + sample;
    }
  }

  lemma GivesUpInTime(timeout: real, sample: real)
    requires sample > 0.0 && timeout >= 0.0
    ensures (MaxProbes(timeout, sample) - 1) as real * sample <= timeout + sample
  {
    var q := timeout / sample;
    assert q * sample == timeout;
    var k := q.Floor;
    assert (k as real - q) * sample <= 0.0;
    assert (k + 1) as real * sample == k as real * sample + sample;
  }
}
