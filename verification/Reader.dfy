/**
 `CommandReader.read_lines` of rrmngmnt/common.py: a generator that yields the lines of a running
 command while the command is still writing. The proof is over every script of the process and
 every schedule of it against the reader.
 */
module Reader {
  import opened Wrappers
  import opened Text
  import opened Remote
  import opened Ssh

  /** A line handed to the consumer, and the reader's fields as the consumer finds them then. */
  datatype Yield = Yield(line: string, rc: Option<int>, out: string, err: string)

  predicate IsNewline(c: char) {
    c == '\n'
  }

  function Concat(ls: seq<string>): string {
    if ls == [] then "" else ls[0] + Concat(ls[1..])
  }

  /** The yields still to come from a reader with these fields when `left` of stdout remains. */
  function Yields(rc: Option<int>, err: string, out: string, left: string): seq<Yield>
    decreases |left|
  {
    if left == "" then []
    else
      var line := FirstLine(left);
      [Yield(Strip(line, IsNewline), rc, out + line, err)] + Yields(rc, err, out + line, left[|line|..])
  }

  /** `future` is `Yields`, kept as a value so that a proof can speak of it without unfolding it. */
  ghost predicate IsYields(future: (string, string) -> seq<Yield>, rc: Option<int>, err: string) {
    forall out: string, left: string {:trigger Yields(rc, err, out, left)} ::
      future(out, left) == Yields(rc, err, out, left)
  }

  /** Whether nothing raises before the first line is read. */
  predicate Starts(input: string, fault: Fault) {
    fault != ExecFails && fault != ReadOutFails && (fault == WriteFails ==> input == "")
  }

  class CommandReader {
    var rc: Option<int>
    var out: string
    var err: string

    constructor ()
      ensures rc == None && out == "" && err == ""
    {
      rc, out, err := None, "", "";
    }

    /**
     One pass over the generator, on a reader that may have been used before. `stop` is the line after
     which the consumer drops the generator or reading raises; None if it is exhausted. `fault` is an
     exception elsewhere, `ReadOutFails` one in the first `readline`.
     */
    method ReadLines(link: Channel, input: string, fault: Fault, stop: Option<nat>)
      returns (got: seq<Yield>, command: Command)
      requires link.Valid()
      modifies this, link
      ensures fresh(command) && command.Valid() && command.AllClosed()
      ensures command.stdout != null <==> fault != ExecFails
      ensures link.fetches <= old(link.fetches) + 1
      ensures var all := Yields(old(rc), old(err), old(out), old(link.OutLeft));
              if !Starts(input, fault)
              then got == [] && out == old(out) && rc == old(rc) && err == old(err)
              else if stop.Some? && stop.value < |all|
              then got == all[..stop.value + 1] && out == all[stop.value].out && rc == old(rc) && err == old(err)
              else got == all && out == old(out + link.OutLeft) && rc == old(link.Code)
                   && err == if fault == ReadErrFails then old(err) else old(link.ErrLeft)
    {
      ghost var before, stdout := out, link.OutLeft;
      ghost var exhausted, left;
      got, command, exhausted, left :=
        Generate(link, input, fault, stop, (o: string, l: string) => Yields(old(rc), old(err), o, l));
      if Starts(input, fault) {
        YieldsTake(got, old(rc), old(err), before, out, left, stdout);
      }
    }

    method Generate(link: Channel, input: string, fault: Fault, stop: Option<nat>,
                    ghost future: (string, string) -> seq<Yield>)
      returns (got: seq<Yield>, command: Command, ghost exhausted: bool, ghost left: string)
      requires IsYields(future, rc, err)
      requires link.Valid()
      modifies this, link
      ensures fresh(command) && command.Valid() && command.AllClosed()
      ensures command.stdout != null <==> fault != ExecFails
      ensures link.fetches <= old(link.fetches) + 1
      ensures !Starts(input, fault) ==> got == [] && out == old(out) && rc == old(rc) && err == old(err)
      ensures Starts(input, fault) ==>
                got + future(out, left) == future(old(out), old(link.OutLeft)) && out + left == old(out + link.OutLeft)
      ensures Starts(input, fault) && exhausted ==>
                && left == "" && (stop.Some? ==> |got| <= stop.value)
                && rc == old(link.Code) && err == if fault == ReadErrFails then old(err) else old(link.ErrLeft)
      ensures Starts(input, fault) && !exhausted ==>
                stop == Some(|got| - 1) && got[|got| - 1].out == out && rc == old(rc) && err == old(err)
    {
      command := Open(link, input, fault);
      got, exhausted, left := [], false, "";
      if !Starts(input, fault) {
        command.Finish(true);
        return;
      }
      var done;
      got, done := Body(command, link, fault, stop, future);
      exhausted, left := done, link.OutLeft;
      command.Finish(!done || fault == ReadErrFails);
    }

    /** Entering `execute`, and the input if there is any. */
    method Open(link: Channel, input: string, fault: Fault) returns (command: Command)
      requires link.Valid()
      ensures fresh(command) && command.Valid() && command.rc == None
      ensures if fault == ExecFails then command.channel == null
              else command.channel == link && fresh(command.stdin) && fresh(command.stdout) && fresh(command.stderr)
    {
      command := new Command();
      var started := command.Begin(link, fault == ExecFails);
      if started && input != "" && fault != WriteFails {
        command.stdin.Close();
      }
    }

    /** The loop, and what is taken from the command when it is over. */
    method Body(command: Command, link: Channel, fault: Fault, stop: Option<nat>,
                ghost future: (string, string) -> seq<Yield>)
      returns (got: seq<Yield>, done: bool)
      requires IsYields(future, rc, err)
      requires command.Valid() && command.channel == link && command.rc == None
      modifies this, link, command`rc
      ensures command.Valid()
      ensures link.fetches == old(link.fetches) + (if done then 1 else 0) && (done <==> command.rc.Some?)
      ensures got + future(out, link.OutLeft) == future(old(out), old(link.OutLeft))
      ensures out + link.OutLeft == old(out + link.OutLeft)
      ensures done ==> link.OutLeft == "" && (stop.Some? ==> |got| <= stop.value) && rc == old(link.Code)
                       && err == if fault == ReadErrFails then old(err) else old(link.ErrLeft)
      ensures !done ==> stop == Some(|got| - 1) && got[|got| - 1].out == out && rc == old(rc) && err == old(err)
    {
      got, done := Loop(command, link, stop, future);
      if done {
        rc := command.rc;
        if fault != ReadErrFails {
          err := link.ReadErr();
        }
      }
    }

    /** The `while True` loop inside the `with` block. */
    method Loop(command: Command, link: Channel, stop: Option<nat>, ghost future: (string, string) -> seq<Yield>)
      returns (got: seq<Yield>, exhausted: bool)
      requires IsYields(future, rc, err)
      requires command.Valid() && command.channel == link && command.rc == None
      modifies `out, link, command`rc
      ensures command.Valid()
      ensures link.ErrLeft == old(link.ErrLeft) && link.Code == old(link.Code)
      ensures link.fetches == old(link.fetches) + (if exhausted then 1 else 0)
      ensures command.rc == (if exhausted then old(link.Code) else None) && (exhausted <==> command.rc.Some?)
      ensures got + future(out, link.OutLeft) == future(old(out), old(link.OutLeft))
      ensures out + link.OutLeft == old(out + link.OutLeft)
      ensures exhausted ==> link.OutLeft == "" && (stop.Some? ==> |got| <= stop.value)
      ensures !exhausted ==> stop == Some(|got| - 1) && got[|got| - 1].out == out
    {
      got := [];
      while true
        invariant command.Valid() && command.channel == link && command.rc == None
        invariant link.ErrLeft == old(link.ErrLeft) && link.Code == old(link.Code)
        invariant link.fetches == old(link.fetches)
        invariant out + link.OutLeft == old(out + link.OutLeft)
        invariant got + future(out, link.OutLeft) == future(old(out), old(link.OutLeft))
        invariant stop.Some? ==> |got| <= stop.value
        decreases |link.OutLeft|, |link.schedule|
      {
        ghost var before := future(out, link.OutLeft);
        var y, code := Turn(command, link, future);
        match y {
        case Some(yielded) =>
          Regroup(got, before, yielded, future(out, link.OutLeft));
          got := got + [yielded];
          if stop == Some(|got| - 1) {
            return got, false;
          }
        case None =>
          if code.Some? {
            return got, true;
          }
        }
      }
    }

    /** One turn of the loop: a line to yield or, at the end of the stream, `command.rc`. */
    method Turn(command: Command, link: Channel, ghost future: (string, string) -> seq<Yield>)
      returns (y: Option<Yield>, code: Option<int>)
      requires IsYields(future, rc, err)
      requires command.Valid() && command.channel == link && command.rc == None
      modifies `out, link, command`rc
      ensures command.Valid() && code == command.rc
      ensures link.ErrLeft == old(link.ErrLeft) && link.Code == old(link.Code)
      ensures out + link.OutLeft == old(out + link.OutLeft)
      ensures y.Some? ==> future(old(out), old(link.OutLeft)) == [y.value] + future(out, link.OutLeft)
      ensures y.Some? ==> code == None && y.value.out == out && |link.OutLeft| < |old(link.OutLeft)|
      ensures y == None ==> old(link.OutLeft) == "" == link.OutLeft && out == old(out)
      ensures link.fetches == old(link.fetches) + (if code.Some? then 1 else 0)
      ensures code.Some? ==> code == old(link.Code)
      ensures y == None && code == None ==> |link.schedule| < |old(link.schedule)|
    {
      ghost var left, before := link.OutLeft, out;
      var line := link.ReadLine();
      out := out + line;
      if line != "" {
        ReadStep(rc, err, before, left);
        return Some(Yield(Strip(line, IsNewline), rc, out, err)), None;
      }
      code := command.GetRc(false);
      y := None;
    }
  }

  /**
   A whole run from scratch: for every script and every schedule the consumer sees the lines of the
   script's stdout, and an exhausted reader holds the script's output, error text and exit code.
   The schedule decides nothing.
   */
  method ReadScript(script: seq<Event>, schedule: seq<nat>, input: string, fault: Fault, stop: Option<nat>)
    returns (got: seq<Yield>, rc: Option<int>, out: string, err: string)
    requires WellFormed(script, false, false, false)
    ensures var all := Yields(None, "", "", Outs(script));
            if fault == ExecFails || fault == ReadOutFails || (fault == WriteFails && input != "")
            then got == [] && rc == None && out == "" && err == ""
            else if stop.Some? && stop.value < |all|
            then got == all[..stop.value + 1] && out == all[stop.value].out && rc == None && err == ""
            else got == all && out == Outs(script) && rc == ExitCode(script) && rc.Some?
                 && err == if fault == ReadErrFails then "" else Errs(script)
  {
    var link := new Channel(script, schedule);
    var reader := new CommandReader();
    ClosedMeansSilent(script, false, false, false);
    var command;
    got, command := reader.ReadLines(link, input, fault, stop);
    return got, reader.rc, reader.out, reader.err;
  }

  /** Reading a line takes the first of the yields to come. */
  lemma ReadStep(rc: Option<int>, err: string, out: string, left: string)
    requires left != ""
    ensures var line := FirstLine(left); var more := left[|line|..];
            && out + left == (out + line) + more
            && Yields(rc, err, out, left)
            == [Yield(Strip(line, IsNewline), rc, out + line, err)] + Yields(rc, err, out + line, more)
  {
  }

  lemma Regroup<T>(a: seq<T>, before: seq<T>, x: T, after: seq<T>)
    requires before == [x] + after
    ensures a + before == (a + [x]) + after
  {
  }

  /** What stopping after `got` means for the whole. */
  lemma YieldsTake(got: seq<Yield>, rc: Option<int>, err: string, start: string, out: string, left: string,
                   stdout: string)
    requires got + Yields(rc, err, out, left) == Yields(rc, err, start, stdout) && out + left == start + stdout
    ensures var all := Yields(rc, err, start, stdout);
            && (got != [] ==> all[..|got|] == got && all[|got| - 1] == got[|got| - 1])
            && (left == "" ==> got == all && out == start + stdout)
  {
    if left == "" {
      assert out + "" == out && got + [] == got;
    }
  }

  /** The yields are the lines of stdout in order, each with the exact prefix of stdout read so far. */
  lemma {:induction false} YieldsFollowLines(rc: Option<int>, err: string, out: string, left: string, i: nat)
    requires i < |Lines(left)|
    ensures |Yields(rc, err, out, left)| == |Lines(left)|
    ensures Yields(rc, err, out, left)[i]
         == Yield(Strip(Lines(left)[i], IsNewline), rc, out + Concat(Lines(left)[..i + 1]), err)
    decreases |left|
  {
    var line, rest := FirstLine(left), left[|FirstLine(left)|..];
    var ls := Lines(rest);
    YieldsCount(rc, err, out, left);
    assert Lines(left) == [line] + ls;
    ConcatTake(line, ls, i);
    if i > 0 {
      YieldsFollowLines(rc, err, out + line, rest, i - 1);
      ConcatAssoc(out, line, Concat(ls[..i]));
    }
  }

  lemma ConcatAssoc(a: string, b: string, c: string)
    ensures a + b + c == a + (b + c)
  {
  }

  lemma ConcatTake(first: string, ls: seq<string>, i: nat)
    requires i <= |ls|
    ensures Concat(([first] + ls)[..i + 1]) == first + Concat(ls[..i])
    ensures i == 0 ==> Concat(([first] + ls)[..i + 1]) == first
  {
    assert ([first] + ls)[..i + 1] == [first] + ls[..i];
    assert ([first] + ls[..i])[1..] == ls[..i];
  }

  lemma {:induction false} YieldsCount(rc: Option<int>, err: string, out: string, left: string)
    ensures |Yields(rc, err, out, left)| == |Lines(left)|
    decreases |left|
  {
    if left != "" {
      var line := FirstLine(left);
      YieldsCount(rc, err, out + line, left[|line|..]);
    }
  }

  // ---------------------------------------------------------------- what the lines are

  /** The lines are the text, cut: nothing lost, nothing added, nothing reordered. */
  lemma {:induction false} LinesConcat(s: string)
    ensures Concat(Lines(s)) == s
    decreases |s|
  {
    if s != "" {
      LinesConcat(s[|FirstLine(s)|..]);
    }
  }

  /** The lines as the consumer gets them, without their newlines. */
  function Stripped(ls: seq<string>): seq<string> {
    if ls == [] then [] else [Strip(ls[0], IsNewline)] + Stripped(ls[1..])
  }

  /** A first line is a newline-free text, ended by one newline unless the stream ends first. */
  lemma {:induction false} FirstLineShape(s: string)
    requires s != ""
    ensures var text := Strip(FirstLine(s), IsNewline);
            && Free(text, IsNewline)
            && FirstLine(s) == (if HasNewline(s) then text + "\n" else text)
  {
    var first := FirstLine(s);
    FirstLineBody(s);
    var body := if HasNewline(s) then first[..|first| - 1] else first;
    var tail := if HasNewline(s) then "\n" else "";
    assert first == "" + body + tail;
    StripPadded("", body, tail, IsNewline);
  }

  lemma {:induction false} FirstLineBody(s: string)
    requires s != ""
    ensures var first := FirstLine(s);
            if HasNewline(s) then Free(first[..|first| - 1], IsNewline) && first[|first| - 1] == '\n'
            else Free(first, IsNewline)
  {
    var first := FirstLine(s);
    if s[0] != '\n' {
      assert s == [s[0]] + s[1..];
      if s[1..] == "" {
        assert first == [s[0]];
      } else {
        FirstLineBody(s[1..]);
        var rest := FirstLine(s[1..]);
        assert first == [s[0]] + rest;
        if HasNewline(s) {
          assert first[..|first| - 1] == [s[0]] + rest[..|rest| - 1];
        }
      }
    }
  }

  /**
   The yielded lines are what splitting stdout at newlines gives: no line holds a newline, and the
   lines joined by newlines are stdout up to one newline at its end.
   */
  lemma {:induction false} YieldsAreStdoutSplit(s: string)
    ensures var ls := Stripped(Lines(s));
            && (forall i :: 0 <= i < |ls| ==> Free(ls[i], IsNewline))
            && (Unlines(ls) == s || (s != "" && Join(ls, "\n") == s))
    decreases |s|
  {
    if s != "" {
      var first := FirstLine(s);
      var text, rest := Strip(first, IsNewline), s[|first|..];
      FirstLineShape(s);
      YieldsAreStdoutSplit(rest);
      if HasNewline(s) {
        AnotherLine(text, Stripped(Lines(rest)), rest);
        assert s == text + "\n" + rest;
      } else {
        WholeLine(s);
        assert Lines(rest) == [];
      }
    }
  }

  /** One more line in front of lines that make up `rest`. */
  lemma AnotherLine(text: string, more: seq<string>, rest: string)
    requires Free(text, IsNewline) && forall i :: 0 <= i < |more| ==> Free(more[i], IsNewline)
    requires Unlines(more) == rest || (rest != "" && Join(more, "\n") == rest)
    ensures var ls := [text] + more;
            && (forall i :: 0 <= i < |ls| ==> Free(ls[i], IsNewline))
            && (Unlines(ls) == text + "\n" + rest || Join(ls, "\n") == text + "\n" + rest)
  {
    if Unlines(more) == rest {
      assert ([text] + more)[1..] == more;
    } else {
      JoinCons(text, more, "\n");
    }
  }

  lemma {:induction false} WholeLine(s: string)
    requires !HasNewline(s)
    ensures FirstLine(s) == s
  {
    if s != "" {
      assert s == [s[0]] + s[1..];
      WholeLine(s[1..]);
    }
  }
}
