/**
 The shared ssh session of rrmngmnt/network.py: `_session` counts how many `@keep_session` calls
 are active and holds one remote session for all of them.
 `Program` is an arbitrary tree of calls made on it; `Eval` runs the reference counting of the
 source; `Outside` and `Inside` say, without counting active calls, what the remote side should see.
 */
module Session {
  import opened Wrappers

  // ---------------------------------------------------------------- programs

  /** Whether making and opening a session, if this call does, and closing it, if this call does, raise. */
  datatype Faults = Faults(makeFails: bool, openFails: bool, closeFails: bool)

  datatype Program =
    | Return
    | Raise
    | Run(cmd: string, fails: bool, next: Program)       // self._m.runCmd(cmd)
    | Keep(faults: Faults, body: Program, next: Program) // a call of a @keep_session function
    | Plain(body: Program, next: Program)                // a call of an undecorated function
    | Try(body: Program, next: Program)                  // a call whose exception is caught

  // ---------------------------------------------------------------- state

  datatype RemoteSession = RemoteSession(id: nat, live: bool)

  /** What the remote side, or a caller, observes. */
  datatype Event =
    | MakeFailed         // `session()` raises, a bad key for instance
    | Opened(id: nat)
    | OpenFailed(id: nat)
    | Closed(id: nat)
    | Ran(id: nat, cmd: string)
    | RanUnopened(id: nat, cmd: string) // the command meets a session that was never opened
    | RanOnNone(cmd: string)            // `self._s` is None

  /** How one `runCmd` found things: the counter, the number of active decorated calls, an open session held. */
  datatype Sighting = Sighting(count: int, depth: nat, open: bool)

  datatype State = State(count: int, held: Option<RemoteSession>, made: nat, log: seq<Event>, seen: seq<Sighting>)

  predicate Idle(st: State) {
    st.count == 0 && st.held == None
  }

  // ---------------------------------------------------------------- _session

  /** `__enter__`; when making or opening raises, the counter, and an unopened session, stay behind. */
  function Enter(st: State, f: Faults): (State, bool) {
    if st.held.Some? then (st.(count := st.count + 1), true)
    else if f.makeFails then (st.(count := st.count + 1, log := st.log + [MakeFailed]), false)
    else
      (st.(count := st.count + 1,
           held := Some(RemoteSession(st.made, !f.openFails)),
           made := st.made + 1,
           log := st.log + [if f.openFails then OpenFailed(st.made) else Opened(st.made)]),
       !f.openFails)
  }

  /** `__exit__`: does an exception leave the `with` block? Closing errors give way to the body's own. */
  function Exit(st: State, raised: bool, closeFails: bool): (State, bool) {
    if st.count == 1 && st.held.Some? then
      (st.(count := 0, held := None, log := st.log + [Closed(st.held.value.id)]), raised || closeFails)
    else (st.(count := st.count - 1), raised)
  }

  function RunEvent(held: Option<RemoteSession>, cmd: string): Event {
    match held
    case None => RanOnNone(cmd)
    case Some(s) => if s.live then Ran(s.id, cmd) else RanUnopened(s.id, cmd)
  }

  function RunCmd(st: State, depth: nat, cmd: string, fails: bool): (State, bool) {
    var open := st.held.Some? && st.held.value.live;
    (st.(log := st.log + [RunEvent(st.held, cmd)], seen := st.seen + [Sighting(st.count, depth, open)]),
     open && !fails)
  }

  /** The state and whether the program returned normally, run inside `depth` decorated calls. */
  function Eval(p: Program, depth: nat, st: State): (State, bool)
    decreases p
  {
    match p
    case Return => (st, true)
    case Raise => (st, false)
    case Run(cmd, fails, next) =>
      var (st1, ok) := RunCmd(st, depth, cmd, fails);
      if ok then Eval(next, depth, st1) else (st1, false)
    case Keep(faults, body, next) =>
      var (st1, ok) := Enter(st, faults);
      if !ok then (st1, false)
      else
        var (st2, returned) := Eval(body, depth + 1, st1);
        var (st3, raises) := Exit(st2, !returned, faults.closeFails);
        if raises then (st3, false) else Eval(next, depth, st3)
    case Plain(body, next) =>
      var (st1, ok) := Eval(body, depth, st);
      if ok then Eval(next, depth, st1) else (st1, false)
    case Try(body, next) =>
      Eval(next, depth, Eval(body, depth, st).0)
  }

  /** `_session` itself, with the log of what the remote side sees. */
  class SharedSession {
    var count: int
    var held: Option<RemoteSession>
    var made: nat
    var log: seq<Event>
    ghost var seen: seq<Sighting>

    ghost function Abstract(): State
      reads this
    {
      State(count, held, made, log, seen)
    }

    constructor ()
      ensures Abstract() == State(0, None, 0, [], [])
    {
      count, held, made, log, seen := 0, None, 0, [], [];
    }

    method DoEnter(f: Faults) returns (ok: bool)
      modifies this
      ensures (Abstract(), ok) == Enter(old(Abstract()), f)
    {
      count := count + 1;
      ok := true;
      if held == None {
        if f.makeFails {
          log := log + [MakeFailed];
          return false;
        }
        held := Some(RemoteSession(made, !f.openFails));
        log := log + [if f.openFails then OpenFailed(made) else Opened(made)];
        made := made + 1;
        ok := !f.openFails;
      }
    }

    method DoExit(raised: bool, closeFails: bool) returns (raises: bool)
      requires count == 1 ==> held.Some?
      modifies this
      ensures (Abstract(), raises) == Exit(old(Abstract()), raised, closeFails)
    {
      count := count - 1;
      raises := raised;
      if count == 0 {
        var s := held.value;
        held := None;
        log := log + [Closed(s.id)];
        raises := CloseRaises(raised, closeFails);
      }
    }

    /** `RemoteExecutor.Session.__exit__`: a closing error surfaces only when the block ended normally. */
    method CloseRaises(raised: bool, closeFails: bool) returns (raises: bool)
      ensures raises == (raised || closeFails)
    {
      if closeFails {
        if !raised {
          return true;
        }
      }
      return raised;
    }

    method DoRunCmd(cmd: string, fails: bool, ghost depth: nat) returns (ok: bool)
      modifies this
      ensures (Abstract(), ok) == RunCmd(old(Abstract()), depth, cmd, fails)
    {
      ok := held.Some? && held.value.live;
      seen := seen + [Sighting(count, depth, ok)];
      log := log + [RunEvent(held, cmd)];
      ok := ok && !fails;
    }

    /** Runs a whole call tree; `keep_session` brackets every decorated body with enter and exit. */
    method Execute(p: Program, ghost depth: nat) returns (ok: bool)
      requires 0 <= count && (held.Some? ==> count > 0)
      modifies this
      ensures (Abstract(), ok) == Eval(p, depth, old(Abstract()))
      ensures old(count) <= count && (held.Some? ==> count > 0)
      ensures old(held).Some? ==> held == old(held) && count == old(count)
      decreases p
    {
      match p
      case Return => ok := true;
      case Raise => ok := false;
      case Run(cmd, fails, next) =>
        ok := DoRunCmd(cmd, fails, depth);
        if ok {
          ok := Execute(next, depth);
        }
      case Keep(faults, body, next) =>
        ok := DoEnter(faults);
        if ok {
          var returned := Execute(body, depth + 1);
          var raises := DoExit(!returned, faults.closeFails);
          ok := !raises;
          if ok {
            ok := Execute(next, depth);
          }
        }
      case Plain(body, next) =>
        ok := Execute(body, depth);
        if ok {
          ok := Execute(next, depth);
        }
      case Try(body, next) =>
        var _ := Execute(body, depth);
        ok := Execute(next, depth);
    }
  }

  // ---------------------------------------------------------------- what should be seen

  /** Inside an active decorated call, a further decorated call is just a call. */
  function Inside(p: Program, s: RemoteSession): (seq<Event>, bool) {
    match p
    case Return => ([], true)
    case Raise => ([], false)
    case Run(cmd, fails, next) =>
      var rest := if s.live && !fails then Inside(next, s) else ([], false);
      ([RunEvent(Some(s), cmd)] + rest.0, rest.1)
    case Keep(_, body, next) => InsideThen(Inside(body, s), Inside(next, s))
    case Plain(body, next) => InsideThen(Inside(body, s), Inside(next, s))
    case Try(body, next) => (Inside(body, s).0 + Inside(next, s).0, Inside(next, s).1)
  }

  function InsideThen(first: (seq<Event>, bool), second: (seq<Event>, bool)): (seq<Event>, bool) {
    if first.1 then (first.0 + second.0, second.1) else first
  }

  /**
   What a top-level program leaves: its events, whether it returned, how many calls were entered and
   never left, and the session that is stuck.
   */
  datatype Outcome = Outcome(events: seq<Event>, ok: bool, made: nat, lost: nat, stuck: Option<RemoteSession>)

  /**
   Outside, every decorated call opens its own session, runs its body on it, and closes it, once.
   But a call that gets no session is never counted out again (`lost`): after that the first session
   that is made is kept for good, open or not.
   */
  function Outside(p: Program, made: nat, lost: nat): Outcome
    decreases p, 0
  {
    match p
    case Return => Outcome([], true, made, lost, None)
    case Raise => Outcome([], false, made, lost, None)
    case Run(cmd, _, _) => Outcome([RanOnNone(cmd)], false, made, lost, None)
    case Keep(faults, body, next) =>
      var first := OneCall(faults, body, made, lost);
      if first.ok then OutsideThen(first, next) else first
    case Plain(body, next) =>
      var first := Outside(body, made, lost);
      if first.ok then OutsideThen(first, next) else first
    case Try(body, next) => OutsideThen(Outside(body, made, lost), next)
  }

  /** One outermost decorated call. */
  function OneCall(f: Faults, body: Program, made: nat, lost: nat): Outcome
    decreases body, 2
  {
    if f.makeFails then Outcome([MakeFailed], false, made, lost + 1, None)
    else if f.openFails then Outcome([OpenFailed(made)], false, made + 1, lost + 1, Some(RemoteSession(made, false)))
    else
      var s := RemoteSession(made, true);
      var (inner, returned) := Inside(body, s);
      if lost == 0 then
        Outcome([Opened(made)] + inner + [Closed(made)], returned && !f.closeFails, made + 1, 0, None)
      else Outcome([Opened(made)] + inner, returned, made + 1, lost, Some(s))
  }

  function OutsideThen(first: Outcome, next: Program): Outcome
    decreases next, 1
  {
    if first.stuck.Some? then
      var (events, ok) := Inside(next, first.stuck.value);
      first.(events := first.events + events, ok := ok)
    else
      var rest := Outside(next, first.made, first.lost);
      rest.(events := first.events + rest.events)
  }

  // ---------------------------------------------------------------- theorems

  /** While a session is held, nothing a program does opens, closes or replaces it, and the counter comes back. */
  lemma {:induction false} NestedCallsAreTransparent(p: Program, depth: nat, st: State)
    requires st.held.Some? && st.count >= 1
    ensures var (st', ok) := Eval(p, depth, st);
            var (events, returned) := Inside(p, st.held.value);
            && ok == returned
            && st' == st.(log := st.log + events, seen := st'.seen)
            && Offset(st.count - depth, st.held.value.live, depth, st.seen, st'.seen)
    decreases p
  {
    var s := st.held.value;
    match p
    case Return => assert st.log + [] == st.log;
    case Raise => assert st.log + [] == st.log;
    case Run(cmd, fails, next) =>
      var (st1, ok) := RunCmd(st, depth, cmd, fails);
      if ok {
        NestedCallsAreTransparent(next, depth, st1);
        assert st1.log + Inside(next, s).0 == st.log + Inside(p, s).0;
      } else {
        assert [RunEvent(Some(s), cmd)] + [] == [RunEvent(Some(s), cmd)];
      }
    case Keep(faults, body, next) =>
      var (st1, _) := Enter(st, faults);
      var (st2, returned) := Eval(body, depth + 1, st1);
      NestedCallsAreTransparent(body, depth + 1, st1);
      var (st3, raises) := Exit(st2, !returned, faults.closeFails);
      assert st3 == st.(log := st.log + Inside(body, s).0, seen := st2.seen);
      if !raises {
        NestedCallsAreTransparent(next, depth, st3);
        assert st3.log + Inside(next, s).0 == st.log + Inside(p, s).0;
      }
    case Plain(body, next) =>
      NestedCallsAreTransparent(body, depth, st);
      var st1 := Eval(body, depth, st).0;
      if Eval(body, depth, st).1 {
        NestedCallsAreTransparent(next, depth, st1);
        assert st1.log + Inside(next, s).0 == st.log + Inside(p, s).0;
      }
    case Try(body, next) =>
      NestedCallsAreTransparent(body, depth, st);
      var st1 := Eval(body, depth, st).0;
      NestedCallsAreTransparent(next, depth, st1);
      assert st1.log + Inside(next, s).0 == st.log + Inside(p, s).0;
  }

  /** Every new sighting is at least `depth` deep, counts its depth plus `offset`, and finds the session as told. */
  ghost predicate Offset(offset: int, live: bool, depth: nat, before: seq<Sighting>, after: seq<Sighting>) {
    && before <= after
    && forall i :: |before| <= i < |after| ==>
         after[i].count == after[i].depth + offset && after[i].depth >= depth && after[i].open == live
  }

  /** No session is held; `lost` calls were entered before and never left. */
  predicate Resting(st: State, lost: nat) {
    st.count == lost && st.held == None
  }

  /** The object after a program that was started at rest, as `Outside` predicts it. */
  predicate Agrees(before: seq<Event>, after: State, ok: bool, want: Outcome) {
    && ok == want.ok && after.log == before + want.events && after.made == want.made
    && after.held == want.stuck && after.count == want.lost && (want.stuck.Some? ==> want.lost > 0)
  }

  /** The counter keeps exactly the discipline that `Outside` states call by call. */
  lemma {:induction false} CountingRefinesBracketing(p: Program, st: State, lost: nat)
    requires Resting(st, lost)
    ensures var (st', ok) := Eval(p, 0, st); Agrees(st.log, st', ok, Outside(p, st.made, lost))
    decreases p, 0
  {
    match p
    case Return => assert st.log + [] == st.log;
    case Raise => assert st.log + [] == st.log;
    case Run(cmd, fails, next) =>
    case Keep(faults, body, next) =>
      CallAgrees(faults, body, st, lost);
      var (st3, raises) := Call(faults, body, st);
      if !raises {
        CountingAfter(OneCall(faults, body, st.made, lost), next, st, st3, true);
      }
    case Plain(body, next) =>
      CountingRefinesBracketing(body, st, lost);
      if Eval(body, 0, st).1 {
        CountingAfter(Outside(body, st.made, lost), next, st, Eval(body, 0, st).0, Eval(body, 0, st).1);
      }
    case Try(body, next) =>
      CountingRefinesBracketing(body, st, lost);
      CountingAfter(Outside(body, st.made, lost), next, st, Eval(body, 0, st).0, Eval(body, 0, st).1);
  }

  /** Entering, the body and leaving of one outermost call. */
  function Call(f: Faults, body: Program, st: State): (State, bool) {
    var (st1, ok) := Enter(st, f);
    if !ok then (st1, true)
    else
      var (st2, returned) := Eval(body, 1, st1);
      Exit(st2, !returned, f.closeFails)
  }

  lemma CallAgrees(f: Faults, body: Program, st: State, lost: nat)
    requires Resting(st, lost)
    ensures var (st3, raises) := Call(f, body, st); Agrees(st.log, st3, !raises, OneCall(f, body, st.made, lost))
  {
    var (st1, ok) := Enter(st, f);
    if ok {
      NestedCallsAreTransparent(body, 1, st1);
      var inner := Inside(body, st1.held.value).0;
      assert st1.log + inner == st.log + ([Opened(st.made)] + inner);
      assert st1.log + inner + [Closed(st.made)] == st.log + ([Opened(st.made)] + inner + [Closed(st.made)]);
    }
  }

  /** The continuation of a call that left `st1`. */
  lemma CountingAfter(first: Outcome, next: Program, st: State, st1: State, ok1: bool)
    requires Agrees(st.log, st1, ok1, first)
    ensures var (st', ok) := Eval(next, 0, st1); Agrees(st.log, st', ok, OutsideThen(first, next))
    decreases next, 1
  {
    if first.stuck.Some? {
      NestedCallsAreTransparent(next, 0, st1);
      var events := Inside(next, first.stuck.value).0;
      assert st1.log + events == st.log + (first.events + events);
    } else {
      CountingRefinesBracketing(next, st1, first.lost);
      var events := Outside(next, first.made, first.lost).events;
      assert st1.log + events == st.log + (first.events + events);
    }
  }

  /** An attempt to get a session failed. */
  predicate IsFailure(e: Event) {
    e.OpenFailed? || e.MakeFailed?
  }

  predicate FailureIn(events: seq<Event>) {
    exists i :: 0 <= i < |events| && IsFailure(events[i])
  }

  /**
   The state returns to (0, None) exactly when every session could be made and opened, whatever
   bodies and closes raised.
   */
  lemma EndsIdleUnlessFailed(p: Program, st: State)
    requires Idle(st)
    ensures Idle(Eval(p, 0, st).0) <==> !FailureIn(Outside(p, st.made, 0).events)
    ensures Eval(p, 0, st).0.log == st.log + Outside(p, st.made, 0).events
  {
    CountingRefinesBracketing(p, st, 0);
    LostIffFailed(p, st.made, 0);
  }

  lemma {:induction false} LostIffFailed(p: Program, made: nat, lost: nat)
    ensures var out := Outside(p, made, lost); out.lost >= lost && (out.lost > lost <==> FailureIn(out.events))
    decreases p, 0
  {
    match p
    case Return =>
    case Raise =>
    case Run(cmd, fails, next) =>
    case Keep(faults, body, next) =>
      CallLost(faults, body, made, lost);
      if OneCall(faults, body, made, lost).ok {
        LostAfter(OneCall(faults, body, made, lost), next, lost);
      }
    case Plain(body, next) =>
      LostIffFailed(body, made, lost);
      if Outside(body, made, lost).ok {
        LostAfter(Outside(body, made, lost), next, lost);
      }
    case Try(body, next) =>
      LostIffFailed(body, made, lost);
      LostAfter(Outside(body, made, lost), next, lost);
  }

  lemma CallLost(f: Faults, body: Program, made: nat, lost: nat)
    ensures var out := OneCall(f, body, made, lost); out.lost >= lost && (out.lost > lost <==> FailureIn(out.events))
  {
    var out := OneCall(f, body, made, lost);
    if f.makeFails || f.openFails {
      assert IsFailure(out.events[0]);
    } else {
      var inner := Inside(body, RemoteSession(made, true)).0;
      InsideOnlyRuns(body, RemoteSession(made, true));
      forall i | 0 <= i < |out.events| ensures !IsFailure(out.events[i]) {
        assert 0 < i <= |inner| ==> out.events[i] == inner[i - 1];
      }
    }
  }

  lemma LostAfter(first: Outcome, next: Program, lost: nat)
    requires first.lost >= lost && (first.lost > lost <==> FailureIn(first.events))
    ensures var out := OutsideThen(first, next); out.lost >= lost && (out.lost > lost <==> FailureIn(out.events))
    decreases next, 1
  {
    if first.stuck.Some? {
      var events := Inside(next, first.stuck.value).0;
      InsideOnlyRuns(next, first.stuck.value);
      assert !FailureIn(events);
      FailureInConcat(first.events, events);
    } else {
      LostIffFailed(next, first.made, first.lost);
      FailureInConcat(first.events, Outside(next, first.made, first.lost).events);
    }
  }

  lemma FailureInConcat(a: seq<Event>, b: seq<Event>)
    ensures FailureIn(a + b) <==> FailureIn(a) || FailureIn(b)
  {
    if i :| 0 <= i < |a| && IsFailure(a[i]) {
      assert IsFailure((a + b)[i]);
    }
    if i :| 0 <= i < |b| && IsFailure(b[i]) {
      assert IsFailure((a + b)[|a| + i]);
    }
  }

  /** The only events while `s` is held are commands run on `s`. */
  lemma {:induction false} InsideOnlyRuns(p: Program, s: RemoteSession)
    ensures OnlyRuns(Inside(p, s).0, s)
    decreases p
  {
    match p
    case Return =>
    case Raise =>
    case Run(cmd, fails, next) => InsideOnlyRuns(next, s);
    case Keep(_, body, next) => InsideOnlyRuns(body, s); InsideOnlyRuns(next, s);
    case Plain(body, next) => InsideOnlyRuns(body, s); InsideOnlyRuns(next, s);
    case Try(body, next) => InsideOnlyRuns(body, s); InsideOnlyRuns(next, s);
  }

  predicate OnlyRuns(events: seq<Event>, s: RemoteSession) {
    forall i :: 0 <= i < |events| ==>
      if s.live then events[i].Ran? && events[i].id == s.id else events[i].RanUnopened? && events[i].id == s.id
  }

  /** Nothing is closed. */
  predicate ClosesNothing(events: seq<Event>) {
    forall i :: 0 <= i < |events| ==> !events[i].Closed?
  }

  /**
   After a failure to make or to open a session the object never recovers: the counter stays above
   zero, no session is closed any more, at most one more is made, and a session that is held by then,
   open or not, stays, and all later programs can do is run commands on it.
   */
  lemma FailureIsForever(p: Program, q: Program, st: State)
    requires Idle(st) && FailureIn(Outside(p, st.made, 0).events)
    ensures var mid := Eval(p, 0, st).0; var end := Eval(q, 0, mid).0;
            && mid.count > 0 && end.count >= mid.count && end.made <= mid.made + 1
            && mid.log <= end.log && ClosesNothing(end.log[|mid.log|..])
            && (mid.held.Some? ==> end.held == mid.held && end.count == mid.count && end.made == mid.made
                                   && OnlyRuns(end.log[|mid.log|..], mid.held.value))
  {
    CountingRefinesBracketing(p, st, 0);
    LostIffFailed(p, st.made, 0);
    var mid := Eval(p, 0, st).0;
    var end := Eval(q, 0, mid).0;
    if mid.held.Some? {
      NestedCallsAreTransparent(q, 0, mid);
      InsideOnlyRuns(q, mid.held.value);
      assert end.log[|mid.log|..] == Inside(q, mid.held.value).0;
    } else {
      CountingRefinesBracketing(q, mid, mid.count);
      LostIffFailed(q, mid.made, mid.count);
      NothingClosed(q, mid.made, mid.count);
      assert end.log[|mid.log|..] == Outside(q, mid.made, mid.count).events;
    }
  }

  lemma {:induction false} NothingClosed(p: Program, made: nat, lost: nat)
    requires lost > 0
    ensures ClosesNothing(Outside(p, made, lost).events) && Outside(p, made, lost).lost > 0
    ensures Outside(p, made, lost).made == made + (if Outside(p, made, lost).stuck.Some? then 1 else 0)
    decreases p, 0
  {
    match p
    case Return =>
    case Raise =>
    case Run(cmd, fails, next) =>
    case Keep(faults, body, next) =>
      InsideOnlyRuns(body, RemoteSession(made, true));
      var first := OneCall(faults, body, made, lost);
      assert ClosesNothing(first.events);
      if first.ok {
        NothingClosedAfter(first, next);
      }
    case Plain(body, next) =>
      NothingClosed(body, made, lost);
      if Outside(body, made, lost).ok {
        NothingClosedAfter(Outside(body, made, lost), next);
      }
    case Try(body, next) =>
      NothingClosed(body, made, lost);
      NothingClosedAfter(Outside(body, made, lost), next);
  }

  lemma NothingClosedAfter(first: Outcome, next: Program)
    requires first.lost > 0 && ClosesNothing(first.events)
    ensures ClosesNothing(OutsideThen(first, next).events) && OutsideThen(first, next).lost > 0
    ensures first.stuck.Some? ==> OutsideThen(first, next).made == first.made && OutsideThen(first, next).stuck.Some?
    ensures first.stuck == None ==>
              OutsideThen(first, next).made == first.made + (if OutsideThen(first, next).stuck.Some? then 1 else 0)
    decreases next, 1
  {
    if first.stuck.Some? {
      InsideOnlyRuns(next, first.stuck.value);
    } else {
      NothingClosed(next, first.made, first.lost);
    }
  }

  /** After a failed open the session that is kept is the dead one, and commands run on it in vain. */
  lemma FailedOpenIsKept(p: Program, st: State, i: nat)
    requires Idle(st)
    requires var events := Outside(p, st.made, 0).events; i < |events| && events[i].OpenFailed?
    ensures var mid := Eval(p, 0, st).0; mid.held == Some(RemoteSession(Outside(p, st.made, 0).events[i].id, false))
  {
    CountingRefinesBracketing(p, st, 0);
    OpenFailedIsStuck(p, st.made, 0, i);
  }

  lemma {:induction false} OpenFailedIsStuck(p: Program, made: nat, lost: nat, i: nat)
    requires var events := Outside(p, made, lost).events; i < |events| && events[i].OpenFailed?
    ensures var out := Outside(p, made, lost); out.stuck == Some(RemoteSession(out.events[i].id, false))
    decreases p, 0
  {
    match p
    case Return =>
    case Raise =>
    case Run(cmd, fails, next) =>
    case Keep(faults, body, next) =>
      var first := OneCall(faults, body, made, lost);
      InsideOnlyRuns(body, RemoteSession(made, true));
      assert first.ok ==> forall j :: 0 <= j < |first.events| ==> !first.events[j].OpenFailed?;
      if first.ok {
        OpenFailedAfter(first, next, i);
      }
    case Plain(body, next) =>
      var first := Outside(body, made, lost);
      if i < |first.events| {
        OpenFailedIsStuck(body, made, lost, i);
      }
      if first.ok {
        OpenFailedAfter(first, next, i);
      }
    case Try(body, next) =>
      var first := Outside(body, made, lost);
      if i < |first.events| {
        OpenFailedIsStuck(body, made, lost, i);
      }
      OpenFailedAfter(first, next, i);
  }

  lemma OpenFailedAfter(first: Outcome, next: Program, i: nat)
    requires i < |OutsideThen(first, next).events| && OutsideThen(first, next).events[i].OpenFailed?
    requires i < |first.events| ==> first.stuck == Some(RemoteSession(first.events[i].id, false))
    ensures var out := OutsideThen(first, next); out.stuck == Some(RemoteSession(out.events[i].id, false))
    decreases next, 1
  {
    if first.stuck.Some? {
      InsideOnlyRuns(next, first.stuck.value);
    } else {
      OpenFailedIsStuck(next, first.made, first.lost, i - |first.events|);
    }
  }

  /** One open and one close for each outermost call, commands only in between, sessions numbered in order. */
  predicate Bracketed(events: seq<Event>, holding: Option<nat>, made: nat)
    decreases |events|
  {
    if events == [] then holding == None
    else match events[0]
      case Opened(id) => holding == None && id == made && Bracketed(events[1..], Some(id), made + 1)
      case Closed(id) => holding == Some(id) && Bracketed(events[1..], None, made)
      case Ran(id, _) => holding == Some(id) && Bracketed(events[1..], holding, made)
      case RanOnNone(_) => holding == None && Bracketed(events[1..], None, made)
      case MakeFailed => false
      case OpenFailed(_) => false
      case RanUnopened(_, _) => false
  }

  /** When no attempt to get a session fails, the remote side sees properly bracketed sessions. */
  lemma {:induction false} SessionsAreBracketed(p: Program, made: nat)
    requires Outside(p, made, 0).lost == 0
    ensures Bracketed(Outside(p, made, 0).events, None, made)
    ensures Outside(p, made, 0).made >= made
    decreases p
  {
    BracketedThen(p, [], made);
    assert Outside(p, made, 0).events + [] == Outside(p, made, 0).events;
  }

  /** Continuation form: what follows a program continues with the sessions it has not used. */
  lemma {:induction false} BracketedThen(p: Program, more: seq<Event>, made: nat)
    requires Outside(p, made, 0).lost == 0
    requires Bracketed(more, None, Outside(p, made, 0).made)
    ensures Bracketed(Outside(p, made, 0).events + more, None, made)
    ensures Outside(p, made, 0).made >= made && Outside(p, made, 0).stuck == None
    decreases p, 1
  {
    var events := Outside(p, made, 0).events;
    match p
    case Return => assert events + more == more;
    case Raise => assert events + more == more;
    case Run(cmd, _, _) => assert (events + more)[1..] == more;
    case Keep(faults, body, next) =>
      LostNeverShrinks(OneCall(faults, body, made, 0), next);
      if OneCall(faults, body, made, 0).ok {
        CallThenBracketed(p, more, made);
      } else {
        CallBracketed(faults, body, more, made);
      }
    case Plain(body, next) =>
      var first := Outside(body, made, 0);
      if first.ok {
        BracketedAfter(p, body, next, more, made);
      } else {
        BracketedThen(body, more, made);
      }
    case Try(body, next) =>
      BracketedAfter(p, body, next, more, made);
  }

  lemma CallThenBracketed(p: Program, more: seq<Event>, made: nat)
    requires p.Keep? && var first := OneCall(p.faults, p.body, made, 0);
             first.ok && first.lost == 0 && Outside(p, made, 0).lost == 0
    requires Bracketed(more, None, Outside(p, made, 0).made)
    ensures Bracketed(Outside(p, made, 0).events + more, None, made)
    ensures Outside(p, made, 0).made >= made && Outside(p, made, 0).stuck == None
    decreases p, 0
  {
    var first := OneCall(p.faults, p.body, made, 0);
    BracketedThen(p.next, more, first.made);
    var rest := Outside(p.next, first.made, 0).events;
    CallBracketed(p.faults, p.body, rest + more, made);
    assert (first.events + rest) + more == first.events + (rest + more);
  }

  lemma LostNeverShrinks(first: Outcome, next: Program)
    ensures OutsideThen(first, next).lost >= first.lost
  {
    if first.stuck == None {
      LostIffFailed(next, first.made, first.lost);
    }
  }

  lemma CallBracketed(f: Faults, body: Program, more: seq<Event>, made: nat)
    requires OneCall(f, body, made, 0).lost == 0 && Bracketed(more, None, made + 1)
    ensures Bracketed(OneCall(f, body, made, 0).events + more, None, made)
  {
    var s := RemoteSession(made, true);
    var inner := Inside(body, s).0;
    var events := OneCall(f, body, made, 0).events;
    InsideOnlyRuns(body, s);
    assert ([Closed(made)] + more)[1..] == more;
    RunsStayBracketed(inner, s, [Closed(made)] + more, made + 1);
    assert events + more == [Opened(made)] + (inner + ([Closed(made)] + more));
    assert (events + more)[1..] == inner + ([Closed(made)] + more);
  }

  lemma BracketedAfter(p: Program, body: Program, next: Program, more: seq<Event>, made: nat)
    requires p == Plain(body, next) || p == Try(body, next)
    requires OutsideThen(Outside(body, made, 0), next).lost == 0
    requires Bracketed(more, None, OutsideThen(Outside(body, made, 0), next).made)
    ensures Bracketed(OutsideThen(Outside(body, made, 0), next).events + more, None, made)
    ensures OutsideThen(Outside(body, made, 0), next).made >= made
    ensures OutsideThen(Outside(body, made, 0), next).stuck == None
    decreases p, 0
  {
    var first := Outside(body, made, 0);
    LostNeverShrinks(first, next);
    StuckIsLost(body, made, 0);
    var rest := Outside(next, first.made, 0).events + more;
    BracketedThen(next, more, first.made);
    BracketedThen(body, rest, made);
    assert OutsideThen(first, next).events + more == first.events + rest;
  }

  /** A session is only stuck when some call was lost. */
  lemma StuckIsLost(p: Program, made: nat, lost: nat)
    ensures Outside(p, made, lost).stuck.Some? ==> Outside(p, made, lost).lost > 0
  {
    CountingRefinesBracketing(p, State(lost, None, made, [], []), lost);
  }

  lemma {:induction false} RunsStayBracketed(inner: seq<Event>, s: RemoteSession, more: seq<Event>, made: nat)
    requires s.live && OnlyRuns(inner, s) && Bracketed(more, Some(s.id), made)
    ensures Bracketed(inner + more, Some(s.id), made)
    decreases |inner|
  {
    if inner == [] {
      assert inner + more == more;
    } else {
      assert (inner + more)[1..] == inner[1..] + more;
      assert inner[0].Ran?;
      RunsStayBracketed(inner[1..], s, more, made);
    }
  }

  /**
   When no attempt to get a session fails, every `runCmd` of the whole tree finds the counter equal to
   the number of active decorated calls, and an open session exactly when there is one.
   */
  lemma {:induction false} CounterIsDepth(p: Program, st: State)
    requires Idle(st) && Outside(p, st.made, 0).lost == 0
    ensures Sound(st.seen, Eval(p, 0, st).0.seen)
    decreases p, 0
  {
    match p
    case Return =>
    case Raise =>
    case Run(cmd, fails, next) =>
    case Keep(faults, body, next) =>
      var first := OneCall(faults, body, st.made, 0);
      LostNeverShrinks(first, next);
      CallAgrees(faults, body, st, 0);
      var (st3, raises) := Call(faults, body, st);
      CallSound(faults, body, st);
      if !raises {
        CounterIsDepth(next, st3);
      }
    case Plain(body, next) =>
      LostNeverShrinks(Outside(body, st.made, 0), next);
      CountingRefinesBracketing(body, st, 0);
      CounterIsDepth(body, st);
      if Eval(body, 0, st).1 {
        CounterIsDepth(next, Eval(body, 0, st).0);
      }
    case Try(body, next) =>
      LostNeverShrinks(Outside(body, st.made, 0), next);
      CountingRefinesBracketing(body, st, 0);
      CounterIsDepth(body, st);
      CounterIsDepth(next, Eval(body, 0, st).0);
  }

  lemma CallSound(f: Faults, body: Program, st: State)
    requires Idle(st)
    ensures Sound(st.seen, Call(f, body, st).0.seen)
  {
    var (st1, ok) := Enter(st, f);
    if ok {
      NestedCallsAreTransparent(body, 1, st1);
    }
  }

  ghost predicate Sound(before: seq<Sighting>, after: seq<Sighting>) {
    && before <= after
    && forall i :: |before| <= i < |after| ==>
         after[i].count == after[i].depth && (after[i].open <==> after[i].depth > 0)
  }

  // ---------------------------------------------------------------- a user

  /**
   Reading `Network.hostname` for the first time: a decorated call of two decorated calls, the second
   on the handler that the first command's exit code decides on.
   */
  function ReadHostname(f: Faults, whichFails: bool, cmd: string, cmdFails: bool): Program {
    Keep(f, Keep(f, Run(WHICH, whichFails, Return),
            Keep(f, Run(cmd, cmdFails, Return), Return)), Return)
  }

  const WHICH := "which hostnamectl"

  /** Both commands run on one session, which is closed whichever of them, or closing itself, raises. */
  lemma HostnameTakesOneSession(f: Faults, whichFails: bool, cmd: string, cmdFails: bool, made: nat)
    requires !f.makeFails && !f.openFails
    ensures Outside(ReadHostname(f, whichFails, cmd, cmdFails), made, 0) ==
            Outcome([Opened(made), Ran(made, WHICH)] + (if whichFails then [] else [Ran(made, cmd)]) + [Closed(made)],
                    !whichFails && !cmdFails && !f.closeFails, made + 1, 0, None)
  {
    var s, p := RemoteSession(made, true), ReadHostname(f, whichFails, cmd, cmdFails);
    InsideOne(WHICH, whichFails, s);
    InsideOne(cmd, cmdFails, s);
    var last := Keep(f, Run(cmd, cmdFails, Return), Return);
    assert [Ran(made, cmd)] + [] == [Ran(made, cmd)];
    assert Inside(last, s) == ([Ran(made, cmd)], !cmdFails);
    var runs := [Ran(made, WHICH)] + (if whichFails then [] else [Ran(made, cmd)]);
    assert Inside(p.body, s) == (runs, !whichFails && !cmdFails);
    var first := OneCall(f, p.body, made, 0);
    assert [Opened(made)] + runs == [Opened(made), Ran(made, WHICH)] + (if whichFails then [] else [Ran(made, cmd)]);
    if first.ok {
      assert Outside(Return, made + 1, 0) == Outcome([], true, made + 1, 0, None);
      assert first.events + [] == first.events;
    }
  }

  lemma InsideOne(cmd: string, fails: bool, s: RemoteSession)
    requires s.live
    ensures Inside(Run(cmd, fails, Return), s) == ([Ran(s.id, cmd)], !fails)
  {
    assert [Ran(s.id, cmd)] + [] == [Ran(s.id, cmd)];
  }
}
