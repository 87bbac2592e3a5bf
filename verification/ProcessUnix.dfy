/** The life of a child process in its parent: pipes and fork, exit status, signals and the closing of descriptors. */
module ProcessUnix {
  import opened Options

  // ---- the kernel as the parent sees it ----

  /** What the parent did, in order. `Collected` is the wait call that returned the child's status, `Reported` a call of
      the object that returned the exit status. */
  datatype Event =
    | Opened(fd: int) | Closed(fd: int) | Signalled(pid: int, signal: int)
    | Collected(status: nat) | Reported(exit: int)

  function Effect(open: set<int>, e: Event): set<int> {
    match e
    case Opened(fd) => open + {fd}
    case Closed(fd) => open - {fd}
    case _ => open
  }

  /** A descriptor is opened when it is not open and closed when it is; nothing is signalled or collected after the
      child was collected; and what is reported is the status collected, or -1. */
  predicate Allowed(open: set<int>, collected: bool, status: int, e: Event) {
    match e
    case Opened(fd) => fd !in open
    case Closed(fd) => fd in open
    case Reported(exit) => exit == status
    case _ => !collected
  }

  function OpenAfter(log: seq<Event>): set<int> {
    if log == [] then {} else Effect(OpenAfter(log[..|log| - 1]), log[|log| - 1])
  }

  /** The exit status to report: that of the child if it was collected, else -1. */
  function StatusAfter(log: seq<Event>): int {
    if log == [] then -1
    else if log[|log| - 1].Collected? then ExitStatus(log[|log| - 1].status)
    else StatusAfter(log[..|log| - 1])
  }

  /** An exit code is in the second byte of the status; the number of a signal is in the first. */
  function ExitStatus(status: nat): nat { if status >= 256 then status / 256 else status }

  predicate CollectedIn(log: seq<Event>) {
    log != [] && (log[|log| - 1].Collected? || CollectedIn(log[..|log| - 1]))
  }

  /** The reported exit statuses, in order. */
  function Reports(log: seq<Event>): seq<int> {
    if log == [] then []
    else Reports(log[..|log| - 1]) + if log[|log| - 1].Reported? then [log[|log| - 1].exit] else []
  }

  /** Nothing was collected or reported in between. */
  predicate SameStory(before: seq<Event>, after: seq<Event>) {
    StatusAfter(before) == StatusAfter(after) && CollectedIn(before) == CollectedIn(after) &&
      Reports(before) == Reports(after)
  }

  predicate Proper(log: seq<Event>) {
    log != [] ==>
      var before := log[..|log| - 1];
      Proper(before) && Allowed(OpenAfter(before), CollectedIn(before), StatusAfter(before), log[|log| - 1])
  }

  lemma LogPush(log: seq<Event>, e: Event)
    ensures OpenAfter(log + [e]) == Effect(OpenAfter(log), e)
    ensures StatusAfter(log + [e]) == if e.Collected? then ExitStatus(e.status) else StatusAfter(log)
    ensures CollectedIn(log + [e]) <==> CollectedIn(log) || e.Collected?
    ensures Reports(log + [e]) == Reports(log) + if e.Reported? then [e.exit] else []
    ensures Proper(log + [e]) <==> Proper(log) && Allowed(OpenAfter(log), CollectedIn(log), StatusAfter(log), e)
  {
    assert (log + [e])[..|log|] == log;
  }

  datatype Child = Unborn | Running | Exited(status: nat) | Gone

  datatype WaitResult = Interrupted | NoSuchChild | NotYet | Status(raw: nat)

  class Kernel {
    var log: seq<Event>
    var child: Child
    /** The descriptors the reading thread polls. */
    var polled: set<int>

    constructor ()
      ensures log == [] && child == Unborn && polled == {}
    {
      log, child, polled := [], Unborn, {};
    }

    method Open(fd: int)
      requires Proper(log) && fd !in OpenAfter(log)
      modifies this`log
      ensures Proper(log) && OpenAfter(log) == old(OpenAfter(log)) + {fd}
      ensures SameStory(old(log), log)
    {
      LogPush(log, Opened(fd));
      log := log + [Opened(fd)];
    }

    /** Only an open descriptor that no thread polls is ever closed. */
    method Close(fd: int)
      requires Proper(log) && fd in OpenAfter(log) && fd !in polled
      modifies this`log
      ensures Proper(log) && OpenAfter(log) == old(OpenAfter(log)) - {fd}
      ensures SameStory(old(log), log)
    {
      LogPush(log, Closed(fd));
      log := log + [Closed(fd)];
    }

    method Kill(pid: int, signal: int)
      requires Proper(log) && !CollectedIn(log)
      modifies this`log
      ensures Proper(log) && OpenAfter(log) == old(OpenAfter(log)) && log == old(log) + [Signalled(pid, signal)]
      ensures SameStory(old(log), log)
    {
      LogPush(log, Signalled(pid, signal));
      log := log + [Signalled(pid, signal)];
    }

    method Report(exit: int)
      requires Proper(log) && exit == StatusAfter(log)
      modifies this`log
      ensures Proper(log) && OpenAfter(log) == old(OpenAfter(log)) && log == old(log) + [Reported(exit)]
      ensures StatusAfter(log) == old(StatusAfter(log)) && CollectedIn(log) == old(CollectedIn(log))
      ensures Reports(log) == old(Reports(log)) + [exit]
    {
      LogPush(log, Reported(exit));
      log := log + [Reported(exit)];
    }

    method MakePipe(p: Pipe) returns (ok: bool)
      requires Proper(log) && Distinct(p) && FdsOf(p) !! OpenAfter(log)
      modifies this`log
      ensures Proper(log) && ok == p.Ends? && OpenAfter(log) == old(OpenAfter(log)) + FdsOf(p)
      ensures SameStory(old(log), log)
    {
      ok := p.Ends?;
      if ok {
        Open(p.read);
        Open(p.write);
      }
    }

    /** A blocking wait that is repeated while it is interrupted. */
    method Await(interrupts: nat, status: nat) returns (r: WaitResult)
      requires Proper(log) && (child != Gone ==> !CollectedIn(log))
      modifies this`log, this`child
      ensures Proper(log) && OpenAfter(log) == old(OpenAfter(log)) && (child != Gone ==> !CollectedIn(log))
      ensures Reports(log) == old(Reports(log)) && (r.Status? || r.NoSuchChild?)
      ensures r.Status? ==>
        child == Gone && CollectedIn(log) && StatusAfter(log) == ExitStatus(r.raw) && old(child) != Gone
      ensures r.NoSuchChild? ==> log == old(log) && child == old(child) && (child == Gone || child == Unborn)
    {
      hide Proper, OpenAfter, StatusAfter, CollectedIn, Reports;
      var left := interrupts;
      r := WaitPid(true, left > 0, status);
      while r.Interrupted?
        invariant Proper(log) && OpenAfter(log) == old(OpenAfter(log)) && (child != Gone ==> !CollectedIn(log))
        invariant Reports(log) == old(Reports(log)) && (r.Interrupted? ==> left > 0)
        invariant !r.NotYet? && (!r.Status? ==> log == old(log) && child == old(child))
        invariant r.Status? ==>
          child == Gone && CollectedIn(log) && StatusAfter(log) == ExitStatus(r.raw) && old(child) != Gone
        invariant r.NoSuchChild? ==> child == Gone || child == Unborn
        decreases left
      {
        left := left - 1;
        r := WaitPid(true, left > 0, status);
      }
    }

    /** `interrupted` and the status of a child that is still running are up to the kernel; a blocking wait lasts until
        the child exits. */
    method WaitPid(blocking: bool, interrupted: bool, status: nat) returns (r: WaitResult)
      requires Proper(log) && (child != Gone ==> !CollectedIn(log))
      modifies this`log, this`child
      ensures Proper(log) && OpenAfter(log) == old(OpenAfter(log)) && (child != Gone ==> !CollectedIn(log))
      ensures r.Status? ==> child == Gone && CollectedIn(log) && StatusAfter(log) == ExitStatus(r.raw)
      ensures !r.Status? ==> log == old(log) && child == old(child)
      ensures r.NoSuchChild? ==> child == Gone || child == Unborn
      ensures Reports(log) == old(Reports(log)) && (r.Interrupted? <==> interrupted)
      ensures r.NotYet? ==> !blocking && child == Running
      ensures r.NoSuchChild? <==> !interrupted && (old(child) == Gone || old(child) == Unborn)
    {
      if interrupted { return Interrupted; }
      match child {
        case Unborn => r := NoSuchChild;
        case Gone => r := NoSuchChild;
        case Running =>
          if !blocking { return NotYet; }
          r := Status(status);
        case Exited(raw) => r := Status(raw);
      }
      if r.Status? {
        LogPush(log, Collected(r.raw));
        log := log + [Collected(r.raw)];
        child := Gone;
      }
    }
  }

  // ---- the process object ----

  /** What the kernel decides while a process is opened: the pipes it can make and the result of fork. */
  datatype Pipe = NoPipe | Ends(read: nat, write: nat)

  datatype Outcome = Outcome(stdin: Pipe, stdout: Pipe, stderr: Pipe, pid: int)

  function FdsOf(p: Pipe): set<int> { if p.NoPipe? then {} else {p.read, p.write} }

  /** The kernel hands out distinct descriptors, and fork returns no zero in the parent. */
  predicate Fair(o: Outcome) {
    && o.pid != 0 && FdsOf(o.stdin) !! FdsOf(o.stdout) !! FdsOf(o.stderr)
    && Distinct(o.stdin) && Distinct(o.stdout) && Distinct(o.stderr)
  }

  predicate Distinct(p: Pipe) { p.Ends? ==> p.read != p.write }

  function FdSet(fd: Option<int>): set<int> { if fd.Some? then {fd.value} else {} }

  class Process {
    const kernel: Kernel
    const openStdin: bool
    const readStdout: bool
    const readStderr: bool
    var stdinFd: Option<int>
    var stdoutFd: Option<int>
    var stderrFd: Option<int>
    var closed: bool
    var id: int
    var exitStatus: int
    /** The reading thread can be joined. */
    var reading: bool

    /** The descriptors the object still has to close. */
    ghost predicate Holds()
      reads this`id, this`stdinFd, this`stdoutFd, this`stderrFd, kernel`log
    {
      && Proper(kernel.log)
      && OpenAfter(kernel.log) == (if id > 0 then FdSet(stdinFd) + FdSet(stdoutFd) + FdSet(stderrFd) else {})
      && (id > 0 ==> FdSet(stdinFd) !! FdSet(stdoutFd) !! FdSet(stderrFd))
    }

    ghost predicate Polls()
      reads this`id, this`reading, this`stdoutFd, this`stderrFd, kernel`polled
    {
      kernel.polled == if reading && id > 0 then FdSet(stdoutFd) + FdSet(stderrFd) else {}
    }

    /** The object knows the child's status exactly when it collected it, and then it no longer signals. */
    ghost predicate Knows()
      reads this`id, this`closed, this`exitStatus, kernel`log, kernel`child
    {
      && exitStatus == StatusAfter(kernel.log)
      && (closed <==> id <= 0 || CollectedIn(kernel.log))
      && (CollectedIn(kernel.log) ==> kernel.child == Gone)
      && (if CollectedIn(kernel.log) then exitStatus >= 0 else exitStatus == -1)
      && (forall x | x in Reports(kernel.log) :: x == exitStatus)
      && (Reports(kernel.log) != [] ==> id <= 0 || kernel.child == Gone)
      && (id <= 0 ==> !CollectedIn(kernel.log))
      && (id > 0 ==> kernel.child != Unborn)
    }

    ghost predicate Valid()
      reads this, kernel
    {
      Holds() && Polls() && Knows()
    }

    constructor (kernel: Kernel, openStdin: bool, readStdout: bool, readStderr: bool, o: Outcome)
      requires Fair(o) && kernel.log == [] && kernel.child == Unborn && kernel.polled == {}
      modifies kernel
      ensures Valid() && this.kernel == kernel && Started(o)
      ensures this.openStdin == openStdin && this.readStdout == readStdout && this.readStderr == readStderr
      ensures reading <==> CanStart(o) && (readStdout || readStderr)
      ensures !CollectedIn(kernel.log) && Reports(kernel.log) == [] && (CanStart(o) ==> kernel.child == Running)
    {
      this.kernel, this.openStdin, this.readStdout, this.readStderr := kernel, openStdin, readStdout, readStderr;
      stdinFd, stdoutFd, stderrFd, closed, id, exitStatus, reading := None, None, None, true, -1, -1, false;
      new;
      var _ := Open(o);
      AsyncRead();
    }

    /** Nothing was collected yet and the log is as it should be. */
    ghost predicate Opening(open: set<int>)
      reads kernel`log, kernel`polled
    {
      && Proper(kernel.log) && OpenAfter(kernel.log) == open && kernel.polled == {}
      && StatusAfter(kernel.log) == -1 && !CollectedIn(kernel.log) && Reports(kernel.log) == []
    }

    method CloseBoth(p: Pipe, ghost open: set<int>)
      requires Opening(open + FdsOf(p)) && p.Ends? && Distinct(p) && FdsOf(p) !! open
      modifies kernel`log
      ensures Opening(open)
    {
      kernel.Close(p.read);
      kernel.Close(p.write);
    }

    /** Closes the pipes made so far. */
    method CloseAll(o: Outcome, pipedIn: bool, pipedOut: bool, pipedErr: bool)
      requires Fair(o) && (pipedIn ==> o.stdin.Ends?) && (pipedOut ==> o.stdout.Ends?) && (pipedErr ==> o.stderr.Ends?)
      requires Opening(Used(pipedIn, o.stdin) + Used(pipedOut, o.stdout) + Used(pipedErr, o.stderr))
      modifies kernel`log
      ensures Opening({})
    {
      ghost var a, b, c := Used(pipedIn, o.stdin), Used(pipedOut, o.stdout), Used(pipedErr, o.stderr);
      if pipedIn {
        assert a + b + c == b + c + FdsOf(o.stdin);
        CloseBoth(o.stdin, b + c);
      }
      assert Opening(b + c) by { assert !pipedIn ==> a + b + c == b + c; }
      if pipedOut {
        assert b + c == c + FdsOf(o.stdout);
        CloseBoth(o.stdout, c);
      }
      assert Opening(c) by { assert !pipedOut ==> b + c == c; }
      if pipedErr {
        CloseBoth(o.stderr, {});
      }
    }

    static ghost function Used(piped: bool, p: Pipe): set<int> { if piped then FdsOf(p) else {} }

    method MakePipe(p: Pipe, ghost open: set<int>) returns (ok: bool)
      requires Opening(open) && Distinct(p) && FdsOf(p) !! open
      modifies kernel`log
      ensures ok == p.Ends? && Opening(open + FdsOf(p))
    {
      ok := kernel.MakePipe(p);
    }

    /** Makes the pipes that are wanted; when one cannot be made, closes those made before it. */
    method MakePipes(o: Outcome) returns (ok: bool)
      requires Fair(o) && Opening({})
      modifies kernel`log
      ensures ok <==>
        (stdinFd.Some? ==> o.stdin.Ends?) && (stdoutFd.Some? ==> o.stdout.Ends?) && (stderrFd.Some? ==> o.stderr.Ends?)
      ensures ok ==> Opening(Used(stdinFd.Some?, o.stdin) + Used(stdoutFd.Some?, o.stdout) +
        Used(stderrFd.Some?, o.stderr))
      ensures !ok ==> Opening({})
    {
      hide Opening;
      ghost var a, b := Used(stdinFd.Some?, o.stdin), Used(stdoutFd.Some?, o.stdout);
      if stdinFd.Some? {
        ok := MakePipe(o.stdin, {});
        assert {} + FdsOf(o.stdin) == a;
        if !ok { return; }
      }
      if stdoutFd.Some? {
        ok := MakePipe(o.stdout, a);
        if !ok {
          assert a + {} == a && a + {} + {} == a;
          CloseAll(o, stdinFd.Some?, false, false);
          return;
        }
      }
      assert Opening(a + b) by { assert a + {} == a; }
      if stderrFd.Some? {
        ok := MakePipe(o.stderr, a + b);
        if !ok {
          assert a + b + {} == a + b;
          CloseAll(o, stdinFd.Some?, stdoutFd.Some?, false);
          return;
        }
      }
      assert a + b + {} == a + b;
      ok := true;
    }

    /** The parent keeps its end of a pipe and closes the child's. */
    method Keep(childEnd: int, ghost kept: set<int>, ghost others: set<int>)
      requires Opening(kept + {childEnd} + others) && childEnd !in kept + others
      modifies kernel`log
      ensures Opening(kept + others)
    {
      kernel.Close(childEnd);
    }

    method KeepEnds(o: Outcome)
      requires Fair(o) && (stdinFd.Some? ==> o.stdin.Ends?) && (stdoutFd.Some? ==> o.stdout.Ends?) &&
        (stderrFd.Some? ==> o.stderr.Ends?)
      requires Opening(Used(stdinFd.Some?, o.stdin) + Used(stdoutFd.Some?, o.stdout) + Used(stderrFd.Some?, o.stderr))
      modifies this`stdinFd, this`stdoutFd, this`stderrFd, kernel`log
      ensures Opening(FdSet(stdinFd) + FdSet(stdoutFd) + FdSet(stderrFd))
      ensures FdSet(stdinFd) !! FdSet(stdoutFd) !! FdSet(stderrFd)
      ensures stdinFd == (if old(stdinFd).Some? then Some(o.stdin.write) else None)
      ensures stdoutFd == (if old(stdoutFd).Some? then Some(o.stdout.read) else None)
      ensures stderrFd == (if old(stderrFd).Some? then Some(o.stderr.read) else None)
    {
      hide Opening;
      ghost var a, b, c := Used(stdinFd.Some?, o.stdin), Used(stdoutFd.Some?, o.stdout), Used(stderrFd.Some?, o.stderr);
      if stdinFd.Some? {
        assert a + b + c == {o.stdin.write} + {o.stdin.read} + (b + c);
        Keep(o.stdin.read, {o.stdin.write}, b + c);
        stdinFd := Some(o.stdin.write);
      }
      assert Opening(FdSet(stdinFd) + b + c) by { assert FdSet(stdinFd) + b + c == FdSet(stdinFd) + (b + c); }
      if stdoutFd.Some? {
        assert FdSet(stdinFd) + b + c == {o.stdout.read} + {o.stdout.write} + (FdSet(stdinFd) + c);
        Keep(o.stdout.write, {o.stdout.read}, FdSet(stdinFd) + c);
        stdoutFd := Some(o.stdout.read);
        assert {o.stdout.read} + (FdSet(stdinFd) + c) == FdSet(stdinFd) + FdSet(stdoutFd) + c;
      }
      assert Opening(FdSet(stdinFd) + FdSet(stdoutFd) + c);
      if stderrFd.Some? {
        assert FdSet(stdinFd) + FdSet(stdoutFd) + c ==
          {o.stderr.read} + {o.stderr.write} + (FdSet(stdinFd) + FdSet(stdoutFd));
        Keep(o.stderr.write, {o.stderr.read}, FdSet(stdinFd) + FdSet(stdoutFd));
        stderrFd := Some(o.stderr.read);
        assert {o.stderr.read} + (FdSet(stdinFd) + FdSet(stdoutFd)) ==
          FdSet(stdinFd) + FdSet(stdoutFd) + FdSet(stderrFd);
      }
    }

    /** Room for the wanted descriptors, not yet filled. */
    method WantFds()
      requires stdinFd.None? && stdoutFd.None? && stderrFd.None?
      modifies this`stdinFd, this`stdoutFd, this`stderrFd
      ensures stdinFd.Some? == openStdin && stdoutFd.Some? == readStdout && stderrFd.Some? == readStderr
    {
      var garbage: int := *;
      if openStdin { stdinFd := Some(garbage); }
      if readStdout { stdoutFd := Some(garbage); }
      if readStderr { stderrFd := Some(garbage); }
    }

    method Open(o: Outcome) returns (pid: int)
      requires Fair(o) && Opening({}) && kernel.child == Unborn && id == -1 && exitStatus == -1 && closed && !reading
      requires stdinFd.None? && stdoutFd.None? && stderrFd.None?
      modifies this, kernel`log, kernel`child
      ensures Holds() && Knows() && !reading && kernel.polled == {} && Started(o)
      ensures !CollectedIn(kernel.log) && Reports(kernel.log) == [] && (CanStart(o) ==> kernel.child == Running)
    {
      assert o.pid != 0;
      hide OpenAfter, Proper, StatusAfter, CollectedIn, Reports, Fair;
      WantFds();
      var ok := MakePipes(o);
      if !ok { return -1; }
      pid := o.pid;
      if pid < 0 {
        CloseAll(o, stdinFd.Some?, stdoutFd.Some?, stderrFd.Some?);
        return;
      }
      kernel.child := Running;
      KeepEnds(o);
      closed := false;
      id := pid;
    }

    predicate CanStart(o: Outcome) {
      && (openStdin ==> o.stdin.Ends?) && (readStdout ==> o.stdout.Ends?) && (readStderr ==> o.stderr.Ends?)
      && o.pid > 0
    }

    /** The process is running exactly when every pipe was made and fork succeeded; the parent then has its ends. */
    ghost predicate Started(o: Outcome)
      reads this`id, this`stdinFd, this`stdoutFd, this`stderrFd
    {
      && id == (if CanStart(o) then o.pid else -1)
      && (CanStart(o) ==>
            && stdinFd == (if openStdin then Some(o.stdin.write) else None)
            && stdoutFd == (if readStdout then Some(o.stdout.read) else None)
            && stderrFd == (if readStderr then Some(o.stderr.read) else None))
    }

    method AsyncRead()
      requires Holds() && Knows() && !reading && kernel.polled == {}
      modifies this`reading, kernel`polled
      ensures Valid() && (reading <==> id > 0 && (stdoutFd.Some? || stderrFd.Some?))
    {
      if id <= 0 || (stdoutFd.None? && stderrFd.None?) { return; }
      reading := true;
      kernel.polled := FdSet(stdoutFd) + FdSet(stderrFd);
    }

    method CloseStdin()
      requires Valid()
      modifies this`stdinFd, kernel`log
      ensures Valid() && stdinFd.None?
      ensures SameStory(old(kernel.log), kernel.log)
    {
      hide Proper, OpenAfter, StatusAfter, CollectedIn, Reports;
      if stdinFd.Some? {
        if id > 0 {
          kernel.Close(stdinFd.value);
        }
        stdinFd := None;
      }
    }

    method CloseStdout()
      requires Valid() && !reading
      modifies this`stdoutFd, kernel`log
      ensures Valid() && stdoutFd.None?
      ensures SameStory(old(kernel.log), kernel.log)
    {
      hide Proper, OpenAfter, StatusAfter, CollectedIn, Reports;
      if stdoutFd.Some? {
        if id > 0 {
          kernel.Close(stdoutFd.value);
        }
        stdoutFd := None;
      }
    }

    method CloseStderr()
      requires Valid() && !reading
      modifies this`stderrFd, kernel`log
      ensures Valid() && stderrFd.None?
      ensures SameStory(old(kernel.log), kernel.log)
    {
      hide Proper, OpenAfter, StatusAfter, CollectedIn, Reports;
      if stderrFd.Some? {
        if id > 0 {
          kernel.Close(stderrFd.value);
        }
        stderrFd := None;
      }
    }

    /** Joins the reading thread first, so that it never polls a closed descriptor. */
    method CloseFds()
      requires Valid()
      modifies this`reading, this`stdinFd, this`stdoutFd, this`stderrFd, kernel`log, kernel`polled
      ensures Valid() && OpenAfter(kernel.log) == {} && !reading
      ensures SameStory(old(kernel.log), kernel.log)
    {
      hide Proper, OpenAfter, StatusAfter, CollectedIn, Reports;
      if reading {
        reading := false;
        kernel.polled := {};
      }
      CloseStdin();
      CloseStdout();
      CloseStderr();
    }

    /** The status to report is settled: no later call can change it. */
    ghost predicate Settled()
      reads this`id, kernel`child
    {
      id <= 0 || kernel.child == Gone
    }

    /** `interrupts` wait calls are interrupted; `status` is that of a child that has not exited yet. */
    method GetExitStatus(interrupts: nat, status: nat) returns (exit: int)
      requires Valid()
      modifies this, kernel
      ensures Valid() && id == old(id) && Settled() && exit == StatusAfter(kernel.log)
      ensures Reports(kernel.log) == old(Reports(kernel.log)) + [exit]
      ensures old(Settled()) ==>
        exit == old(StatusAfter(kernel.log)) && kernel.log == old(kernel.log) + [Reported(exit)]
    {
      hide Proper, OpenAfter, StatusAfter, CollectedIn, Reports;
      if id <= 0 {
        exit := -1;
      } else {
        var r := kernel.Await(interrupts, status);
        if r.NoSuchChild? {
          exit := exitStatus;
        } else {
          exit := Store(r.raw);
        }
      }
      kernel.Report(exit);
    }

    /** Without waiting: whether the status is known, and if so the status. */
    method TryGetExitStatus() returns (known: bool, exit: int)
      requires Valid()
      modifies this, kernel
      ensures Valid() && id == old(id) && (known ==> Settled() && exit == StatusAfter(kernel.log))
      ensures Reports(kernel.log) == old(Reports(kernel.log)) + if known then [exit] else []
      ensures old(Settled()) ==> known && exit == old(StatusAfter(kernel.log))
      ensures !known ==> kernel.log == old(kernel.log) && kernel.child == Running
      ensures old(kernel.child).Exited? ==> known
    {
      hide Proper, OpenAfter, StatusAfter, CollectedIn, Reports;
      if id <= 0 {
        exit := -1;
      } else {
        var r := kernel.WaitPid(false, false, 0);
        match r {
          case NoSuchChild => exit := exitStatus;
          case NotYet => return false, 0;
          case Interrupted => return false, 0;
          case Status(raw) => exit := Store(raw);
        }
      }
      known := true;
      kernel.Report(exit);
    }

    /** The status was just collected: it is kept for later calls, and the descriptors are closed. */
    method Store(raw: nat) returns (exit: int)
      requires Holds() && Polls() && id > 0
      requires kernel.child == Gone && CollectedIn(kernel.log) && StatusAfter(kernel.log) == ExitStatus(raw)
      requires Reports(kernel.log) == []
      modifies this, kernel`log, kernel`polled
      ensures Valid() && id == old(id) && exit == StatusAfter(kernel.log) && Reports(kernel.log) == []
    {
      hide Proper, OpenAfter, StatusAfter, CollectedIn, Reports;
      exit := raw;
      if exit >= 256 {
        exit := exit / 256;
      }
      exitStatus := exit;
      closed := true;
      CloseFds();
    }

    /** The calls that send a signal to the group and the process. */
    ghost function Sent(signal: int, collected: bool): seq<Event>
      reads this`id
    {
      if id <= 0 || collected then [] else [Signalled(-id, signal), Signalled(id, signal)]
    }

    /** Both the group and the process are signalled, unless the child was collected. Once a status was reported of a
        started process, nothing is sent if and only if the reported status is not -1. */
    method Signal(signal: int)
      requires Valid()
      modifies kernel`log
      ensures Valid() && SameStory(old(kernel.log), kernel.log)
      ensures kernel.log == old(kernel.log) + Sent(signal, old(CollectedIn(kernel.log)))
      ensures forall x | x in Reports(old(kernel.log)) && id > 0 :: kernel.log == old(kernel.log) <==> x != -1
    {
      hide Proper, OpenAfter, StatusAfter, CollectedIn, Reports;
      if id > 0 && !closed {
        kernel.Kill(-id, signal);
        kernel.Kill(id, signal);
      }
    }

    method Kill(force: bool)
      requires Valid()
      modifies kernel`log
      ensures Valid() && SameStory(old(kernel.log), kernel.log)
      ensures kernel.log == old(kernel.log) + Sent(if force then SIGTERM else SIGINT, old(CollectedIn(kernel.log)))
      ensures forall x | x in Reports(old(kernel.log)) && id > 0 :: kernel.log == old(kernel.log) <==> x != -1
    {
      if force {
        Signal(SIGTERM);
      } else {
        Signal(SIGINT);
      }
    }

    /** The destructor. */
    method Destroy()
      requires Valid()
      modifies this, kernel
      ensures Proper(kernel.log) && OpenAfter(kernel.log) == {} && SameStory(old(kernel.log), kernel.log)
    {
      CloseFds();
    }
  }

  const SIGINT := 2
  const SIGTERM := 15

  // ---- every session ----

  /** A call on the object, or something that happens to the child meanwhile. */
  datatype Step =
    | Get(interrupts: nat, status: nat) | Try | StopInput | Kill(force: bool) | Send(signal: int)
    | ChildExits(status: nat) | CollectedElsewhere

  function After(child: Child, s: Step): Child {
    if s.ChildExits? && child == Running then Exited(s.status)
    else if s.CollectedElsewhere? && child.Exited? then Gone
    else child
  }

  method Happen(k: Kernel, s: Step)
    modifies k`child
    ensures k.child == After(old(k.child), s)
  {
    if s.ChildExits? && k.child == Running {
      k.child := Exited(s.status);
    } else if s.CollectedElsewhere? && k.child.Exited? {
      k.child := Gone;
    }
  }

  method Perform(p: Process, s: Step)
    requires p.Valid()
    modifies p, p.kernel
    ensures p.Valid() && (old(p.Settled()) ==>
      p.Settled() && StatusAfter(p.kernel.log) == old(StatusAfter(p.kernel.log)))
  {
    hide Proper, OpenAfter, StatusAfter, CollectedIn, Reports;
    match s {
      case Get(n, status) =>
        var _ := p.GetExitStatus(n, status);
      case Try =>
        var _, _ := p.TryGetExitStatus();
      case StopInput => p.CloseStdin();
      case Kill(force) => p.Kill(force);
      case Send(signal) => p.Signal(signal);
      case _ => Happen(p.kernel, s);
    }
  }

  /** Once a status other than -1 was reported, nothing is signalled. */
  predicate QuietAfterReport(log: seq<Event>) {
    forall i, j | 0 <= i < j < |log| && log[i].Reported? && log[i].exit != -1 :: !log[j].Signalled?
  }

  lemma {:induction false} StatusMeansCollected(log: seq<Event>)
    ensures StatusAfter(log) != -1 ==> CollectedIn(log)
  {
    if log != [] {
      StatusMeansCollected(log[..|log| - 1]);
    }
  }

  lemma {:induction false} ReportedIsCollected(log: seq<Event>, i: nat)
    requires Proper(log) && i < |log| && log[i].Reported? && log[i].exit != -1
    ensures CollectedIn(log)
  {
    var before := log[..|log| - 1];
    if i == |log| - 1 {
      StatusMeansCollected(before);
    } else {
      assert before[i] == log[i];
      ReportedIsCollected(before, i);
    }
  }

  lemma {:induction false} ProperIsQuiet(log: seq<Event>)
    requires Proper(log)
    ensures QuietAfterReport(log)
  {
    if log != [] {
      var before := log[..|log| - 1];
      ProperIsQuiet(before);
      assert log == before + [log[|log| - 1]];
      forall i | 0 <= i < |before| && before[i].Reported? && before[i].exit != -1 ensures CollectedIn(before) {
        ReportedIsCollected(before, i);
      }
    }
  }

  /** Every life of a process, from any outcome of pipe and fork through any calls to its destruction: each descriptor
      the parent opened is closed exactly once, no signal is sent after the status was collected or a status other than
      -1 was reported, and all reports of the exit status agree. */
  method Live(openStdin: bool, readStdout: bool, readStderr: bool, o: Outcome, steps: seq<Step>)
    returns (log: seq<Event>)
    requires Fair(o)
    ensures Proper(log) && OpenAfter(log) == {} && QuietAfterReport(log)
    ensures forall x | x in Reports(log) :: x == StatusAfter(log)
  {
    hide Proper, OpenAfter, StatusAfter, CollectedIn, Reports, QuietAfterReport;
    var kernel := new Kernel();
    LogNone();
    var p := new Process(kernel, openStdin, readStdout, readStderr, o);
    for k := 0 to |steps|
      invariant p.Valid() && p.kernel == kernel && fresh(p) && fresh(kernel)
    {
      Perform(p, steps[k]);
    }
    p.Destroy();
    log := kernel.log;
    ProperIsQuiet(log);
  }

  /** The child exits and somebody else collects it: -1 is reported, and the process is signalled all the same. */
  method CollectedByOthers(pid: int) returns (start: seq<Event>, log: seq<Event>)
    requires pid > 0
    ensures log == start + [Reported(-1), Signalled(-pid, SIGINT), Signalled(pid, SIGINT)]
  {
    hide Proper, OpenAfter, StatusAfter, CollectedIn, Reports;
    var kernel := new Kernel();
    LogNone();
    var p := new Process(kernel, false, false, false, Outcome(NoPipe, NoPipe, NoPipe, pid));
    start := kernel.log;
    Happen(kernel, ChildExits(0));
    Happen(kernel, CollectedElsewhere);
    var exit := p.GetExitStatus(0, 0);
    assert kernel.log == start + [Reported(-1)];
    p.Kill(false);
    log := kernel.log;
  }

  lemma LogNone()
    ensures Proper([]) && OpenAfter([]) == {} && StatusAfter([]) == -1 && !CollectedIn([]) && Reports([]) == []
  {
  }
}
