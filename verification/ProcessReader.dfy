/** The thread that polls a child's output and hands it to the callbacks. */
module ProcessReader {
  import opened Options

  type Byte = x: int | 0 <= x < 256

  /** What `read` returns: some bytes (none at the end of the file), or an error that may pass. */
  datatype ReadResult = Bytes(data: seq<Byte>) | Error(transient: bool)

  /** What `poll` reports of one descriptor, and what reading it would return. */
  datatype Readiness = Readiness(pollin: bool, trouble: bool, result: ReadResult)

  /** `poll` fails, or it wakes up (for an event or an interrupt) with a report for each descriptor. */
  datatype Poll = Failed | Woken(reports: seq<Readiness>)

  /** A callback call. */
  datatype Call = Data(stdout: bool, bytes: seq<Byte>) | Close(stdout: bool)

  /** The bytes one stream's callback has received. */
  function Received(log: seq<Call>, stdout: bool): seq<Byte> {
    if log == [] then []
    else
      var e := log[|log| - 1];
      Received(log[..|log| - 1], stdout) + if e.Data? && e.stdout == stdout then e.bytes else []
  }

  /** After a stream's close callback nothing more is called for that stream. */
  predicate QuietAfterClose(log: seq<Call>) {
    forall i, j | 0 <= i < j < |log| && log[i].Close? :: log[j].stdout != log[i].stdout
  }

  lemma ReceivedPush(log: seq<Call>, e: Call, stdout: bool)
    ensures Received(log + [e], stdout) == Received(log, stdout) + if e.Data? && e.stdout == stdout then e.bytes else []
  {
    assert (log + [e])[..|log|] == log;
  }

  lemma QuietPush(log: seq<Call>, e: Call)
    requires QuietAfterClose(log) && Close(e.stdout) !in log
    ensures QuietAfterClose(log + [e])
  {
  }

  // ---- what a descriptor goes through ----

  /** The bytes a report yields, and whether it closes the stream. */
  function Yields(r: Readiness): seq<Byte> { if r.pollin && r.result.Bytes? then r.result.data else [] }

  predicate Shuts(r: Readiness) {
    if r.pollin then (if r.result.Bytes? then r.result.data == [] else !r.result.transient) else r.trouble
  }

  /** The reports on one descriptor. */
  type Reports = seq<Readiness>

  predicate StaysOpen(rs: Reports) { forall k | 0 <= k < |rs| :: !Shuts(rs[k]) }

  /** Everything read from one descriptor until it closes. */
  function BytesRead(rs: Reports): seq<Byte> {
    if rs == [] then []
    else
      var front := rs[..|rs| - 1];
      BytesRead(front) + if StaysOpen(front) then Yields(rs[|rs| - 1]) else []
  }

  lemma ReportPush(rs: Reports, r: Readiness)
    ensures BytesRead(rs + [r]) == BytesRead(rs) + if StaysOpen(rs) then Yields(r) else []
    ensures StaysOpen(rs + [r]) <==> StaysOpen(rs) && !Shuts(r)
  {
    assert (rs + [r])[..|rs|] == rs;
  }

  /** One stream: its callback got exactly what was read, and its close callback was called exactly when it closed. */
  predicate Told(log: seq<Call>, ready: bool, hasClose: bool, stdout: bool, rs: Reports) {
    && Received(log, stdout) == (if ready then BytesRead(rs) else [])
    && (Close(stdout) in log <==> ready && !StaysOpen(rs) && hasClose)
  }

  predicate Tracks(log: seq<Call>, fd: int, ready: bool, hasClose: bool, stdout: bool, rs: Reports) {
    (fd >= 0 <==> ready && StaysOpen(rs)) && Told(log, ready, hasClose, stdout, rs)
  }

  /** The callback calls a report causes on an open descriptor. */
  function Calls(r: Readiness, stdout: bool, hasClose: bool): seq<Call> {
    if Shuts(r) then (if hasClose then [Close(stdout)] else [])
    else if Yields(r) != [] then [Data(stdout, Yields(r))]
    else []
  }

  lemma TracksOpen(log: seq<Call>, fd: int, ready: bool, hasClose: bool, stdout: bool, rs: Reports, r: Readiness)
    requires Tracks(log, fd, ready, hasClose, stdout, rs) && fd >= 0 && QuietAfterClose(log)
    ensures var more := log + Calls(r, stdout, hasClose);
            && Tracks(more, if Shuts(r) then -1 else fd, ready, hasClose, stdout, rs + [r]) && QuietAfterClose(more)
  {
    hide Received, QuietAfterClose, BytesRead, StaysOpen;
    ReportPush(rs, r);
    var c := Calls(r, stdout, hasClose);
    if c == [] {
      assert log + c == log;
    } else {
      QuietPush(log, c[0]);
      ReceivedPush(log, c[0], stdout);
    }
  }

  lemma TracksShut(log: seq<Call>, fd: int, ready: bool, hasClose: bool, stdout: bool, rs: Reports, r: Readiness)
    requires Tracks(log, fd, ready, hasClose, stdout, rs) && fd < 0
    ensures Tracks(log, fd, ready, hasClose, stdout, rs + [r])
  {
    hide Received, BytesRead, StaysOpen;
    ReportPush(rs, r);
  }

  lemma TracksOther(log: seq<Call>, fd: int, ready: bool, hasClose: bool, stdout: bool, rs: Reports, c: seq<Call>)
    requires Tracks(log, fd, ready, hasClose, stdout, rs) && |c| <= 1 && (c != [] ==> c[0].stdout != stdout)
    ensures Tracks(log + c, fd, ready, hasClose, stdout, rs)
  {
    hide Received, BytesRead, StaysOpen;
    if c == [] {
      assert log + c == log;
    } else {
      assert c == [c[0]];
      ReceivedPush(log, c[0], stdout);
    }
  }

  class Reader {
    /** The polled descriptors; -1 when closed or not prepared. */
    const fds: array<int>
    /** Which of them is standard output. */
    const isStdout: seq<bool>
    /** Which of them could be made non-blocking. */
    const prepared: seq<bool>
    const onStdoutClose: bool
    const onStderrClose: bool
    var anyOpen: bool
    var log: seq<Call>
    /** The reports so far on each descriptor. */
    ghost var seen: seq<Reports>

    predicate HasClose(stdout: bool) { if stdout then onStdoutClose else onStderrClose }

    ghost predicate Shape()
      reads this`seen
    {
      && |isStdout| == |prepared| == |seen| == fds.Length <= 2
      && (fds.Length == 2 ==> isStdout[0] && !isStdout[1])
    }

    ghost predicate Stream(i: nat)
      requires Shape() && i < fds.Length
      reads this`log, this`seen, fds
    {
      Tracks(log, fds[i], prepared[i], HasClose(isStdout[i]), isStdout[i], seen[i])
    }

    ghost predicate Valid()
      reads this`log, this`seen, fds
    {
      Shape() && QuietAfterClose(log) && forall i | 0 <= i < fds.Length :: Stream(i)
    }

    constructor (stdoutFd: Option<nat>, stderrFd: Option<nat>, stdoutReady: bool, stderrReady: bool,
                 onStdoutClose: bool, onStderrClose: bool)
      ensures Valid() && fresh(fds) && log == [] && seen == seq(fds.Length, _ => [])
      ensures isStdout == (if stdoutFd.Some? then [true] else []) + if stderrFd.Some? then [false] else []
      ensures prepared == (if stdoutFd.Some? then [stdoutReady] else []) + if stderrFd.Some? then [stderrReady] else []
      ensures anyOpen == (fds.Length > 0)
      ensures this.onStdoutClose == onStdoutClose && this.onStderrClose == onStderrClose
    {
      var p, o, r := [], [], [];
      if stdoutFd.Some? {
        o := o + [true];
        r := r + [stdoutReady];
        p := p + [if stdoutReady then stdoutFd.value else -1];
      }
      if stderrFd.Some? {
        o := o + [false];
        r := r + [stderrReady];
        p := p + [if stderrReady then stderrFd.value else -1];
      }
      var a := new int[|p|](i requires 0 <= i < |p| => p[i]);
      fds, isStdout, prepared := a, o, r;
      this.onStdoutClose, this.onStderrClose := onStdoutClose, onStderrClose;
      anyOpen, log, seen := |p| > 0, [], seq(|p|, _ => []);
    }

    method CallClose(i: nat)
      requires Shape() && i < fds.Length
      modifies this`log
      ensures log == old(log) + if HasClose(isStdout[i]) then [Close(isStdout[i])] else []
    {
      if isStdout[i] {
        if onStdoutClose {
          log := log + [Close(true)];
        }
      } else {
        if onStderrClose {
          log := log + [Close(false)];
        }
      }
    }

    /** One descriptor in one round: whether it stays open. */
    method Serve(i: nat, report: Readiness) returns (open: bool)
      requires Valid() && i < fds.Length
      modifies this`log, this`seen, fds
      ensures Valid() && open == (fds[i] >= 0) && seen == old(seen)[i := old(seen)[i] + [report]]
      ensures forall k | 0 <= k < fds.Length && k != i :: fds[k] == old(fds[k])
    {
      hide QuietAfterClose, Tracks;
      ghost var stdout, hasClose := isStdout[i], HasClose(isStdout[i]);
      assert Stream(i);
      forall k | 0 <= k < fds.Length && k != i
        ensures Tracks(log, fds[k], prepared[k], HasClose(isStdout[k]), isStdout[k], seen[k])
        ensures Tracks(log + Calls(report, stdout, hasClose), fds[k], prepared[k],
                       HasClose(isStdout[k]), isStdout[k], seen[k])
      {
        assert Stream(k);
        TracksOther(log, fds[k], prepared[k], HasClose(isStdout[k]), isStdout[k], seen[k],
          Calls(report, stdout, hasClose));
      }
      open := false;
      if fds[i] >= 0 {
        TracksOpen(log, fds[i], prepared[i], hasClose, stdout, seen[i], report);
        open := React(i, report);
        if !open {
          fds[i] := -1;
        }
      } else {
        TracksShut(log, fds[i], prepared[i], hasClose, stdout, seen[i], report);
      }
      seen := seen[i := seen[i] + [report]];
    }

    /** The callback calls for a report on an open descriptor. */
    method React(i: nat, report: Readiness) returns (open: bool)
      requires Shape() && i < fds.Length
      modifies this`log
      ensures log == old(log) + Calls(report, isStdout[i], HasClose(isStdout[i])) && open == !Shuts(report)
    {
      if report.pollin {
        match report.result {
          case Bytes(data) =>
            if |data| > 0 {
              log := log + [Data(isStdout[i], data)];
            } else {
              CallClose(i);
              return false;
            }
          case Error(transient) =>
            if !transient {
              CallClose(i);
              return false;
            }
        }
      } else if report.trouble {
        CallClose(i);
        return false;
      }
      return true;
    }

    method Round(reports: seq<Readiness>)
      requires Valid() && |reports| == fds.Length
      modifies this`anyOpen, this`log, this`seen, fds
      ensures Valid() && (anyOpen <==> exists i | 0 <= i < fds.Length :: fds[i] >= 0)
      ensures forall i | 0 <= i < fds.Length :: seen[i] == old(seen)[i] + [reports[i]]
    {
      hide QuietAfterClose, Tracks;
      anyOpen := false;
      for i := 0 to fds.Length
        invariant Valid() && (anyOpen <==> exists k | 0 <= k < i :: fds[k] >= 0)
        invariant forall k | 0 <= k < fds.Length :: seen[k] == old(seen)[k] + if k < i then [reports[k]] else []
      {
        var open := Serve(i, reports[i]);
        if open {
          anyOpen := true;
        }
      }
    }

    /** The loop, over any results of polling; it ends early when `poll` fails or the results so far are used up. */
    method Run(polls: seq<Poll>) returns (served: nat)
      requires Valid() && anyOpen == (fds.Length > 0) && seen == seq(fds.Length, _ => [])
      requires forall k | 0 <= k < |polls| && polls[k].Woken? :: |polls[k].reports| == fds.Length
      modifies this, fds
      ensures Valid() && served <= |polls| && forall k | 0 <= k < served :: polls[k].Woken?
      ensures forall i | 0 <= i < fds.Length ::
        seen[i] == seq(served, k requires 0 <= k < served => polls[k].reports[i])
      ensures anyOpen ==> served == |polls| || polls[served].Failed?
      ensures !anyOpen ==> forall i | 0 <= i < fds.Length :: prepared[i] ==> !StaysOpen(seen[i])
    {
      hide QuietAfterClose;
      served := 0;
      while anyOpen && served < |polls| && polls[served].Woken?
        invariant Valid() && served <= |polls| && forall k | 0 <= k < served :: polls[k].Woken?
        invariant forall i | 0 <= i < fds.Length ::
          seen[i] == seq(served, k requires 0 <= k < served => polls[k].reports[i])
        invariant !anyOpen ==> forall i | 0 <= i < fds.Length :: fds[i] < 0
      {
        Round(polls[served].reports);
        served := served + 1;
      }
      forall i | 0 <= i < fds.Length && !anyOpen ensures prepared[i] ==> !StaysOpen(seen[i]) {
        assert Stream(i);
      }
    }
  }

  /** What the thread starts from: the piped streams, whether they could be made non-blocking, and the close callbacks
      that are set. */
  datatype Streams = Streams(stdoutFd: Option<nat>, stderrFd: Option<nat>, stdoutReady: bool, stderrReady: bool,
                             onStdoutClose: bool, onStderrClose: bool)
  {
    predicate Piped(stdout: bool) { if stdout then stdoutFd.Some? else stderrFd.Some? }

    predicate Ready(stdout: bool) { if stdout then stdoutReady else stderrReady }

    predicate HasClose(stdout: bool) { if stdout then onStdoutClose else onStderrClose }

    function Count(): nat { (if stdoutFd.Some? then 1 else 0) + if stderrFd.Some? then 1 else 0 }

    /** Where a piped stream stands among the polled descriptors. */
    function IndexOf(stdout: bool): (i: nat)
      ensures Piped(stdout) ==> i < Count()
    {
      if stdout || stdoutFd.None? then 0 else 1
    }
  }

  /** What the first polls reported of one descriptor. */
  function ReportsOn(polls: seq<Poll>, served: nat, i: nat): Reports
    requires served <= |polls| && forall k | 0 <= k < served :: polls[k].Woken? && i < |polls[k].reports|
  {
    seq(served, k requires 0 <= k < served => polls[k].reports[i])
  }

  /** The whole thread, over every sequence of poll and read results: each callback gets exactly the bytes read from its
      own stream in order, nothing is called for a stream after its close, and if the loop is done without a failure of
      `poll` every stream that was prepared has closed. */
  method ReadOutput(c: Streams, polls: seq<Poll>) returns (log: seq<Call>, served: nat, done: bool)
    requires forall k | 0 <= k < |polls| && polls[k].Woken? :: |polls[k].reports| == c.Count()
    ensures served <= |polls| && forall k | 0 <= k < served :: polls[k].Woken? && |polls[k].reports| == c.Count()
    ensures QuietAfterClose(log)
    ensures forall stdout: bool | c.Piped(stdout) ::
              Told(log, c.Ready(stdout), c.HasClose(stdout), stdout, ReportsOn(polls, served, c.IndexOf(stdout)))
    ensures !done ==> served == |polls| || polls[served].Failed?
    ensures done ==> forall stdout: bool | c.Piped(stdout) && c.Ready(stdout) && c.HasClose(stdout) ::
      Close(stdout) in log
  {
    hide QuietAfterClose, StaysOpen, Received, BytesRead;
    var r := new Reader(c.stdoutFd, c.stderrFd, c.stdoutReady, c.stderrReady, c.onStdoutClose, c.onStderrClose);
    served := r.Run(polls);
    log, done := r.log, !r.anyOpen;
    forall stdout: bool | c.Piped(stdout)
      ensures Told(log, c.Ready(stdout), c.HasClose(stdout), stdout, ReportsOn(polls, served, c.IndexOf(stdout)))
      ensures done && c.Ready(stdout) ==> !StaysOpen(ReportsOn(polls, served, c.IndexOf(stdout)))
    {
      assert r.Stream(c.IndexOf(stdout));
    }
  }
}
