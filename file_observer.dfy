/** The inotify-based watcher of a single file (class file_observer).
    Kernel calls are not executed: their results are parameters (oracles),
    and construction and destruction report the calls they issue, so that
    the kernel resources they leave behind can be computed from the trace. */
module FileObserver {
  import opened Results
  import opened InotifyEvent

  /** O_NONBLOCK on Linux, the flag given to inotify_init1. */
  const IN_NONBLOCK: bv32 := 0x800
  /** The select timeout of poll, in microseconds (2 ms). */
  const SELECT_TIMEOUT_USEC: nat := 2000

  datatype SysCall =
    | InotifyInit(flags: bv32, result: int)
    | AddWatch(channel: int, path: seq<byte>, mask: bv32, result: int)
    | RmWatch(channel: int, wd: int)
    | Close(fd: int)
    | Select(channel: int, timeoutUsec: nat)
    | Read(channel: int, count: nat)

  /** The std::runtime_error exceptions of the class, by where they are thrown. */
  datatype ObserverError = ChannelInitError | WatchRegistrationError | SelectError | ReadError

  datatype SelectOutcome = SelectFailed | TimedOut | Readable
  datatype ReadOutcome = ReadFailed | ReadBytes(data: seq<byte>)

  /** The open channels after one call. */
  function ChannelsAfter(open: set<int>, c: SysCall): set<int>
  {
    match c
    case InotifyInit(_, r) => if r == -1 then open else open + {r}
    case Close(fd) => open - {fd}
    case _ => open
  }

  /** The registered watches, as (channel, watch descriptor), after one call;
      closing a channel drops the watches registered on it. */
  function WatchesAfter(live: set<(int, int)>, c: SysCall): set<(int, int)>
  {
    match c
    case AddWatch(ch, _, _, r) => if r == -1 then live else live + {(ch, r)}
    case RmWatch(ch, wd) => live - {(ch, wd)}
    case Close(fd) => set w | w in live && w.0 != fd
    case _ => live
  }

  /** Channels left open by a trace of calls. */
  function OpenChannels(calls: seq<SysCall>): set<int>
  {
    if calls == [] then {}
    else ChannelsAfter(OpenChannels(calls[..|calls| - 1]), calls[|calls| - 1])
  }

  /** Watches left registered by a trace of calls. */
  function LiveWatches(calls: seq<SysCall>): set<(int, int)>
  {
    if calls == [] then {}
    else WatchesAfter(LiveWatches(calls[..|calls| - 1]), calls[|calls| - 1])
  }

  lemma TraceStep(calls: seq<SysCall>, c: SysCall)
    ensures OpenChannels(calls + [c]) == ChannelsAfter(OpenChannels(calls), c)
    ensures LiveWatches(calls + [c]) == WatchesAfter(LiveWatches(calls), c)
  {
    assert (calls + [c])[..|calls|] == calls;
  }

  /** Every watch removal happens on a channel that is still open. */
  predicate RemovesOnOpenChannels(calls: seq<SysCall>)
  {
    forall i | 0 <= i < |calls| && calls[i].RmWatch? :: calls[i].channel in OpenChannels(calls[..i])
  }

  /** The calls of the constructor (fileobserver.cpp:19-32) given the results
      of inotify_init1 and inotify_add_watch. */
  function ConstructionCalls(dirName: seq<byte>, initResult: int, watchResult: int): (calls: seq<SysCall>)
    ensures 1 <= |calls| <= 2
    ensures calls[0] == InotifyInit(IN_NONBLOCK, initResult)
    ensures |calls| == 2 <==> initResult != -1
    ensures |calls| == 2 ==> calls[1] == AddWatch(initResult, dirName, IN_CLOSE_WRITE, watchResult)
  {
    [InotifyInit(IN_NONBLOCK, initResult)]
      + if initResult == -1 then [] else [AddWatch(initResult, dirName, IN_CLOSE_WRITE, watchResult)]
  }

  /** The calls of the destructor (fileobserver.cpp:35-44). */
  function DestructionCalls(inotifyFd: int, fileFd: int): (calls: seq<SysCall>)
    ensures RmWatch(inotifyFd, fileFd) in calls <==> inotifyFd != -1 && fileFd != -1
    ensures Close(inotifyFd) in calls <==> inotifyFd != -1
    ensures forall c | c in calls :: c == RmWatch(inotifyFd, fileFd) || c == Close(inotifyFd)
    ensures forall i, j | 0 <= i < j < |calls| :: calls[i].RmWatch? && calls[j].Close?
  {
    (if fileFd != -1 && inotifyFd != -1 then [RmWatch(inotifyFd, fileFd)] else [])
      + if inotifyFd != -1 then [Close(inotifyFd)] else []
  }

  /** The calls poll makes on the channel: one bounded select, and one read
      bounded by the buffer size when the channel is readable. */
  function PollCalls(inotifyFd: int, sel: SelectOutcome): (calls: seq<SysCall>)
    ensures |calls| >= 1 && calls[0] == Select(inotifyFd, SELECT_TIMEOUT_USEC)
    ensures |calls| == 2 <==> sel == Readable
    ensures |calls| <= 2 && (|calls| == 2 ==> calls[1] == Read(inotifyFd, BUFFER_SIZE))
  {
    [Select(inotifyFd, SELECT_TIMEOUT_USEC)] + if sel == Readable then [Read(inotifyFd, BUFFER_SIZE)] else []
  }

  class Observer {
    var inotifyFd: int
    var fileFd: int
    var dirName: seq<byte>
    var fileName: seq<byte>

    /** The member initialisers and the path split: both descriptors start at -1.
        The directory and base name are given (dirname/basename are libc). */
    constructor (dirName: seq<byte>, fileName: seq<byte>)
      ensures inotifyFd == -1 && fileFd == -1
      ensures this.dirName == dirName && this.fileName == fileName
    {
      inotifyFd := -1;
      fileFd := -1;
      this.dirName := dirName;
      this.fileName := fileName;
    }

    /** Opens the channel and watches the directory for IN_CLOSE_WRITE.
        A failed inotify_init1 throws before any watch is registered; a failed
        inotify_add_watch throws with the channel still open. */
    method Register(initResult: int, watchResult: int) returns (r: Result<(), ObserverError>, calls: seq<SysCall>)
      requires inotifyFd == -1 && fileFd == -1
      requires initResult >= -1 && watchResult >= -1
      modifies this`inotifyFd, this`fileFd
      ensures calls == ConstructionCalls(dirName, initResult, watchResult)
      ensures r == if initResult == -1 then Err(ChannelInitError)
                   else if watchResult == -1 then Err(WatchRegistrationError)
                   else Ok(())
      ensures inotifyFd == initResult
      ensures fileFd == if initResult == -1 then -1 else watchResult
    {
      inotifyFd := initResult;
      calls := [InotifyInit(IN_NONBLOCK, initResult)];
      if inotifyFd == -1 {
        return Err(ChannelInitError), calls;
      }
      fileFd := watchResult;
      calls := calls + [AddWatch(inotifyFd, dirName, IN_CLOSE_WRITE, watchResult)];
      if fileFd == -1 {
        return Err(WatchRegistrationError), calls;
      }
      r := Ok(());
    }

    /** The same registration with the channel closed when the watch fails. */
    method RegisterReleasing(initResult: int, watchResult: int) returns (r: Result<(), ObserverError>, calls: seq<SysCall>)
      requires inotifyFd == -1 && fileFd == -1
      requires initResult >= -1 && watchResult >= -1
      modifies this`inotifyFd, this`fileFd
      ensures calls == ReleasingConstructionCalls(dirName, initResult, watchResult)
      ensures r == if initResult == -1 then Err(ChannelInitError)
                   else if watchResult == -1 then Err(WatchRegistrationError)
                   else Ok(())
      ensures r.Ok? ==> inotifyFd == initResult && fileFd == watchResult
      ensures r.Err? ==> inotifyFd == -1 && fileFd == -1
    {
      r, calls := Register(initResult, watchResult);
      if r == Err(WatchRegistrationError) {
        calls := calls + [Close(inotifyFd)];
        inotifyFd, fileFd := -1, -1;
      }
    }

    /** The destructor: the watch is removed only when both descriptors are
        set, the channel closed only when it is set, removal first. */
    method Destroy() returns (calls: seq<SysCall>)
      ensures calls == DestructionCalls(inotifyFd, fileFd)
    {
      calls := [];
      if fileFd != -1 && inotifyFd != -1 {
        calls := calls + [RmWatch(inotifyFd, fileFd)];
      }
      if inotifyFd != -1 {
        calls := calls + [Close(inotifyFd)];
      }
    }

    /** One poll: select with a 2 ms timeout, one bounded read, decode of the
        first record, and the four tests that decide whether on_write fires.
        The result Ok(true) stands for the single on_write call; the object's
        fields are left as they were (the method modifies nothing). */
    method Poll(sel: SelectOutcome, rd: ReadOutcome) returns (r: Result<bool, ObserverError>, calls: seq<SysCall>)
      requires rd.ReadBytes? ==> |rd.data| <= BUFFER_SIZE
      ensures calls == PollCalls(inotifyFd, sel)
      ensures r.Ok? || r == Err(SelectError) || r == Err(ReadError)
      ensures r == Err(SelectError) <==> sel == SelectFailed
      ensures r == Err(ReadError) <==> sel == Readable && rd == ReadFailed
      ensures r == Ok(true) <==>
                && sel == Readable && rd.ReadBytes? && |rd.data| >= EVENT_SIZE
                && Fires(Decode(Padded(rd.data)).value, fileFd, fileName)
    {
      calls := [Select(inotifyFd, SELECT_TIMEOUT_USEC)];
      if sel == SelectFailed {
        return Err(SelectError), calls;
      }
      if sel == TimedOut {
        return Ok(false), calls;
      }
      var buffer := new byte[BUFFER_SIZE](_ => 0);
      calls := calls + [Read(inotifyFd, BUFFER_SIZE)];
      if rd == ReadFailed {
        return Err(ReadError), calls;
      }
      var data := rd.data;
      var i := 0;
      while i < |data|
        invariant 0 <= i <= |data|
        invariant buffer[..i] == data[..i]
        invariant forall k | i <= k < BUFFER_SIZE :: buffer[k] == 0
      {
        buffer[i] := data[i];
        i := i + 1;
      }
      assert buffer[..] == Padded(data);
      if |data| < EVENT_SIZE {
        return Ok(false), calls;
      }
      var event := Decode(buffer[..]).value;
      var fired := false;
      if event.len > 0 {
        if event.mask & IN_CLOSE_WRITE != 0 && event.wd == fileFd && event.name == fileName {
          fired := true;
        }
      }
      r := Ok(fired);
    }
  }

  /** `new file_observer(path)`: either an armed observer, or the exception
      (the half-built object is dropped without running its destructor). */
  method Open(dirName: seq<byte>, fileName: seq<byte>, initResult: int, watchResult: int)
    returns (r: Result<Observer, ObserverError>, calls: seq<SysCall>)
    requires initResult >= -1 && watchResult >= -1
    ensures calls == ConstructionCalls(dirName, initResult, watchResult)
    ensures r.Ok? <==> initResult != -1 && watchResult != -1
    ensures initResult == -1 ==> r == Err(ChannelInitError)
    ensures initResult != -1 && watchResult == -1 ==> r == Err(WatchRegistrationError)
    ensures r.Ok? ==> fresh(r.value) && r.value.inotifyFd == initResult && r.value.fileFd == watchResult
    ensures r.Ok? ==> r.value.dirName == dirName && r.value.fileName == fileName
  {
    var o := new Observer(dirName, fileName);
    var reg;
    reg, calls := o.Register(initResult, watchResult);
    if reg.Err? {
      return Err(reg.error), calls;
    }
    r := Ok(o);
  }

  /** The calls of a constructor that closes the channel when the watch fails. */
  function ReleasingConstructionCalls(dirName: seq<byte>, initResult: int, watchResult: int): (calls: seq<SysCall>)
    ensures |calls| == |ConstructionCalls(dirName, initResult, watchResult)| + (if initResult != -1 && watchResult == -1 then 1 else 0)
    ensures calls[..|ConstructionCalls(dirName, initResult, watchResult)|] == ConstructionCalls(dirName, initResult, watchResult)
    ensures Close(initResult) in calls <==> initResult != -1 && watchResult == -1
  {
    ConstructionCalls(dirName, initResult, watchResult)
      + if initResult != -1 && watchResult == -1 then [Close(initResult)] else []
  }

  /** Constructing and destroying an observer leaves no channel and no watch,
      and the watch is removed while its channel is still open. */
  lemma LifecycleReleasesAll(dirName: seq<byte>, channel: int, wd: int)
    requires channel >= 0 && wd >= 0
    ensures var calls := ConstructionCalls(dirName, channel, wd) + DestructionCalls(channel, wd);
            && OpenChannels(calls) == {}
            && LiveWatches(calls) == {}
            && RemovesOnOpenChannels(calls)
  {
    var c0 := InotifyInit(IN_NONBLOCK, channel);
    var c1 := AddWatch(channel, dirName, IN_CLOSE_WRITE, wd);
    var c2 := RmWatch(channel, wd);
    var c3 := Close(channel);
    var calls := ConstructionCalls(dirName, channel, wd) + DestructionCalls(channel, wd);
    assert calls == [c0, c1, c2, c3];
    TraceStep([], c0);
    assert [] + [c0] == [c0];
    TraceStep([c0], c1);
    assert [c0] + [c1] == [c0, c1];
    TraceStep([c0, c1], c2);
    assert [c0, c1] + [c2] == [c0, c1, c2];
    TraceStep([c0, c1, c2], c3);
    assert [c0, c1, c2] + [c3] == calls;
    assert calls[..2] == [c0, c1];
  }

  /** A failed inotify_init1 holds nothing and registers no watch. */
  lemma ChannelInitFailureHoldsNothing(dirName: seq<byte>, watchResult: int)
    ensures var calls := ConstructionCalls(dirName, -1, watchResult);
            && OpenChannels(calls) == {}
            && forall c | c in calls :: !c.AddWatch?
  {
    var c0 := InotifyInit(IN_NONBLOCK, -1);
    TraceStep([], c0);
    assert [] + [c0] == ConstructionCalls(dirName, -1, watchResult);
  }

  /** As written, a failed inotify_add_watch leaves the channel open: the
      constructor throws without closing it and no destructor runs. */
  lemma WatchFailureLeaksChannel(dirName: seq<byte>, channel: int)
    requires channel >= 0
    ensures OpenChannels(ConstructionCalls(dirName, channel, -1)) == {channel}
  {
    var c0 := InotifyInit(IN_NONBLOCK, channel);
    var c1 := AddWatch(channel, dirName, IN_CLOSE_WRITE, -1);
    TraceStep([], c0);
    assert [] + [c0] == [c0];
    TraceStep([c0], c1);
    assert [c0] + [c1] == ConstructionCalls(dirName, channel, -1);
  }

  /** With the channel closed on the failure path, a construction that
      throws holds no channel and no watch. */
  lemma ReleasingConstructionNeverLeaks(dirName: seq<byte>, initResult: int, watchResult: int)
    requires initResult >= -1 && watchResult >= -1
    requires initResult == -1 || watchResult == -1
    ensures OpenChannels(ReleasingConstructionCalls(dirName, initResult, watchResult)) == {}
    ensures LiveWatches(ReleasingConstructionCalls(dirName, initResult, watchResult)) == {}
  {
    var c0 := InotifyInit(IN_NONBLOCK, initResult);
    TraceStep([], c0);
    assert [] + [c0] == [c0];
    if initResult != -1 {
      var c1 := AddWatch(initResult, dirName, IN_CLOSE_WRITE, -1);
      TraceStep([c0], c1);
      assert [c0] + [c1] == [c0, c1];
      TraceStep([c0, c1], Close(initResult));
      assert [c0, c1] + [Close(initResult)] == ReleasingConstructionCalls(dirName, initResult, watchResult);
    }
  }

  /** A completed write of the watched file, reported as the first record of
      a read, fires on_write exactly when the record matches all four tests. */
  lemma PollSeesFirstRecord(e: Event, rest: seq<byte>, fileFd: int, fileName: seq<byte>)
    requires WellFormed(e) && EVENT_SIZE + e.len + |rest| <= BUFFER_SIZE
    ensures var data := Encode(e) + rest;
            |data| >= EVENT_SIZE
            && (Fires(Decode(Padded(data)).value, fileFd, fileName) <==>
                e.len > 0 && e.mask & IN_CLOSE_WRITE != 0 && e.wd == fileFd && e.name == fileName)
  {
    LaterRecordsIgnored(e, rest);
  }
}
