/**
 * The three goroutines that pass a proxied stream on to its reader: one waits for the remote call,
 * one copies the stream, and one waits for both and closes the pipe the reader reads from. The
 * channel holds two errors; the wait group counts the two workers. Any interleaving is a sequence of
 * events; the outcome of the call, of the copy and of closing the stream is in the event. The remote
 * ends the data stream as its last act before the call succeeds, and never when the call fails; the
 * copy goes on until the stream ends or something breaks.
 */
module ProxyStream {
  import opened Wrappers

  const CAPACITY := 2

  // The worker that waits for the call. An outcome is true on success.
  datatype CallWorker = Calling | Reporting(ok: bool) | Reported(ok: bool) | CallDone(ok: bool)

  // The worker that copies the stream, then closes it. It reports failures only.
  datatype CopyWorker = Copying | ClosingStream | CopyFailed | CopyReported | CopyDone(ok: bool)

  datatype Closer = Waiting | Draining | Leaving | Gone

  datatype Pipe = Open | CleanEnd | BrokenEnd

  datatype State = State(
    call: CallWorker, copy: CopyWorker, closer: Closer,
    channel: seq<bool>, channelClosed: bool, group: nat,
    pipe: Pipe, pipeCloses: nat, sessionCloses: nat,
    // The remote has ended the stream; the session is lost, which ends all of its streams.
    ended: bool, lost: bool)

  // Both workers are added to the group before any goroutine runs.
  const START := State(Calling, Copying, Waiting, [], false, 2, Open, 0, 0, false, false)

  datatype Event =
    | CallReturns(ok: bool) | CallSends | CallFinishes
    | CopyEnds(ok: bool) | StreamCloses(ok: bool) | CopySends | CopyFinishes
    | WaitEnds | TakeError | DrainEnds | SessionCloses
    | RemoteEnds | SessionLost

  // A send on a full channel blocks, one on a closed channel panics.
  predicate CanSend(s: State) {
    !s.channelClosed && |s.channel| < CAPACITY
  }

  function Step(s: State, e: Event): Option<State> {
    match e
    case CallReturns(ok) =>
      if s.call.Calling? && (if ok then s.ended else !s.ended || s.lost) then Some(s.(call := Reporting(ok))) else None
    case CallSends =>
      if s.call.Reporting? && CanSend(s)
      then Some(s.(call := Reported(s.call.ok), channel := s.channel + [s.call.ok])) else None
    case CallFinishes =>
      if s.call.Reported? && s.group > 0 then Some(s.(call := CallDone(s.call.ok), group := s.group - 1)) else None
    case CopyEnds(ok) =>
      if s.copy.Copying? && (ok ==> s.ended || s.lost)
      then Some(s.(copy := if ok then ClosingStream else CopyFailed)) else None
    case StreamCloses(ok) =>
      if !s.copy.ClosingStream? || s.group == 0 then None
      else if ok then Some(s.(copy := CopyDone(true), group := s.group - 1))
      else Some(s.(copy := CopyFailed))
    case CopySends =>
      if s.copy.CopyFailed? && CanSend(s) then Some(s.(copy := CopyReported, channel := s.channel + [false])) else None
    case CopyFinishes =>
      if s.copy.CopyReported? && s.group > 0 then Some(s.(copy := CopyDone(false), group := s.group - 1)) else None
    case WaitEnds =>
      if s.closer.Waiting? && s.group == 0 then Some(s.(closer := Draining, channelClosed := true)) else None
    case TakeError =>
      if !s.closer.Draining? || s.channel == [] then None
      else if s.channel[0] then Some(s.(channel := s.channel[1..]))
      else Some(s.(channel := s.channel[1..], closer := Leaving, pipe := BrokenEnd, pipeCloses := s.pipeCloses + 1))
    case DrainEnds =>
      if s.closer.Draining? && s.channel == [] && s.channelClosed
      then Some(s.(closer := Leaving, pipe := CleanEnd, pipeCloses := s.pipeCloses + 1)) else None
    case SessionCloses =>
      if s.closer.Leaving? then Some(s.(closer := Gone, sessionCloses := s.sessionCloses + 1)) else None
    case RemoteEnds => if s.call.Calling? && !s.ended && !s.lost then Some(s.(ended := true)) else None
    case SessionLost => if !s.lost && !s.closer.Gone? then Some(s.(lost := true)) else None
  }

  // What only the surroundings can bring about: the session breaks, or a read or a write of the copy
  // does, as when the reader has closed its end of the pipe with data on the way to it.
  predicate Outside(e: Event) {
    e == SessionLost || e == CopyEnds(false)
  }

  function Execute(events: seq<Event>): Option<State> {
    if events == [] then Some(START)
    else
      var before := Execute(events[..|events| - 1]);
      if before.None? then None else Step(before.value, events[|events| - 1])
  }

  /* ---- What holds at every moment ---- */

  predicate WorkersDone(s: State) {
    s.call.CallDone? && s.copy.CopyDone?
  }

  function Running(s: State): nat {
    (if s.call.CallDone? then 0 else 1) + (if s.copy.CopyDone? then 0 else 1)
  }

  // Reports sent by the workers so far.
  function Reports(s: State): nat {
    (if s.call.Reported? || s.call.CallDone? then 1 else 0)
    + (if s.copy.CopyReported? || s.copy == CopyDone(false) then 1 else 0)
  }

  predicate SomethingFailed(s: State) {
    ((s.call.Reported? || s.call.CallDone?) && !s.call.ok) || s.copy.CopyReported? || s.copy == CopyDone(false)
  }

  predicate Sound(s: State) {
    && s.group == Running(s)
    && |s.channel| <= Reports(s)
    && (s.channelClosed <==> !s.closer.Waiting?)
    && (s.channelClosed ==> WorkersDone(s))
    && (s.closer.Waiting? || (s.closer.Draining? && s.pipe.Open?) ==> (SomethingFailed(s) <==> false in s.channel))
    && (s.pipe.Open? <==> s.closer.Waiting? || s.closer.Draining?)
    && (s.pipe.CleanEnd? ==> !SomethingFailed(s))
    && (s.pipe.BrokenEnd? ==> SomethingFailed(s))
    && s.pipeCloses == (if s.pipe.Open? then 0 else 1)
    && s.sessionCloses == (if s.closer.Gone? then 1 else 0)
    && (!s.call.Calling? && s.call.ok ==> s.ended)
  }

  lemma {:induction false} SendKeepsSound(s: State, e: Event)
    requires Sound(s) && (e.CallSends? || e.CopySends?) && Step(s, e).Some?
    ensures Sound(Step(s, e).value)
  {
    var s' := Step(s, e).value;
    assert forall x :: x in s'.channel <==> x in s.channel || x == s'.channel[|s.channel|];
  }

  lemma {:induction false} CloserKeepsSound(s: State, e: Event)
    requires Sound(s) && (e.WaitEnds? || e.TakeError? || e.DrainEnds? || e.SessionCloses?) && Step(s, e).Some?
    ensures Sound(Step(s, e).value)
  {
    if e.TakeError? {
      assert s.channel == [s.channel[0]] + Step(s, e).value.channel;
    }
  }

  lemma {:induction false} StepKeepsSound(s: State, e: Event)
    requires Sound(s) && Step(s, e).Some?
    ensures Sound(Step(s, e).value)
  {
    if e.CallSends? || e.CopySends? {
      SendKeepsSound(s, e);
    } else if e.WaitEnds? || e.TakeError? || e.DrainEnds? || e.SessionCloses? {
      CloserKeepsSound(s, e);
    }
  }

  lemma {:induction false} AlwaysSound(events: seq<Event>)
    requires Execute(events).Some?
    ensures Sound(Execute(events).value)
  {
    if events != [] {
      AlwaysSound(events[..|events| - 1]);
      StepKeepsSound(Execute(events[..|events| - 1]).value, events[|events| - 1]);
    }
  }

  // The remote call, the copy and closing the stream all succeeded.
  predicate AllSucceeded(events: seq<Event>) {
    CallReturns(true) in events && CopyEnds(true) in events && StreamCloses(true) in events
  }

  // What the workers remember of what happened.
  predicate Remembered(s: State, events: seq<Event>) {
    && (s.call.Calling? ==> CallReturns(true) !in events)
    && (!s.call.Calling? ==> (s.call.ok <==> CallReturns(true) in events))
    && (s.copy.ClosingStream? || s.copy == CopyDone(true) ==> CopyEnds(true) in events)
    && (s.copy == CopyDone(true) <==> StreamCloses(true) in events)
  }

  lemma {:induction false} StepRemembers(s: State, events: seq<Event>, e: Event)
    requires Remembered(s, events) && Step(s, e).Some?
    ensures Remembered(Step(s, e).value, events + [e])
  {
  }

  lemma {:induction false} AlwaysRemembered(events: seq<Event>)
    requires Execute(events).Some?
    ensures Remembered(Execute(events).value, events)
  {
    if events != [] {
      hide Step, Remembered;
      var before, e := events[..|events| - 1], events[|events| - 1];
      AlwaysRemembered(before);
      assert events == before + [e];
      StepRemembers(Execute(before).value, before, e);
    }
  }

  /**
   * In every interleaving a worker that has something to send can send it at once; the pipe and the
   * session are closed at most once, and only after both workers have finished; and once the pipe is
   * closed its reader sees a clean end exactly when the call, the copy and the close all succeeded.
   */
  lemma {:induction false} StreamEndsHonestly(events: seq<Event>)
    requires Execute(events).Some?
    ensures var s := Execute(events).value;
      && (s.call.Reporting? || s.copy.CopyFailed? ==> CanSend(s))
      && s.pipeCloses <= 1 && s.sessionCloses <= s.pipeCloses
      && (!s.pipe.Open? ==> WorkersDone(s) && (s.pipe.CleanEnd? <==> AllSucceeded(events)))
  {
    AlwaysSound(events);
    AlwaysRemembered(events);
  }

  /* ---- When the session is closed ---- */

  // The call has returned, with an error, and the stream is open: the copy waits for an end that the
  // remote will not give it.
  predicate Stuck(s: State) {
    !s.call.Calling? && s.copy.Copying? && !s.ended && !s.lost
  }

  /**
   * A remote call that fails leaves the reader waiting: once its error is reported nothing can happen
   * any more but from outside, the pipe is open and the session is not closed.
   */
  lemma {:induction false} FailedCallHangs()
    ensures var hung := Execute([CallReturns(false), CallSends, CallFinishes]);
      && hung.Some? && Stuck(hung.value) && hung.value.pipe.Open? && hung.value.sessionCloses == 0
      && forall e | Step(hung.value, e).Some? :: Outside(e)
  {
    assert [] + [CallReturns(false)] == [CallReturns(false)];
    assert [CallReturns(false)] + [CallSends] == [CallReturns(false), CallSends];
    ExecuteMore([], CallReturns(false));
    ExecuteMore([CallReturns(false)], CallSends);
    ExecuteMore([CallReturns(false), CallSends], CallFinishes);
    assert [CallReturns(false), CallSends] + [CallFinishes] == [CallReturns(false), CallSends, CallFinishes];
  }

  lemma {:induction false} ExecuteMore(events: seq<Event>, e: Event)
    requires Execute(events).Some?
    ensures Execute(events + [e]) == Step(Execute(events).value, e)
  {
    assert (events + [e])[..|events|] == events;
  }

  // Nothing the program does on its own ends that.
  lemma {:induction false} StuckStays(s: State, e: Event)
    requires Sound(s) && Stuck(s) && Step(s, e).Some? && !Outside(e)
    ensures Stuck(Step(s, e).value)
  {
  }

  // Steps left at most.
  function Left(s: State): nat {
    (match s.call case Calling => 3 case Reporting(_) => 2 case Reported(_) => 1 case CallDone(_) => 0)
    + (match s.copy
       case Copying => 4 case ClosingStream => 3 case CopyFailed => 2 case CopyReported => 1 case CopyDone(_) => 0)
    + (match s.closer case Waiting => 5 case Draining => 2 + |s.channel| case Leaving => 1 case Gone => 0)
    + (if s.ended then 0 else 1) + (if s.lost then 0 else 1)
  }

  lemma {:induction false} StepsRunOut(s: State, e: Event)
    requires Sound(s) && Step(s, e).Some?
    ensures Left(Step(s, e).value) < Left(s)
  {
  }

  // A step of the program or of the remote towards the end.
  lemma {:induction false} NextStep(s: State) returns (e: Event)
    requires Sound(s) && !s.closer.Gone? && !Stuck(s)
    ensures !Outside(e) && Step(s, e).Some? && !Stuck(Step(s, e).value)
  {
    e := match s.call
      case Calling => if s.ended then CallReturns(true) else if s.lost then CallReturns(false) else RemoteEnds
      case Reporting(_) => CallSends
      case Reported(_) => CallFinishes
      case CallDone(_) =>
        match s.copy
        case Copying => CopyEnds(true)
        case ClosingStream => StreamCloses(true)
        case CopyFailed => CopySends
        case CopyReported => CopyFinishes
        case CopyDone(_) =>
          match s.closer
          case Waiting => WaitEnds
          case Draining => if s.channel == [] then DrainEnds else TakeError
          case _ => SessionCloses;
  }

  lemma {:induction false} ShortRuns(events: seq<Event>)
    requires Execute(events).Some?
    ensures |events| + Left(Execute(events).value) <= Left(START)
  {
    if events != [] {
      var before := events[..|events| - 1];
      ShortRuns(before);
      AlwaysSound(before);
      StepsRunOut(Execute(before).value, events[|events| - 1]);
    }
  }

  // all continues events without anything from outside, until the session is closed.
  ghost predicate Finishes(events: seq<Event>, all: seq<Event>) {
    && events <= all && Execute(all).Some? && Execute(all).value.closer.Gone?
    && forall i | |events| <= i < |all| :: !Outside(all[i])
  }

  lemma {:induction false} CanFinish(events: seq<Event>) returns (all: seq<Event>)
    requires Execute(events).Some? && !Stuck(Execute(events).value)
    ensures Finishes(events, all)
    decreases Left(Execute(events).value)
  {
    AlwaysSound(events);
    var s := Execute(events).value;
    if s.closer.Gone? {
      all := events;
    } else {
      var e := NextStep(s);
      assert (events + [e])[..|events|] == events;
      StepsRunOut(s, e);
      all := CanFinish(events + [e]);
      assert all[|events|] == e;
    }
  }

  lemma {:induction false} StaysStuck(events: seq<Event>, all: seq<Event>)
    requires events <= all && Execute(events).Some? && Stuck(Execute(events).value)
    requires Execute(all).Some? && forall i | |events| <= i < |all| :: !Outside(all[i])
    ensures Stuck(Execute(all).value)
  {
    if |all| > |events| {
      var before := all[..|all| - 1];
      assert events <= before;
      StaysStuck(events, before);
      AlwaysSound(before);
      StuckStays(Execute(before).value, all[|all| - 1]);
    } else {
      assert all == events;
    }
  }

  /**
   * An interleaving can be continued until the session is closed, without anything from outside, if
   * and only if the call has not returned while the copy still waits for an open stream.
   */
  lemma {:induction false} FinishesIffNotStuck(events: seq<Event>)
    requires Execute(events).Some?
    ensures (exists all :: Finishes(events, all)) <==> !Stuck(Execute(events).value)
  {
    if Stuck(Execute(events).value) {
      forall all | Finishes(events, all) ensures false {
        StaysStuck(events, all);
        AlwaysSound(all);
      }
    } else {
      var all := CanFinish(events);
    }
  }

  /** No interleaving has more than fourteen steps, so one that cannot hang ends. */
  lemma {:induction false} InterleavingsAreShort(events: seq<Event>)
    requires Execute(events).Some?
    ensures |events| <= 14
  {
    ShortRuns(events);
  }

  /** What is stuck is let go when the session is lost or the copy breaks, and only then. */
  lemma {:induction false} OnlyOutsideHelps(s: State, e: Event)
    requires Sound(s) && Stuck(s) && Step(s, e).Some?
    ensures Outside(e) <==> !Stuck(Step(s, e).value)
  {
  }
}
