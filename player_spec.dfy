/**
 * The AudioSourceResult player (src/assets/js/slicer.js:168-325) as a state
 * machine over values: one function per operation, from the old state to the
 * new one. The class in module Player is proved against these functions.
 *
 * The host is made explicit: `now` is the current time of the player's audio
 * context, in sample frames; a playback node is a value holding the buffer
 * bound to it; a timer is the listener it captured and its period. The
 * host's 'ended' delivery is EndedStep, which the environment may apply once
 * per started node (`unendedNodes` counts the deliveries still due);
 * `orphanedTimers` counts intervals whose handle was overwritten without
 * being cleared.
 */
module PlayerSpec {
  import opened Options
  import opened JsValues
  import opened WebAudio
  import opened Slicer

  /** An AudioBufferSourceNode and the buffer assigned to it (undefined when the slice allocated nothing). */
  datatype Node = Node(buffer: Option<AudioBuffer>)

  /** A running setInterval timer: the 'playing' listener it captured and its period. */
  datatype Timer = Timer(listener: nat, period: int)

  /** One invocation of a registered listener. */
  datatype Fired = Fired(event: string, listener: nat)

  /** One report to the 'playing' listener: `{currentTime, playingTime}`. */
  datatype Progress = Progress(listener: nat, currentTime: int, playingTime: int)

  /** What `start` amounts to: it ran (ignoring the slicer's error), or it threw before creating a node. */
  datatype StartOutcome = Started(sliceError: Option<SliceError>) | StartThrew

  datatype PlayerState = PlayerState(
    sliced: AudioBuffer,                   // slicedAudioBuffer: fixed for the player's lifetime
    events: map<string, JsValue>,          // the listener table
    forPlay: Option<AudioBuffer>,          // slicedAudioBufferForPlay
    temporary: Option<AudioBuffer>,        // temporarySlicedAudio
    playingSource: Option<Node>,
    isPause: bool,
    timeInterval: Option<Timer>,
    interval: int,
    accumulateTimeSpan: int,
    startTime: int,
    endTime: int,
    timeSpan: int,
    unendedNodes: nat,
    orphanedTimers: nat)

  /** A buffer that can stand in for the slice: valid and at the slice's rate. */
  predicate Playable(s: PlayerState, b: Option<AudioBuffer>) {
    b.Some? ==> Valid(b.value) && b.value.sampleRate == s.sliced.sampleRate
  }

  /** What every reachable state satisfies. */
  predicate Inv(s: PlayerState) {
    && Valid(s.sliced)
    && Playable(s, s.forPlay)
    && Playable(s, s.temporary)
    && (s.timeInterval.Some? ==> s.playingSource.Some?)
    && (s.playingSource.Some? ==> !s.isPause && s.unendedNodes >= 1)
  }

  /** The state `initialize` leaves behind (lines 224-236). */
  predicate IsReset(s: PlayerState) {
    && s.forPlay == Some(s.sliced)
    && s.temporary.None?
    && s.playingSource.None?
    && !s.isPause
    && s.timeInterval.None?
    && s.startTime == 0 && s.endTime == 0 && s.timeSpan == 0 && s.accumulateTimeSpan == 0
  }

  /** The listener registered under `name`, when it is a function. */
  function ListenerOf(events: map<string, JsValue>, name: string): (l: Option<nat>)
    ensures l.Some? <==> name in events && events[name].Function?
    ensures l.Some? ==> events[name] == Function(l.value)
  {
    if name in events && events[name].Function? then Some(events[name].id) else None
  }

  /** `typeof listener === 'function' && listener(e)` for the listener registered under `name`. */
  function Fire(events: map<string, JsValue>, name: string): (f: Option<Fired>)
    ensures f.Some? <==> ListenerOf(events, name).Some?
    ensures f.Some? ==> f.value == Fired(name, ListenerOf(events, name).value)
  {
    match ListenerOf(events, name)
    case None => None
    case Some(id) => Some(Fired(name, id))
  }

  /** The constructor (lines 187-222). */
  function Create(sliced: AudioBuffer): (s: PlayerState)
    requires Valid(sliced)
    ensures Inv(s) && IsReset(s) && s.sliced == sliced
    ensures s.events == map[] && s.interval == 10 && s.unendedNodes == 0 && s.orphanedTimers == 0
  {
    PlayerState(sliced, map[], Some(sliced), None, None, false, None, 10, 0, 0, 0, 0, 0, 0)
  }

  /** initialize (lines 224-236): every per-run field back to its initial value; the current timer is cleared. */
  function Initialize(s: PlayerState): (r: PlayerState)
    requires Valid(s.sliced)
    ensures Inv(r) && IsReset(r)
    ensures r.sliced == s.sliced && r.events == s.events && r.interval == s.interval
    ensures r.unendedNodes == s.unendedNodes && r.orphanedTimers == s.orphanedTimers
  {
    s.(forPlay := Some(s.sliced), temporary := None, playingSource := None, isPause := false,
       startTime := 0, endTime := 0, timeSpan := 0, accumulateTimeSpan := 0, timeInterval := None)
  }

  /** setPlayingTimerInterval (lines 238-242): only a Number that is not NaN is taken. */
  function SetPlayingTimerInterval(s: PlayerState, interval: JsValue): (r: PlayerState)
    ensures Inv(s) ==> Inv(r)
    ensures r.interval == (if interval.Num? then interval.n else s.interval)
    ensures r.(interval := s.interval) == s
  {
    if interval.Num? then s.(interval := interval.n) else s
  }

  /** on (lines 323-325): the table keeps one listener per name, the last one registered. */
  function On(s: PlayerState, eventName: string, listener: JsValue): (r: PlayerState)
    ensures Inv(s) ==> Inv(r)
    ensures eventName in r.events && r.events[eventName] == listener
    ensures forall name :: name != eventName ==> (name in r.events <==> name in s.events)
    ensures forall name :: name != eventName && name in s.events ==> r.events[name] == s.events[name]
    ensures r.(events := s.events) == s
  {
    s.(events := s.events[eventName := listener])
  }

  /** Lines 268-288: bind the new node, record the start time, and start a timer when a 'playing' listener was registered. */
  function Launch(s: PlayerState, now: int, buffer: Option<AudioBuffer>, sliceError: Option<SliceError>): (r: (PlayerState, StartOutcome))
    ensures r.1 == Started(sliceError)
    ensures r.0.playingSource == Some(Node(buffer)) && !r.0.isPause && r.0.startTime == now
    ensures r.0.unendedNodes == s.unendedNodes + 1
    ensures r.0.timeInterval == (match ListenerOf(s.events, "playing")
                                 case Some(id) => Some(Timer(id, s.interval))
                                 case None => s.timeInterval)
    ensures r.0.orphanedTimers == s.orphanedTimers +
      (if ListenerOf(s.events, "playing").Some? && s.timeInterval.Some? then 1 else 0)
    ensures r.0.(playingSource := s.playingSource, isPause := s.isPause, startTime := s.startTime,
                 unendedNodes := s.unendedNodes, timeInterval := s.timeInterval,
                 orphanedTimers := s.orphanedTimers) == s
  {
    var playing := ListenerOf(s.events, "playing");
    var running := s.(playingSource := Some(Node(buffer)), isPause := false, startTime := now,
                      unendedNodes := s.unendedNodes + 1);
    match playing
    case None => (running, Started(sliceError))
    case Some(id) =>
      (running.(timeInterval := Some(Timer(id, s.interval)),
                orphanedTimers := s.orphanedTimers + (if s.timeInterval.Some? then 1 else 0)),
       Started(sliceError))
  }

  /**
   * start(begin, end) (lines 244-290). After a pause (timeSpan > 0) it
   * re-slices temporarySlicedAudio from timeSpan to its end; otherwise it
   * slices slicedAudioBufferForPlay over [begin ?? 0, end ?? duration of the
   * slice). Reading `.duration` of a missing buffer throws before any state
   * changes.
   */
  function Start(s: PlayerState, now: int, begin: Option<int>, end: Option<int>): (r: (PlayerState, StartOutcome))
    requires Inv(s)
    ensures Inv(r.0)
    ensures r.1.StartThrew? <==> if s.timeSpan > 0 then s.temporary.None? else s.forPlay.None?
    ensures r.1.StartThrew? ==> r.0 == s
    ensures r.1.Started? ==>
      && r.0.playingSource == Some(Node(r.0.temporary))
      && !r.0.isPause && r.0.startTime == now && r.0.unendedNodes == s.unendedNodes + 1
      && r.0.sliced == s.sliced && r.0.events == s.events && r.0.interval == s.interval
      && r.0.accumulateTimeSpan == s.accumulateTimeSpan && r.0.timeSpan == s.timeSpan && r.0.endTime == s.endTime
    ensures r.1.Started? ==>
      r.0.timeInterval == (match ListenerOf(s.events, "playing")
                           case Some(id) => Some(Timer(id, s.interval))
                           case None => s.timeInterval)
    ensures r.0.orphanedTimers == s.orphanedTimers +
      (if r.1.Started? && ListenerOf(s.events, "playing").Some? && s.timeInterval.Some? then 1 else 0)
    ensures r.1.Started? && s.timeSpan > 0 ==>
      var d := Deliver(s.temporary.value, s.timeSpan, s.temporary.value.length);
      r.1.sliceError == d.error && r.0.temporary == d.buffer && r.0.forPlay == s.forPlay
    ensures r.1.Started? && s.timeSpan <= 0 ==>
      var d := Deliver(s.forPlay.value, begin.GetOr(0), end.GetOr(s.sliced.length));
      r.1.sliceError == d.error && r.0.forPlay == d.buffer && r.0.temporary == d.buffer
  {
    if s.timeSpan > 0 then
      if s.temporary.None? then (s, StartThrew)
      else
        var t := s.temporary.value;
        var d := Deliver(t, s.timeSpan, t.length);
        Launch(s.(temporary := d.buffer), now, d.buffer, d.error)
    else
      if s.forPlay.None? then (s, StartThrew)
      else
        var d := Deliver(s.forPlay.value, begin.GetOr(0), end.GetOr(s.sliced.length));
        Launch(s.(forPlay := d.buffer, temporary := d.buffer), now, d.buffer, d.error)
  }

  /** pause (lines 292-306): the timer is cleared; a playing node is stopped and its run length kept in timeSpan. */
  function Pause(s: PlayerState, now: int): (r: PlayerState)
    requires Inv(s)
    ensures Inv(r)
    ensures r.isPause && r.timeInterval.None? && r.playingSource.None?
    ensures r.timeSpan == (if s.playingSource.Some? then now - s.startTime else s.timeSpan)
    ensures r.endTime == (if s.playingSource.Some? then now else s.endTime)
    ensures r.accumulateTimeSpan == s.accumulateTimeSpan && r.startTime == s.startTime
    ensures r.forPlay == s.forPlay && r.temporary == s.temporary && r.sliced == s.sliced
    ensures r.events == s.events && r.interval == s.interval
    ensures r.unendedNodes == s.unendedNodes && r.orphanedTimers == s.orphanedTimers
  {
    var cleared := s.(isPause := true, timeInterval := None);
    if s.playingSource.Some? then
      cleared.(endTime := now, timeSpan := now - s.startTime, playingSource := None)
    else cleared
  }

  /** stop (lines 308-321): stop the node and the timer, then initialize. */
  function Stop(s: PlayerState): (r: PlayerState)
    requires Inv(s)
    ensures Inv(r) && IsReset(r)
    ensures r.sliced == s.sliced && r.events == s.events && r.interval == s.interval
    ensures r.unendedNodes == s.unendedNodes && r.orphanedTimers == s.orphanedTimers
  {
    Initialize(s.(isPause := false, timeInterval := None, playingSource := None))
  }

  /**
   * endedEventListener (lines 168-185), run when a node reports 'ended':
   * timeSpan is added to the total, the timer is cleared, then the 'pause'
   * listener fires if the player is paused, and otherwise the 'end' listener
   * fires and the player is initialized.
   */
  function Ended(s: PlayerState): (r: (PlayerState, Option<Fired>))
    requires Inv(s) && s.unendedNodes > 0
    ensures Inv(r.0)
    ensures r.1 == Fire(s.events, if s.isPause then "pause" else "end")
    ensures r.0.timeInterval.None? && r.0.unendedNodes == s.unendedNodes - 1
    ensures r.0.sliced == s.sliced && r.0.events == s.events && r.0.interval == s.interval
    ensures r.0.orphanedTimers == s.orphanedTimers
    ensures s.isPause ==>
      && r.0.isPause && r.0.accumulateTimeSpan == s.accumulateTimeSpan + s.timeSpan
      && r.0.timeSpan == s.timeSpan && r.0.forPlay == s.forPlay && r.0.temporary == s.temporary
      && r.0.startTime == s.startTime && r.0.endTime == s.endTime && r.0.playingSource.None?
    ensures !s.isPause ==> IsReset(r.0)
  {
    var s1 := s.(accumulateTimeSpan := s.accumulateTimeSpan + s.timeSpan, timeInterval := None,
                 unendedNodes := s.unendedNodes - 1);
    if s.isPause then (s1, Fire(s.events, "pause"))
    else (Initialize(s1), Fire(s.events, "end"))
  }

  /** One tick of the timer started at line 282. */
  function Tick(s: PlayerState, now: int): (p: Progress)
    requires Inv(s) && s.timeInterval.Some?
    ensures p.listener == s.timeInterval.value.listener && p.currentTime == now
  {
    Progress(s.timeInterval.value.listener, now, s.accumulateTimeSpan + now - s.startTime)
  }

  // ---------------------------------------------------------------------
  // Properties of the player

  /** stop is idempotent: a second stop changes nothing. */
  lemma StopIdempotent(s: PlayerState)
    requires Inv(s)
    ensures Stop(Stop(s)) == Stop(s)
  {
  }

  /** Lines 249-266 from the reset state with no arguments: the node plays the whole slice, with no error. */
  lemma StartFromResetPlaysSlice(s: PlayerState, now: int)
    requires Inv(s) && IsReset(s) && 0 < s.sliced.length
    ensures var r := Start(s, now, None, None);
      && r.1 == Started(None)
      && r.0.playingSource == Some(Node(Some(s.sliced)))
      && r.0.forPlay == Some(s.sliced) && r.0.temporary == Some(s.sliced)
  {
    SliceInRange(s.sliced, 0, s.sliced.length);
    WindowWhole(s.sliced);
  }

  /** start(begin, end) from the reset state with 0 <= begin < end <= duration: the node plays exactly that window. */
  lemma StartWithRangePlaysWindow(s: PlayerState, now: int, begin: nat, end: nat)
    requires Inv(s) && IsReset(s) && begin < end <= s.sliced.length
    ensures var r := Start(s, now, Some(begin), Some(end));
      && r.1 == Started(None)
      && r.0.playingSource == Some(Node(Some(Window(s.sliced, begin, end))))
      && r.0.forPlay == r.0.temporary == Some(Window(s.sliced, begin, end))
  {
    SliceInRange(s.sliced, begin, end);
  }

  /**
   * Lines 250 and 261-265: a second start() without arguments, after
   * start(begin, end) narrowed slicedAudioBufferForPlay to a shorter window,
   * still slices up to the duration of the original slice. The window is
   * overrun: the error EndAfterDuration is passed to the callback, which
   * ignores it, and the node plays the window followed by silence up to the
   * original length.
   */
  lemma SecondStartOverrunsWindow(s: PlayerState, now1: int, now2: int, begin: nat, end: nat)
    requires Inv(s) && IsReset(s) && begin < end <= s.sliced.length && end - begin < s.sliced.length
    ensures var r1 := Start(s, now1, Some(begin), Some(end));
      var r2 := Start(r1.0, now2, None, None);
      && r2.1 == Started(Some(EndAfterDuration))
      && r2.0.forPlay.Some? && r2.0.forPlay == r2.0.temporary
      && r2.0.playingSource == Some(Node(r2.0.forPlay))
      && r2.0.forPlay.value.length == s.sliced.length
      && |r2.0.forPlay.value.channels| == |s.sliced.channels|
      && forall c :: 0 <= c < |s.sliced.channels| ==>
           r2.0.forPlay.value.channels[c] == s.sliced.channels[c][begin..end] + Zeros(s.sliced.length - (end - begin))
  {
    StartWithRangePlaysWindow(s, now1, begin, end);
    var w := Window(s.sliced, begin, end);
    EndPastDurationPadsSilence(w, 0, s.sliced.length);
    var d := Slice(w, 0, EndAt(s.sliced.length), true);
    forall c | 0 <= c < |s.sliced.channels|
      ensures d.buffer.value.channels[c] == s.sliced.channels[c][begin..end] + Zeros(s.sliced.length - (end - begin))
    {
      assert w.channels[c][0..] == w.channels[c] == s.sliced.channels[c][begin..end];
    }
  }

  /**
   * Lines 255-259: after a pause (timeSpan > 0) start ignores its arguments
   * and plays temporarySlicedAudio from timeSpan to its end.
   */
  lemma ResumePlaysRest(s: PlayerState, now: int, begin: Option<int>, end: Option<int>)
    requires Inv(s) && s.timeSpan > 0 && s.temporary.Some? && s.timeSpan < s.temporary.value.length
    ensures var t := s.temporary.value;
      var r := Start(s, now, begin, end);
      && r.1 == Started(None)
      && r.0.playingSource == Some(Node(Some(Window(t, s.timeSpan, t.length))))
      && r.0.temporary == Some(Window(t, s.timeSpan, t.length))
      && r.0.forPlay == s.forPlay
  {
    SliceInRange(s.temporary.value, s.timeSpan, s.temporary.value.length);
  }

  /** Line 280: from a state with no timer, start creates one exactly when a function is registered for 'playing'. */
  lemma TimerOnlyWithPlayingListener(s: PlayerState, now: int, begin: Option<int>, end: Option<int>)
    requires Inv(s) && s.timeInterval.None?
    ensures var r := Start(s, now, begin, end);
      r.1.Started? ==>
        && (r.0.timeInterval.Some? <==> "playing" in s.events && s.events["playing"].Function?)
        && (r.0.timeInterval.Some? ==> s.events["playing"] == Function(r.0.timeInterval.value.listener))
  {
  }

  /** Line 285: while a timer runs, the reported playing time does not decrease as the clock advances. */
  lemma ProgressMonotone(s: PlayerState, now1: int, now2: int)
    requires Inv(s) && s.timeInterval.Some? && now1 <= now2
    ensures Tick(s, now1).playingTime <= Tick(s, now2).playingTime
  {
  }

  /**
   * Pause, its 'ended' delivery and a resume carry the playing time over:
   * the first report after resuming equals the report at the moment of the
   * pause.
   */
  lemma ProgressResumesWherePaused(s: PlayerState, pauseAt: int, resumeAt: int)
    requires Inv(s) && s.timeInterval.Some? && ListenerOf(s.events, "playing").Some?
    ensures var paused := Pause(s, pauseAt);
      var ended := Ended(paused).0;
      var resumed := Start(ended, resumeAt, None, None);
      resumed.1.Started? ==>
        resumed.0.timeInterval.Some? && Tick(resumed.0, resumeAt).playingTime == Tick(s, pauseAt).playingTime
  {
  }

  /**
   * stop is not silent: the listener detached at line 316 is not the bound
   * one attached at line 271, so the stopped node's 'ended' still arrives,
   * fires the 'end' listener and initializes the player again.
   */
  lemma StopThenEndedFiresEnd(s: PlayerState)
    requires Inv(s) && s.playingSource.Some?
    ensures Stop(s).unendedNodes > 0
    ensures var r := Ended(Stop(s));
      r.1 == Fire(s.events, "end") && IsReset(r.0) && r.0.events == s.events
  {
  }

  /** on keeps only the last listener registered under a name. */
  lemma LastRegistrationWins(s: PlayerState, eventName: string, first: JsValue, second: JsValue)
    ensures On(On(s, eventName, first), eventName, second) == On(s, eventName, second)
  {
  }

  // ---------------------------------------------------------------------
  // Pause / resume cycles

  /** One run: start at `startAt`, pause at `pauseAt`, then the paused node's 'ended' is delivered. */
  datatype Run = Run(startAt: int, pauseAt: int)

  function Duration(run: Run): int {
    run.pauseAt - run.startAt
  }

  function Total(runs: seq<Run>): int {
    if runs == [] then 0 else Duration(runs[0]) + Total(runs[1..])
  }

  /** The state after the runs, or None when some start throws. */
  function PlayCycles(s: PlayerState, runs: seq<Run>): (r: Option<PlayerState>)
    requires Inv(s)
    ensures r.Some? ==> Inv(r.value)
    decreases |runs|
  {
    if runs == [] then Some(s)
    else
      var started := Start(s, runs[0].startAt, None, None);
      if started.1.StartThrew? then None
      else
        var paused := Pause(started.0, runs[0].pauseAt);
        PlayCycles(Ended(paused).0, runs[1..])
  }

  /** Elapsed-time conservation: after any completed runs, accumulateTimeSpan has grown by the sum of their lengths. */
  lemma {:induction false} CyclesAccumulate(s: PlayerState, runs: seq<Run>)
    requires Inv(s) && PlayCycles(s, runs).Some?
    ensures PlayCycles(s, runs).value.accumulateTimeSpan == s.accumulateTimeSpan + Total(runs)
    decreases |runs|
  {
    if runs != [] {
      var started := Start(s, runs[0].startAt, None, None);
      var paused := Pause(started.0, runs[0].pauseAt);
      var ended := Ended(paused).0;
      assert ended.accumulateTimeSpan == s.accumulateTimeSpan + Duration(runs[0]);
      CyclesAccumulate(ended, runs[1..]);
    }
  }

  /**
   * The bookkeeping resuming relies on: slicedAudioBufferForPlay is the full
   * slice, no node is playing, and either nothing has been played yet or
   * temporarySlicedAudio is the slice from (accumulateTimeSpan - timeSpan) on.
   */
  predicate ResumeReady(s: PlayerState) {
    && Valid(s.sliced)
    && s.forPlay == Some(s.sliced)
    && s.playingSource.None?
    && if s.timeSpan > 0 then
         && 0 <= s.accumulateTimeSpan - s.timeSpan < s.sliced.length
         && s.temporary == Some(Window(s.sliced, s.accumulateTimeSpan - s.timeSpan, s.sliced.length))
       else s.accumulateTimeSpan == 0
  }

  /** From a ResumeReady state, start without arguments plays the slice from accumulateTimeSpan on. */
  lemma ResumeAtAccumulated(s: PlayerState, now: int)
    requires Inv(s) && ResumeReady(s) && s.accumulateTimeSpan < s.sliced.length
    ensures var r := Start(s, now, None, None);
      && r.1 == Started(None)
      && r.0.playingSource == Some(Node(Some(Window(s.sliced, s.accumulateTimeSpan, s.sliced.length))))
      && r.0.temporary == Some(Window(s.sliced, s.accumulateTimeSpan, s.sliced.length))
      && r.0.forPlay == Some(s.sliced)
      && r.0.timeSpan == s.timeSpan && r.0.accumulateTimeSpan == s.accumulateTimeSpan
  {
    if s.timeSpan > 0 {
      var from := s.accumulateTimeSpan - s.timeSpan;
      var t := Window(s.sliced, from, s.sliced.length);
      SliceInRange(t, s.timeSpan, t.length);
      WindowOfTail(s.sliced, from, s.timeSpan);
    } else {
      SliceInRange(s.sliced, 0, s.sliced.length);
      WindowWhole(s.sliced);
    }
  }

  /** One run of positive length that pauses inside the slice keeps the bookkeeping ResumeReady. */
  lemma CycleKeepsResumeReady(s: PlayerState, run: Run)
    requires Inv(s) && ResumeReady(s) && s.accumulateTimeSpan < s.sliced.length && Duration(run) > 0
    ensures PlayCycles(s, [run]).Some?
    ensures var t := PlayCycles(s, [run]).value;
      ResumeReady(t) && t.accumulateTimeSpan == s.accumulateTimeSpan + Duration(run)
  {
    ResumeAtAccumulated(s, run.startAt);
    var started := Start(s, run.startAt, None, None);
    var paused := Pause(started.0, run.pauseAt);
    PausedRunIsReady(paused, s.accumulateTimeSpan);
    assert PlayCycles(s, [run]) == Some(Ended(paused).0);
  }

  /** The 'ended' delivery after a pause of positive length at `from + timeSpan` leaves the bookkeeping ResumeReady. */
  lemma PausedRunIsReady(p: PlayerState, from: nat)
    requires Inv(p) && p.isPause && p.unendedNodes > 0 && p.playingSource.None? && p.timeSpan > 0
    requires p.forPlay == Some(p.sliced) && from < p.sliced.length && p.accumulateTimeSpan == from
    requires p.temporary == Some(Window(p.sliced, from, p.sliced.length))
    ensures ResumeReady(Ended(p).0) && Ended(p).0.accumulateTimeSpan == from + p.timeSpan
  {
    var ended := Ended(p).0;
    assert ended.accumulateTimeSpan - ended.timeSpan == from;
  }

  /**
   * No drift across any number of pause/resume cycles: after runs of positive
   * length whose total stays inside the slice, the next start plays the
   * slice from exactly the total elapsed time.
   */
  lemma {:induction false} CyclesResumeAtTotal(s: PlayerState, runs: seq<Run>, now: int)
    requires Inv(s) && ResumeReady(s)
    requires forall i :: 0 <= i < |runs| ==> Duration(runs[i]) > 0
    requires s.accumulateTimeSpan + Total(runs) < s.sliced.length
    ensures PlayCycles(s, runs).Some?
    ensures var t := PlayCycles(s, runs).value;
      && ResumeReady(t)
      && t.accumulateTimeSpan == s.accumulateTimeSpan + Total(runs)
      && Start(t, now, None, None).0.playingSource ==
           Some(Node(Some(Window(s.sliced, t.accumulateTimeSpan, s.sliced.length))))
    decreases |runs|
  {
    if runs == [] {
      ResumeAtAccumulated(s, now);
    } else {
      TotalNonNegative(runs[1..]);
      CycleKeepsResumeReady(s, runs[0]);
      var started := Start(s, runs[0].startAt, None, None);
      var paused := Pause(started.0, runs[0].pauseAt);
      var ended := Ended(paused).0;
      assert PlayCycles(s, [runs[0]]).value == ended;
      CyclesResumeAtTotal(ended, runs[1..], now);
    }
  }

  lemma {:induction false} TotalNonNegative(runs: seq<Run>)
    requires forall i :: 0 <= i < |runs| ==> Duration(runs[i]) > 0
    ensures Total(runs) >= 0
    decreases |runs|
  {
    if runs != [] {
      assert forall i :: 0 <= i < |runs[1..]| ==> Duration(runs[1..][i]) > 0 by {
        forall i | 0 <= i < |runs[1..]| ensures Duration(runs[1..][i]) > 0 {
          assert runs[1..][i] == runs[i + 1];
        }
      }
      TotalNonNegative(runs[1..]);
    }
  }

  /**
   * The resume test at line 255 looks at timeSpan, not at isPause: after a
   * pause of zero length, the next start slices slicedAudioBufferForPlay
   * again and plays the slice from frame 0, while accumulateTimeSpan keeps
   * the earlier total.
   */
  lemma ZeroLengthPauseReplaysFromStart(s: PlayerState, at: int, later: int)
    requires Inv(s) && ResumeReady(s) && s.timeSpan > 0 && s.accumulateTimeSpan < s.sliced.length
    ensures var started := Start(s, at, None, None).0;
      var paused := Pause(started, at);
      var ended := Ended(paused).0;
      var replay := Start(ended, later, None, None);
      && replay.1 == Started(None)
      && replay.0.playingSource == Some(Node(Some(s.sliced)))
      && replay.0.accumulateTimeSpan == s.accumulateTimeSpan > 0
  {
    ResumeAtAccumulated(s, at);
    SliceInRange(s.sliced, 0, s.sliced.length);
    WindowWhole(s.sliced);
  }

  /**
   * A worked scenario: a 10-second mono buffer at 1000 Hz sliced from 2 s to
   * 5 s gives 3000 frames; the player started, paused after one second and
   * resumed plays the last two seconds, and the two 'ended' deliveries fire
   * 'pause' once and then 'end' once, leaving the player reset.
   */
  lemma PauseResumeScenario(b: AudioBuffer)
    requires Valid(b) && b.sampleRate == 1000 && b.length == 10000 && |b.channels| == 1
    ensures var sliced := Slice(b, 2000, EndAt(5000), true);
      && sliced == Delivered(None, Some(Window(b, 2000, 5000)))
      && sliced.buffer.value.length == 3000
    ensures var w := Window(b, 2000, 5000);
      var player := On(On(Create(w), "pause", Function(1)), "end", Function(2));
      var run1 := Start(player, 0, None, None).0;
      var paused := Pause(run1, 1000);
      var ended1 := Ended(paused);
      var run2 := Start(ended1.0, 5000, None, None);
      var ended2 := Ended(run2.0);
      && run1.playingSource == Some(Node(Some(w)))
      && paused.timeSpan == 1000
      && ended1.1 == Some(Fired("pause", 1)) && ended1.0.accumulateTimeSpan == 1000
      && run2.1 == Started(None)
      && run2.0.playingSource == Some(Node(Some(Window(w, 1000, 3000))))
      && ended2.1 == Some(Fired("end", 2)) && IsReset(ended2.0)
  {
    SliceInRange(b, 2000, 5000);
    var w := Window(b, 2000, 5000);
    var player := On(On(Create(w), "pause", Function(1)), "end", Function(2));
    StartFromResetPlaysSlice(player, 0);
    var run1 := Start(player, 0, None, None).0;
    var paused := Pause(run1, 1000);
    var ended1 := Ended(paused);
    ResumePlaysRest(ended1.0, 5000, None, None);
  }
}
