/**
 * AudioSourceResult (src/assets/js/slicer.js:168-325) as an object whose
 * methods update its fields one step at a time, as the source does. Each
 * method is proved to leave the object in the state the matching function
 * of PlayerSpec computes from the old state.
 *
 * Host calls are explicit: the audio context's current time is the `now`
 * argument, the host's 'ended' delivery is EndedEventListener, a timer tick
 * is PlayingTick, and a listener call is a returned Fired value.
 */
module Player {
  import opened Options
  import opened JsValues
  import WebAudio
  import opened Slicer
  import opened PlayerSpec

  class AudioSourceResult {
    const slicedAudioBuffer: WebAudio.AudioBuffer
    var events: map<string, JsValue>
    var slicedAudioBufferForPlay: Option<WebAudio.AudioBuffer>
    var temporarySlicedAudio: Option<WebAudio.AudioBuffer>
    var playingSource: Option<Node>
    var isPause: bool
    var timeInterval: Option<Timer>
    var interval: int
    var accumulateTimeSpan: int
    var startTime: int
    var endTime: int
    var timeSpan: int
    ghost var unendedNodes: nat     // started nodes whose 'ended' the host has still to deliver
    ghost var orphanedTimers: nat   // intervals whose handle start overwrote without clearing

    /** The object's fields as a PlayerState value. */
    ghost function State(): PlayerState
      reads this
    {
      PlayerState(slicedAudioBuffer, events, slicedAudioBufferForPlay, temporarySlicedAudio,
                  playingSource, isPause, timeInterval, interval, accumulateTimeSpan,
                  startTime, endTime, timeSpan, unendedNodes, orphanedTimers)
    }

    ghost predicate Valid()
      reads this
    {
      Inv(State())
    }

    /** Lines 187-222. */
    constructor (slicedAudioBuffer: WebAudio.AudioBuffer)
      requires WebAudio.Valid(slicedAudioBuffer)
      ensures Valid() && State() == Create(slicedAudioBuffer)
    {
      this.slicedAudioBuffer := slicedAudioBuffer;
      events := map[];
      slicedAudioBufferForPlay := Some(slicedAudioBuffer);
      temporarySlicedAudio := None;
      playingSource := None;
      isPause := false;
      timeInterval := None;
      interval := 10;
      accumulateTimeSpan := 0;
      startTime := 0;
      endTime := 0;
      timeSpan := 0;
      unendedNodes := 0;
      orphanedTimers := 0;
    }

    /** Lines 224-236. */
    method Initialize()
      requires WebAudio.Valid(slicedAudioBuffer)
      modifies this
      ensures Valid() && State() == PlayerSpec.Initialize(old(State()))
    {
      ghost var before := State();
      slicedAudioBufferForPlay := Some(slicedAudioBuffer);
      temporarySlicedAudio := None;
      playingSource := None;
      isPause := false;
      startTime := 0;
      endTime := 0;
      timeSpan := 0;
      accumulateTimeSpan := 0;
      timeInterval := None;
      assert State() == before.(forPlay := Some(before.sliced), temporary := None, playingSource := None,
                                isPause := false, startTime := 0, endTime := 0, timeSpan := 0,
                                accumulateTimeSpan := 0, timeInterval := None);
    }

    /** Lines 238-242. */
    method SetPlayingTimerInterval(interval: JsValue)
      requires Valid()
      modifies this
      ensures Valid() && State() == PlayerSpec.SetPlayingTimerInterval(old(State()), interval)
    {
      if interval.Num? {
        this.interval := interval.n;
      }
    }

    /**
     * Lines 249-266 of start: pick the range and slice the buffer for the
     * next run, storing it where the source's slice callback does.
     */
    method SliceNextRun(now: int, begin: Option<int>, end: Option<int>)
      returns (threw: bool, buffer: Option<WebAudio.AudioBuffer>, sliceError: Option<SliceError>)
      requires Valid()
      modifies this`slicedAudioBufferForPlay, this`temporarySlicedAudio
      ensures Valid()
      ensures threw ==> State() == old(State()) && PlayerSpec.Start(old(State()), now, begin, end) == (State(), StartThrew)
      ensures !threw ==> PlayerSpec.Start(old(State()), now, begin, end) == Launch(State(), now, buffer, sliceError)
    {
      var a := begin.GetOr(0);
      var b := end.GetOr(slicedAudioBuffer.length);
      if timeSpan > 0 {
        if temporarySlicedAudio.None? {
          return true, None, None;
        }
        var t := temporarySlicedAudio.value;
        var result := AudioBufferSlice(t, timeSpan, EndAt(t.length), true);
        temporarySlicedAudio := result.buffer;
        threw, buffer, sliceError := false, result.buffer, result.error;
      } else {
        if slicedAudioBufferForPlay.None? {
          return true, None, None;
        }
        var result := AudioBufferSlice(slicedAudioBufferForPlay.value, a, EndAt(b), true);
        slicedAudioBufferForPlay := result.buffer;
        temporarySlicedAudio := result.buffer;
        threw, buffer, sliceError := false, result.buffer, result.error;
      }
    }

    /**
     * Lines 268-288 of start: bind a new node to the sliced buffer, start it
     * at `now`, and start a timer when a 'playing' listener is registered.
     */
    method LaunchRun(now: int, buffer: Option<WebAudio.AudioBuffer>, sliceError: Option<SliceError>)
      returns (outcome: StartOutcome)
      modifies this`unendedNodes, this`playingSource, this`isPause, this`startTime,
               this`orphanedTimers, this`timeInterval
      ensures (State(), outcome) == Launch(old(State()), now, buffer, sliceError)
    {
      var playingListener := ListenerOf(events, "playing");
      unendedNodes := unendedNodes + 1;
      playingSource := Some(Node(buffer));
      isPause := false;
      startTime := now;
      if playingListener.Some? {
        if timeInterval.Some? {
          orphanedTimers := orphanedTimers + 1;
        }
        timeInterval := Some(Timer(playingListener.value, interval));
      }
      outcome := Started(sliceError);
    }

    /** Lines 244-290. */
    method Start(now: int, begin: Option<int>, end: Option<int>) returns (outcome: StartOutcome)
      requires Valid()
      modifies this
      ensures Valid() && (State(), outcome) == PlayerSpec.Start(old(State()), now, begin, end)
    {
      var threw, buffer, sliceError := SliceNextRun(now, begin, end);
      if threw {
        return StartThrew;
      }
      outcome := LaunchRun(now, buffer, sliceError);
    }

    /** Lines 292-306. */
    method Pause(now: int)
      requires Valid()
      modifies this
      ensures Valid() && State() == PlayerSpec.Pause(old(State()), now)
    {
      isPause := true;
      timeInterval := None;
      if playingSource.Some? {
        endTime := now;
        timeSpan := now - startTime;
        playingSource := None;
      }
    }

    /** Lines 308-321. */
    method Stop()
      requires Valid()
      modifies this
      ensures Valid() && State() == PlayerSpec.Stop(old(State()))
    {
      isPause := false;
      timeInterval := None;
      if playingSource.Some? {
        playingSource := None;
      }
      Initialize();
    }

    /** Lines 323-325. */
    method On(eventName: string, listener: JsValue)
      requires Valid()
      modifies this
      ensures Valid() && State() == PlayerSpec.On(old(State()), eventName, listener)
    {
      events := events[eventName := listener];
    }

    /** Lines 168-185: the host delivers 'ended' for one of the nodes started so far. */
    method EndedEventListener() returns (fired: Option<Fired>)
      requires Valid() && unendedNodes > 0
      modifies this
      ensures Valid() && (State(), fired) == PlayerSpec.Ended(old(State()))
    {
      accumulateTimeSpan := accumulateTimeSpan + timeSpan;
      timeInterval := None;
      unendedNodes := unendedNodes - 1;
      var pauseEventListener := Fire(events, "pause");
      var endEventListener := Fire(events, "end");
      fired := None;
      if isPause {
        fired := pauseEventListener;
      }
      if !isPause {
        fired := endEventListener;
        Initialize();
      }
    }

    /** Lines 282-287: one tick of the running timer. */
    method PlayingTick(now: int) returns (progress: Progress)
      requires Valid() && timeInterval.Some?
      ensures progress == Tick(State(), now)
    {
      progress := Progress(timeInterval.value.listener, now, accumulateTimeSpan + now - startTime);
    }
  }
}
