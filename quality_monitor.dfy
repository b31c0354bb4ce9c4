/** The frame-rate watchdog in the `animate` loops of the Newick tree and the
    dragon-curve backgrounds: once a second the frame count becomes an fps
    sample, the last ten samples are kept, and once the window is full a mean
    below 30 switches the render quality from high to low for good. */
module QualityMonitor {
  import opened Numeric

  datatype Quality = High | Low

  const WINDOW: nat := 10
  const MIN_FPS: real := 30.0
  /** Milliseconds between samples. */
  const SAMPLE_PERIOD: real := 1000.0

  /** The window the source keeps: the last ten samples pushed. */
  function Window(samples: seq<int>): (w: seq<int>)
    ensures |w| == if |samples| < WINDOW then |samples| else WINDOW
    ensures w == samples[|samples| - |w|..]
  {
    if |samples| <= WINDOW then samples else samples[|samples| - WINDOW..]
  }

  /** The mean of a window, as `reduce(+) / length` computes it. */
  function Mean(w: seq<int>): real
    requires w != []
  {
    (SumInts(w) as real) / (|w| as real)
  }

  /** A sample triggers the switch when, after it, more than ten samples have
      been pushed and the last ten average below 30. */
  predicate TriggersLow(samples: seq<int>) {
    |samples| > WINDOW && Mean(Window(samples)) < MIN_FPS
  }

  /** Pushing a sample and, past ten, dropping the oldest keeps the window. */
  lemma WindowPush(samples: seq<int>, x: int)
    ensures |Window(samples) + [x]| > WINDOW <==> |samples + [x]| > WINDOW
    ensures Window(samples + [x])
         == if |Window(samples) + [x]| > WINDOW then (Window(samples) + [x])[1..] else Window(samples) + [x]
  {
    var s := samples + [x];
    if |samples| >= WINDOW {
      assert s[|s| - WINDOW..] == samples[|samples| - WINDOW..][1..] + [x];
    } else {
      assert s == samples + [x];
    }
  }

  /** One more sample: the window drops its oldest entry past ten, and the
      quality turns low when it was high and the new window's mean is below
      30. */
  lemma PushStep(initial: Quality, samples: seq<int>, x: int)
    ensures var w := Window(samples) + [x];
      && Window(samples + [x]) == (if |w| > WINDOW then w[1..] else w)
      && QualityAfter(initial, samples + [x])
         == if QualityAfter(initial, samples) == High && |w| > WINDOW && Mean(w[1..]) < MIN_FPS
            then Low else QualityAfter(initial, samples)
  {
    WindowPush(samples, x);
    assert (samples + [x])[..|samples|] == samples;
  }

  /** The quality after a series of samples, starting from `initial` (which
      the device probe sets before the loop starts). */
  function QualityAfter(initial: Quality, samples: seq<int>): Quality {
    if samples == [] then initial
    else
      var q := QualityAfter(initial, samples[..|samples| - 1]);
      if q == High && TriggersLow(samples) then Low else q
  }

  /** Some prefix of the samples brought a full window's mean below 30. */
  predicate EverTriggered(samples: seq<int>) {
    exists k :: 0 < k <= |samples| && TriggersLow(samples[..k])
  }

  /** A prefix triggered exactly when a shorter one did or the whole does. */
  lemma EverTriggeredStep(samples: seq<int>)
    requires samples != []
    ensures EverTriggered(samples)
        <==> EverTriggered(samples[..|samples| - 1]) || TriggersLow(samples)
  {
    assert samples[..|samples|] == samples;
    if EverTriggered(samples[..|samples| - 1]) {
      TriggeredBefore(samples);
    }
    if EverTriggered(samples) && !TriggersLow(samples) {
      TriggeredEarlier(samples);
    }
  }

  lemma TriggeredBefore(samples: seq<int>)
    requires samples != [] && EverTriggered(samples[..|samples| - 1])
    ensures EverTriggered(samples)
  {
    var before := samples[..|samples| - 1];
    var k :| 0 < k <= |before| && TriggersLow(before[..k]);
    assert before[..k] == samples[..k];
  }

  lemma TriggeredEarlier(samples: seq<int>)
    requires samples != [] && EverTriggered(samples) && !TriggersLow(samples)
    ensures EverTriggered(samples[..|samples| - 1])
  {
    var before := samples[..|samples| - 1];
    var k :| 0 < k <= |samples| && TriggersLow(samples[..k]);
    assert samples[..|samples|] == samples;
    assert k < |samples|;
    assert before[..k] == samples[..k];
  }

  /** Quality is low exactly when it started low or some sample so far
      brought a full window's mean below 30. */
  lemma {:induction false} QualityAfterLow(initial: Quality, samples: seq<int>)
    ensures QualityAfter(initial, samples) == Low <==> initial == Low || EverTriggered(samples)
  {
    if samples != [] {
      QualityAfterLow(initial, samples[..|samples| - 1]);
      EverTriggeredStep(samples);
    }
  }

  /** The switch is one-way: more samples never bring quality back. */
  lemma {:induction false} QualityStaysLow(initial: Quality, samples: seq<int>, more: seq<int>)
    requires QualityAfter(initial, samples) == Low
    ensures QualityAfter(initial, samples + more) == Low
    decreases |more|
  {
    if more == [] {
      assert samples + more == samples;
    } else {
      var m := more[..|more| - 1];
      QualityStaysLow(initial, samples, m);
      assert (samples + more)[..|samples + more| - 1] == samples + m;
    }
  }

  /** With fewer than eleven samples the quality cannot change. */
  lemma {:induction false} NoSwitchBeforeFullWindow(initial: Quality, samples: seq<int>)
    requires |samples| <= WINDOW
    ensures QualityAfter(initial, samples) == initial
  {
    if samples != [] {
      NoSwitchBeforeFullWindow(initial, samples[..|samples| - 1]);
    }
  }

  /** JavaScript's `Math.round`: halves go up. */
  function Round(x: real): (r: int)
    ensures x - 0.5 < r as real <= x + 0.5
  {
    (x + 0.5).Floor
  }

  /** The state `animate` closes over: the frame counter, the time of the
      last sample, the fps window and the quality setting. */
  class Monitor {
    var frameCounter: nat
    var lastTime: real
    var fpsHistory: seq<int>
    var quality: Quality
    ghost const initial: Quality
    /** Every fps sample pushed so far. */
    ghost var samples: seq<int>

    ghost predicate Valid()
      reads this
    {
      fpsHistory == Window(samples) && quality == QualityAfter(initial, samples)
    }

    constructor (probed: Quality, now: real)
      ensures Valid() && initial == probed && samples == []
      ensures frameCounter == 0 && lastTime == now && fpsHistory == [] && quality == probed
    {
      frameCounter := 0;
      lastTime := now;
      fpsHistory := [];
      quality := probed;
      initial := probed;
      samples := [];
    }

    /** Push one sample; past ten, drop the oldest and check the mean. */
    method PushSample(fps: int)
      requires Valid()
      modifies this
      ensures Valid() && samples == old(samples) + [fps]
      ensures |fpsHistory| <= WINDOW
      ensures old(quality) == Low ==> quality == Low
      ensures frameCounter == old(frameCounter) && lastTime == old(lastTime)
    {
      var history := fpsHistory + [fps];
      var q := quality;
      if |history| > WINDOW {
        history := history[1..];
        var avgFps := (SumInts(history) as real) / (|history| as real);
        if avgFps < MIN_FPS && q == High {
          q := Low;
        }
      }
      PushStep(initial, samples, fps);
      fpsHistory, quality := history, q;
      samples := samples + [fps];
    }

    /** One animation frame at time `now` (milliseconds). */
    method Frame(now: real)
      requires Valid()
      modifies this
      ensures Valid()
      ensures now - old(lastTime) >= SAMPLE_PERIOD ==>
        samples == old(samples) + [Round((old(frameCounter) + 1) as real * SAMPLE_PERIOD / (now - old(lastTime)))]
        && frameCounter == 0 && lastTime == now
      ensures now - old(lastTime) < SAMPLE_PERIOD ==>
        samples == old(samples) && frameCounter == old(frameCounter) + 1 && lastTime == old(lastTime)
        && fpsHistory == old(fpsHistory) && quality == old(quality)
    {
      frameCounter := frameCounter + 1;
      if now - lastTime >= SAMPLE_PERIOD {
        var fps := Round(frameCounter as real * SAMPLE_PERIOD / (now - lastTime));
        PushSample(fps);
        frameCounter := 0;
        lastTime := now;
      }
    }
  }
}
