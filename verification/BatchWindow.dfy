/** The fixed-length window of frames a model is fed. */
module BatchWindow {
  import opened Collections

  /** `_prepare_temporal_window`: the frames and how many of them are padding; no frames are an
      error. With `required == 0` the slice from the end takes every frame. */
  function PrepareTemporalWindow<T>(frames: seq<T>, required: nat): Option<(seq<T>, nat)> {
    if frames == [] then None
    else if |frames| >= required then
      Some((if required == 0 then frames else frames[|frames| - required..], 0))
    else
      var padCount := required - |frames|;
      Some((frames + seq(padCount, _ => frames[|frames| - 1]), padCount))
  }

  /** The window is the last frames given, followed by repetitions of the newest one; it ends with
      the newest, and it is exactly as long as asked for unless none were asked for. */
  lemma WindowIsTheNewestFrames<T>(frames: seq<T>, required: nat)
    ensures PrepareTemporalWindow(frames, required).None? <==> frames == []
    ensures frames != [] ==>
      var (window, padCount) := PrepareTemporalWindow(frames, required).value;
      var kept := |window| - padCount;
      && (|window| == required <==> required > 0)
      && 0 < kept <= |frames|
      && window[..kept] == frames[|frames| - kept..]
      && (padCount > 0 ==> kept == |frames|)
      && (forall i :: kept - 1 <= i < |window| ==> window[i] == frames[|frames| - 1])
  {
    hide PrepareTemporalWindow;
    if frames == [] {
      NoFrames<T>(required);
    } else if |frames| >= required {
      NothingPadded(frames, required);
    } else {
      Padded(frames, required);
    }
  }

  lemma NoFrames<T>(required: nat)
    ensures PrepareTemporalWindow<T>([], required).None?
  {
  }

  lemma NothingPadded<T>(frames: seq<T>, required: nat)
    requires frames != [] && required <= |frames|
    ensures PrepareTemporalWindow(frames, required).Some?
    ensures var (window, padCount) := PrepareTemporalWindow(frames, required).value;
            && padCount == 0 && 0 < |window| <= |frames| && (|window| == required <==> required > 0)
            && window == frames[|frames| - |window|..] && window[|window| - 1] == frames[|frames| - 1]
  {
  }

  lemma Padded<T>(frames: seq<T>, required: nat)
    requires frames != [] && |frames| < required
    ensures PrepareTemporalWindow(frames, required).Some?
    ensures var (window, padCount) := PrepareTemporalWindow(frames, required).value;
            && |window| == required && padCount == required - |frames| && window[..|frames|] == frames
            && (forall i :: |frames| - 1 <= i < required ==> window[i] == frames[|frames| - 1])
  {
    var pad := seq(required - |frames|, _ => frames[|frames| - 1]);
    assert (frames + pad)[..|frames|] == frames;
  }
}
