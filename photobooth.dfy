/**
 * The page's mutable state and the handlers that change it (script.js):
 * the `captures` array of data URLs, the thumbnail gallery, the display of
 * the strip and clear buttons, the countdown intervals still running, and
 * the `invertImg` facing flag.
 *
 * Device access, the video element and all drawing are outside the model:
 * a capture's data URL, a tick's remaining time and a device id arrive as
 * parameters.
 */
module Photobooth {
  import Facing

  /** The most captures held at once, and the number a strip needs. */
  const MaxCaptures := 3

  /** A tick captures once at most this many milliseconds remain. */
  const FireThreshold := 2

  /** `s` in the opposite order. */
  function Reversed<T>(s: seq<T>): (r: seq<T>)
    ensures |r| == |s|
    ensures forall i :: 0 <= i < |s| ==> r[i] == s[|s| - 1 - i]
  {
    if s == [] then [] else Reversed(s[1..]) + [s[0]]
  }

  /** Reversing twice gives back the original order. */
  lemma ReversedTwice<T>(s: seq<T>)
    ensures Reversed(Reversed(s)) == s
  {
  }

  /** Appending at the end of a list prepends to its reversal. */
  lemma ReversedSnoc<T>(s: seq<T>, x: T)
    ensures Reversed(s + [x]) == [x] + Reversed(s)
  {
  }

  /** The reversal of a three-element list. */
  lemma ReversedThree<T>(a: T, b: T, c: T)
    ensures Reversed([a, b, c]) == [c, b, a]
  {
  }

  /** What the strip button does: refuse with an alert, or compose these
      data URLs top to bottom. */
  datatype StripRequest = NoCapturesYet | Compose(sources: seq<string>)

  class Booth {
    /** `captures`: data URLs in the order they were taken (until a strip
        reverses them). */
    var captures: seq<string>
    /** The thumbnails in `thumbs`, first on the page first. */
    var gallery: seq<string>
    /** Whether `stripBtn` and `clearBtn` are displayed. */
    var stripShown: bool
    var clearShown: bool
    /** Countdown intervals started and not yet cleared. */
    var timers: nat
    /** `invertImg`: 1 for a front-facing camera, 0 otherwise. */
    var invertImg: int
    /** The video inputs found at startup. */
    const cameras: seq<Facing.Camera>

    /**
     * The session invariant: never more than three captures; the two
     * buttons are shown together, exactly when three captures are held; the
     * gallery shows the captures newest first, or, once a strip has reversed
     * the array, in array order; the facing flag is 0 or 1.
     */
    ghost predicate Valid()
      reads this
    {
      && |captures| <= MaxCaptures
      && stripShown == clearShown
      && (stripShown <==> |captures| == MaxCaptures)
      && (gallery == Reversed(captures) || (|captures| == MaxCaptures && gallery == captures))
      && (invertImg == 0 || invertImg == 1)
    }

    /** The page after startup: nothing captured, both buttons hidden. */
    constructor (cameras: seq<Facing.Camera>)
      ensures Valid()
      ensures this.cameras == cameras
      ensures captures == [] && gallery == [] && !stripShown && !clearShown
      ensures timers == 0 && invertImg == 0
    {
      this.cameras := cameras;
      captures, gallery := [], [];
      stripShown, clearShown := false, false;
      timers, invertImg := 0, 0;
    }

    /** `invert(deviceId)`, run once a stream for that device is bound. */
    method SelectCamera(deviceId: string)
      requires Valid()
      modifies this`invertImg
      ensures Valid()
      ensures invertImg == Facing.FacingAfter(cameras, deviceId, old(invertImg))
    {
      match Facing.FindCamera(cameras, deviceId)
      case None =>
      case Some(camera) =>
        if Facing.LooksFront(camera.labelText) {
          invertImg := 1;
        }
        if Facing.LooksBack(camera.labelText) {
          invertImg := 0;
        }
    }

    /** A click on the capture button starts one more countdown interval. */
    method StartCountdown()
      requires Valid()
      modifies this`timers
      ensures Valid()
      ensures timers == old(timers) + 1
    {
      timers := timers + 1;
    }

    /**
     * One tick of a running countdown, with `distance` milliseconds left and
     * `frame` the data URL the capture canvas would yield.  Before the
     * deadline only the on-screen count changes.  At the deadline the
     * buttons appear if two or more captures are held; with three held the
     * handler returns before clearing its interval, which keeps running;
     * otherwise the frame is appended, its thumbnail put first, and the
     * interval cleared.
     */
    method Tick(distance: int, frame: string)
      requires Valid() && timers > 0
      modifies this
      ensures Valid()
      ensures distance > FireThreshold ==> unchanged(this)
      ensures distance <= FireThreshold ==>
                && stripShown == clearShown == (old(stripShown) || |old(captures)| >= 2)
                && invertImg == old(invertImg)
      ensures distance <= FireThreshold && |old(captures)| >= MaxCaptures ==>
                captures == old(captures) && gallery == old(gallery) && timers == old(timers)
      ensures distance <= FireThreshold && |old(captures)| < MaxCaptures ==>
                && captures == old(captures) + [frame]
                && gallery == [frame] + old(gallery)
                && timers == old(timers) - 1
    {
      if distance <= FireThreshold {
        if |captures| >= 2 {
          stripShown := true;
          clearShown := true;
        }
        if |captures| >= MaxCaptures {
          return;
        }
        ReversedSnoc(captures, frame);
        captures := captures + [frame];
        gallery := [frame] + gallery;
        timers := timers - 1;
      }
    }

    /** The clear button: empty the captures and the gallery, hide both
        buttons.  Running intervals are left alone. */
    method Clear()
      requires Valid()
      modifies this
      ensures Valid()
      ensures captures == [] && gallery == [] && !stripShown && !clearShown
      ensures timers == old(timers) && invertImg == old(invertImg)
    {
      captures := [];
      gallery := [];
      clearShown := false;
      stripShown := false;
    }

    /** The strip button: with exactly three captures, reverse the array in
        place and compose it in that order; otherwise refuse and change
        nothing. */
    method RequestStrip() returns (r: StripRequest)
      requires Valid()
      modifies this`captures
      ensures Valid()
      ensures |old(captures)| != MaxCaptures ==> r == NoCapturesYet && captures == old(captures)
      ensures |old(captures)| == MaxCaptures ==>
                captures == Reversed(old(captures)) && r == Compose(captures)
    {
      if |captures| != MaxCaptures {
        return NoCapturesYet;
      }
      ReversedTwice(captures);
      captures := Reversed(captures);
      r := Compose(captures);
    }
  }

  /** Three captures on a fresh page, each from its own countdown. */
  method CaptureThree(a: string, b: string, c: string) returns (booth: Booth)
    ensures fresh(booth) && booth.Valid()
    ensures booth.captures == [a, b, c] && booth.gallery == [c, b, a]
    ensures booth.timers == 0 && booth.stripShown
  {
    booth := new Booth([]);
    booth.StartCountdown();
    booth.Tick(0, a);
    booth.StartCountdown();
    booth.Tick(0, b);
    booth.StartCountdown();
    booth.Tick(0, c);
  }

  /** A strip asked for before three captures exist is refused. */
  method EarlyStripRefused(a: string, b: string) returns (r: StripRequest, held: seq<string>)
    ensures r == NoCapturesYet && held == [a, b]
  {
    var booth := new Booth([]);
    booth.StartCountdown();
    booth.Tick(0, a);
    booth.StartCountdown();
    booth.Tick(0, b);
    r := booth.RequestStrip();
    held := booth.captures;
  }

  /**
   * The first strip stacks the captures newest first, as the gallery shows
   * them; because the array is reversed in place, the second strip stacks
   * them oldest first, and a third would be newest first again.
   */
  method StripOrderAlternates(a: string, b: string, c: string)
    returns (first: StripRequest, second: StripRequest, shown: seq<string>)
    ensures first == Compose([c, b, a]) && shown == [c, b, a]
    ensures second == Compose([a, b, c])
  {
    var booth := CaptureThree(a, b, c);
    ReversedThree(a, b, c);
    first := booth.RequestStrip();
    assert booth.captures == [c, b, a];
    ReversedThree(c, b, a);
    second := booth.RequestStrip();
    shown := booth.gallery;
  }

  /**
   * A capture asked for while three are held never clears its interval.
   * After Clear, that interval's next tick captures a frame although no
   * capture was requested since.
   */
  method LeftoverTimerCapturesAfterClear(a: string, b: string, c: string, d: string, e: string)
    returns (held: seq<string>, running: nat, shown: bool)
    ensures held == [e] && running == 0 && !shown
  {
    var booth := CaptureThree(a, b, c);
    booth.StartCountdown();
    booth.Tick(0, d);
    booth.Clear();
    booth.Tick(0, e);
    held, running, shown := booth.captures, booth.timers, booth.stripShown;
  }
}
