/**
 * Front/back classification of a camera from its label, and the `invertImg`
 * flag that `invert(deviceId)` maintains (script.js, lines 49-63).
 *
 * The source tests the label with the regular expressions /front|user/i and
 * /back|rear|environment/i.  Without the `u` flag, case-insensitive matching
 * canonicalises both sides with toUpperCase and never lets a non-ASCII
 * character stand for an ASCII one, so a character matches a lower-case ASCII
 * letter of the pattern exactly when it is that letter or its ASCII capital.
 */
module Facing {
  import opened Wrappers

  /** A video input as enumerated at startup; only the id and label are used. */
  datatype Camera = Camera(deviceId: string, labelText: string)

  /** A pattern word: lower-case ASCII letters only. */
  predicate LowerWord(w: string) {
    forall k :: 0 <= k < |w| ==> 'a' <= w[k] <= 'z'
  }

  /** `c` matches the pattern letter `x` under the `i` flag. */
  predicate FoldsTo(c: char, x: char)
    requires 'a' <= x <= 'z'
  {
    c == x || c as int == x as int - 32
  }

  /** The word `w` matches `s` starting at index `i`, ignoring case. */
  predicate MatchesAt(s: string, w: string, i: int)
    requires LowerWord(w)
  {
    0 <= i && i + |w| <= |s| && forall k :: 0 <= k < |w| ==> FoldsTo(s[i + k], w[k])
  }

  /** The regular-expression test for one alternative: some position matches. */
  function ContainsIgnoringCase(s: string, w: string): (r: bool)
    requires LowerWord(w)
    ensures r <==> exists i :: MatchesAt(s, w, i)
    decreases |s|
  {
    if |s| < |w| then false
    else if MatchesAt(s, w, 0) then true
    else
      var r := ContainsIgnoringCase(s[1..], w);
      assert forall i :: MatchesAt(s[1..], w, i) <==> MatchesAt(s, w, i + 1);
      assert forall i :: MatchesAt(s, w, i) ==> MatchesAt(s[1..], w, i - 1);
      r
  }

  /** /front|user/i.test(name) */
  predicate LooksFront(name: string)
    ensures LooksFront(name) <==> exists i :: MatchesAt(name, "front", i) || MatchesAt(name, "user", i)
  {
    ContainsIgnoringCase(name, "front") || ContainsIgnoringCase(name, "user")
  }

  /** /back|rear|environment/i.test(name) */
  predicate LooksBack(name: string)
    ensures LooksBack(name) <==>
              exists i :: MatchesAt(name, "back", i) || MatchesAt(name, "rear", i)
                          || MatchesAt(name, "environment", i)
  {
    ContainsIgnoringCase(name, "back") || ContainsIgnoringCase(name, "rear")
      || ContainsIgnoringCase(name, "environment")
  }

  /** `cameras.find(c => c.deviceId === id)`: the first camera with that id. */
  function FindCamera(cameras: seq<Camera>, id: string): (r: Option<Camera>)
    ensures r.None? <==> forall i :: 0 <= i < |cameras| ==> cameras[i].deviceId != id
    ensures r.Some? ==> exists i :: 0 <= i < |cameras| && cameras[i] == r.value
                          && r.value.deviceId == id
                          && forall j :: 0 <= j < i ==> cameras[j].deviceId != id
  {
    if cameras == [] then None
    else if cameras[0].deviceId == id then Some(cameras[0])
    else
      var r := FindCamera(cameras[1..], id);
      assert r.Some? ==> exists i :: 0 <= i < |cameras[1..]| && cameras[1..][i] == r.value
                          && forall j :: 0 <= j < i ==> cameras[1..][j].deviceId != id;
      assert r.Some? ==> exists i :: 1 <= i < |cameras| && cameras[i] == r.value
                          && forall j :: 0 <= j < i ==> cameras[j].deviceId != id;
      r
  }

  /**
   * The value of `invertImg` after `invert(id)` ran with `invertImg == current`:
   * an unknown id leaves it; otherwise the front test may set it to 1, and
   * the back test, which runs second, may then set it to 0.
   */
  function FacingAfter(cameras: seq<Camera>, id: string, current: int): (r: int)
    ensures FindCamera(cameras, id).None? ==> r == current
    ensures FindCamera(cameras, id).Some? ==>
              var name := FindCamera(cameras, id).value.labelText;
              && (LooksBack(name) ==> r == 0)
              && (LooksFront(name) && !LooksBack(name) ==> r == 1)
              && (!LooksFront(name) && !LooksBack(name) ==> r == current)
  {
    match FindCamera(cameras, id)
    case None => current
    case Some(camera) =>
      var afterFront := if LooksFront(camera.labelText) then 1 else current;
      if LooksBack(camera.labelText) then 0 else afterFront
  }

  /** The flag only ever holds 0 or 1, since it starts at 0. */
  lemma FacingStaysBinary(cameras: seq<Camera>, id: string, current: int)
    requires current == 0 || current == 1
    ensures FacingAfter(cameras, id, current) == 0 || FacingAfter(cameras, id, current) == 1
  {
  }

  /** Selecting the same camera twice leaves the flag as selecting it once. */
  lemma FacingIdempotent(cameras: seq<Camera>, id: string, current: int)
    ensures FacingAfter(cameras, id, FacingAfter(cameras, id, current))
         == FacingAfter(cameras, id, current)
  {
  }

  /** A camera whose label matches either test decides the flag on its own. */
  lemma ClassifiedLabelForgetsPrevious(cameras: seq<Camera>, id: string, a: int, b: int)
    requires FindCamera(cameras, id).Some?
    requires LooksFront(FindCamera(cameras, id).value.labelText) || LooksBack(FindCamera(cameras, id).value.labelText)
    ensures FacingAfter(cameras, id, a) == FacingAfter(cameras, id, b)
  {
  }

  /** A front camera. */
  lemma {:induction false} FrontLabel(current: int)
    ensures FacingAfter([Camera("f", "Front")], "f", current) == 1
  {
    assert MatchesAt("Front", "front", 0);
    forall i | 0 <= i <= 1 ensures !MatchesAt("Front", "back", i) && !MatchesAt("Front", "rear", i) {
      assert !FoldsTo("Front"[i + 1], "back"[1]);
      assert !FoldsTo("Front"[i + 1], "rear"[1]);
    }
  }

  /** A rear camera as Android browsers label it. */
  lemma {:induction false} BackLabel(current: int)
    ensures FacingAfter([Camera("b", "camera2 0, facing back")], "b", current) == 0
  {
    assert MatchesAt("camera2 0, facing back", "back", 18);
  }

  /** A label naming both directions ends at 0: the back test runs second. */
  lemma BothLabel(current: int)
    ensures FacingAfter([Camera("u", "USER rear")], "u", current) == 0
  {
  }

  /** An unclassified label, and an id no camera has, leave the flag alone. */
  lemma NeutralLabel(current: int)
    ensures FacingAfter([Camera("w", "Cam")], "w", current) == current
    ensures FacingAfter([Camera("w", "Cam")], "x", current) == current
  {
  }
}
