/**
 * helpers.js: the footprint transposition, the `-`-separated identifier
 * strings, and the pan bindings of the camera controls.
 */
module Helpers {
  import opened Wrappers
  import opened Geometry

  /** `transformSize`: the footprint of the alternate orientation. */
  function TransformSize(size: Size): (r: Size)
    ensures r.qLength == size.sLength && r.sLength == size.qLength
  {
    Size(size.sLength, size.qLength)
  }

  lemma TransformSizeInvolution(size: Size)
    ensures TransformSize(TransformSize(size)) == size
  {
  }

  /** The position of the first `c` in `s`. */
  function FirstIndex(s: string, c: char): (i: nat)
    requires c in s
    ensures i < |s| && s[i] == c && c !in s[..i]
  {
    if s[0] == c then 0
    else
      var i := FirstIndex(s[1..], c);
      assert s[..i + 1] == [s[0]] + s[1..][..i];
      i + 1
  }

  /** `s.split(sep)` for a one-character separator. */
  function Split(s: string, sep: char): (parts: seq<string>)
    ensures |parts| >= 1
    ensures forall i | 0 <= i < |parts| :: sep !in parts[i]
    decreases |s|
  {
    if sep !in s then [s]
    else
      var i := FirstIndex(s, sep);
      [s[..i]] + Split(s[i + 1..], sep)
  }

  /** `parts.join(sep)`. */
  function Join(parts: seq<string>, sep: char): string
    requires |parts| >= 1
  {
    if |parts| == 1 then parts[0] else parts[0] + [sep] + Join(parts[1..], sep)
  }

  /** Splitting loses nothing: joining the parts gives the string back. */
  lemma {:induction false} JoinSplit(s: string, sep: char)
    ensures Join(Split(s, sep), sep) == s
    decreases |s|
  {
    if sep in s {
      var i := FirstIndex(s, sep);
      var parts := Split(s, sep);
      assert parts[1..] == Split(s[i + 1..], sep);
      JoinSplit(s[i + 1..], sep);
      assert s == s[..i] + [sep] + s[i + 1..];
    }
  }

  /** Joining parts free of the separator and splitting again gives the parts back. */
  lemma {:induction false} SplitJoin(parts: seq<string>, sep: char)
    requires |parts| >= 1
    requires forall i | 0 <= i < |parts| :: sep !in parts[i]
    ensures Split(Join(parts, sep), sep) == parts
  {
    if |parts| > 1 {
      var rest := Join(parts[1..], sep);
      var s := parts[0] + [sep] + rest;
      SplitJoin(parts[1..], sep);
      assert s[|parts[0]|] == sep;
      assert s[..|parts[0]|] == parts[0];
      assert FirstIndex(s, sep) == |parts[0]|;
      assert s[|parts[0]| + 1..] == rest;
    }
  }

  /** The result of `deconstructTileStringId`: `instanceId` is undefined when there is no `-`. */
  datatype TileStringId = TileStringId(name: string, instanceId: Option<string>)

  /** The result of `deconstructModelStringId`. */
  datatype ModelStringId = ModelStringId(modelType: string, instanceNumber: Option<string>)

  /** The first part and, when there is one, the second part of a `-`-separated string. */
  function FirstTwoParts(id: string): (r: (string, Option<string>))
    ensures '-' !in r.0 && (r.1.Some? ==> '-' !in r.1.value)
    ensures r.1.Some? <==> '-' in id
  {
    var parts := Split(id, '-');
    (parts[0], if |parts| > 1 then Some(parts[1]) else None)
  }

  function DeconstructTileStringId(tileStringId: string): (r: TileStringId)
    ensures '-' !in r.name
    ensures r.instanceId.Some? <==> '-' in tileStringId
  {
    var (name, instanceId) := FirstTwoParts(tileStringId);
    TileStringId(name, instanceId)
  }

  function DeconstructModelStringId(modelStringId: string): (r: ModelStringId)
    ensures '-' !in r.modelType
    ensures r.instanceNumber.Some? <==> '-' in modelStringId
  {
    var (modelType, instanceNumber) := FirstTwoParts(modelStringId);
    ModelStringId(modelType, instanceNumber)
  }

  /** `${name}-${id}` splits back into name and id when neither holds a `-`. */
  lemma FirstTwoPartsOfPair(a: string, b: string)
    requires '-' !in a && '-' !in b
    ensures FirstTwoParts(a + "-" + b) == (a, Some(b))
  {
    SplitJoin([a, b], '-');
  }

  /** Any parts after the second are ignored. */
  lemma FirstTwoPartsIgnoresRest(a: string, b: string, rest: string)
    requires '-' !in a && '-' !in b
    ensures FirstTwoParts(a + "-" + b + "-" + rest) == (a, Some(b))
  {
    var s := a + "-" + b + "-" + rest;
    var tail := Split(rest, '-');
    JoinSplit(rest, '-');
    assert Join([a, b] + tail, '-') == s by {
      assert ([a, b] + tail)[1..] == [b] + tail;
      assert ([b] + tail)[1..] == tail;
    }
    SplitJoin([a, b] + tail, '-');
  }

  lemma DeconstructTileStringIdRoundTrip(name: string, instanceId: string)
    requires '-' !in name && '-' !in instanceId
    ensures DeconstructTileStringId(name + "-" + instanceId) == TileStringId(name, Some(instanceId))
  {
    FirstTwoPartsOfPair(name, instanceId);
  }

  lemma DeconstructModelStringIdIgnoresRest(modelType: string, instanceNumber: string, rest: string)
    requires '-' !in modelType && '-' !in instanceNumber
    ensures DeconstructModelStringId(modelType + "-" + instanceNumber)
            == ModelStringId(modelType, Some(instanceNumber))
    ensures DeconstructModelStringId(modelType + "-" + instanceNumber + "-" + rest)
            == ModelStringId(modelType, Some(instanceNumber))
  {
    FirstTwoPartsOfPair(modelType, instanceNumber);
    FirstTwoPartsIgnoresRest(modelType, instanceNumber, rest);
  }

  /** THREE.MOUSE.PAN and THREE.TOUCH.PAN. */
  datatype MouseAction = MousePan
  datatype TouchAction = TouchPan

  /** The two bindings of the orbit controls that `setPan` writes. */
  class Controls {
    var mouseLeft: Option<MouseAction>   // controls.mouseButtons.LEFT
    var touchOne: Option<TouchAction>    // controls.touches.ONE

    constructor (mouseLeft: Option<MouseAction>, touchOne: Option<TouchAction>)
      ensures this.mouseLeft == mouseLeft && this.touchOne == touchOne
    {
      this.mouseLeft := mouseLeft;
      this.touchOne := touchOne;
    }
  }

  /** `setPan`: both bindings pan when enabled and are cleared otherwise. */
  method SetPan(controls: Controls, enable: bool)
    modifies controls
    ensures enable ==> controls.mouseLeft == Some(MousePan) && controls.touchOne == Some(TouchPan)
    ensures !enable ==> controls.mouseLeft.None? && controls.touchOne.None?
  {
    var mouseValue := if enable then Some(MousePan) else None;
    var touchValue := if enable then Some(TouchPan) else None;
    controls.mouseLeft := mouseValue;
    controls.touchOne := touchValue;
  }
}
