/**
 * The diagram viewer: its zoom buttons, clamped between 50% and 200%, the
 * fullscreen switch, and the name a downloaded diagram is saved under. Zoom
 * is counted in tenths, so 10 is 100%.
 */
module DiagramDisplay {
  import opened Wrappers
  import opened Text

  const MinZoom: nat := 5
  const MaxZoom: nat := 20
  const InitialZoom: nat := 10

  /** `Math.min(prev + 0.1, 2)`. */
  function ZoomInStep(z: nat): (r: nat)
    ensures r <= MaxZoom
    ensures z <= MaxZoom ==> r >= z
    ensures z < MaxZoom ==> r == z + 1
    ensures z >= MaxZoom ==> r == MaxZoom
  {
    if z + 1 < MaxZoom then z + 1 else MaxZoom
  }

  /** `Math.max(prev - 0.1, 0.5)`. */
  function ZoomOutStep(z: nat): (r: nat)
    ensures r >= MinZoom
    ensures z >= MinZoom ==> r <= z
    ensures z > MinZoom ==> r == z - 1
    ensures z <= MinZoom ==> r == MinZoom
  {
    if z > MinZoom + 1 then z - 1 else MinZoom
  }

  datatype ZoomButton = ZoomInButton | ZoomOutButton

  /** The zoom after pressing `presses` in order, starting from `z`. */
  function ZoomAfter(z: nat, presses: seq<ZoomButton>): nat
    decreases |presses|
  {
    if presses == [] then z
    else
      var next := if presses[0] == ZoomInButton then ZoomInStep(z) else ZoomOutStep(z);
      ZoomAfter(next, presses[1..])
  }

  /** No sequence of presses takes the zoom out of [50%, 200%]. */
  lemma {:induction false} ZoomStaysInRange(z: nat, presses: seq<ZoomButton>)
    requires MinZoom <= z <= MaxZoom
    ensures MinZoom <= ZoomAfter(z, presses) <= MaxZoom
    decreases |presses|
  {
    if presses != [] {
      var next := if presses[0] == ZoomInButton then ZoomInStep(z) else ZoomOutStep(z);
      ZoomStaysInRange(next, presses[1..]);
    }
  }

  /** `n` presses of the zoom-in button climb one tenth each and stop at 200%. */
  lemma {:induction false} ZoomInRepeated(z: nat, presses: seq<ZoomButton>)
    requires z <= MaxZoom
    requires forall i :: 0 <= i < |presses| ==> presses[i] == ZoomInButton
    ensures ZoomAfter(z, presses) == if z + |presses| < MaxZoom then z + |presses| else MaxZoom
    decreases |presses|
  {
    if presses != [] {
      ZoomInRepeated(ZoomInStep(z), presses[1..]);
    }
  }

  /** `n` presses of the zoom-out button descend one tenth each and stop at 50%. */
  lemma {:induction false} ZoomOutRepeated(z: nat, presses: seq<ZoomButton>)
    requires z >= MinZoom
    requires forall i :: 0 <= i < |presses| ==> presses[i] == ZoomOutButton
    ensures ZoomAfter(z, presses) == if z - |presses| > MinZoom then z - |presses| else MinZoom
    decreases |presses|
  {
    if presses != [] {
      ZoomOutRepeated(ZoomOutStep(z), presses[1..]);
    }
  }

  /** The percentage label, `Math.round(zoom * 100)`. */
  function ZoomPercent(z: nat): (p: nat)
    ensures MinZoom <= z <= MaxZoom ==> 50 <= p <= 200
  {
    10 * z
  }

  // ---------------------------------------------------------- download name

  /** `s` after its leading whitespace. */
  function SkipSpaces(s: string): (r: string)
    ensures |r| <= |s|
    ensures r == [] || !IsSpace(r[0])
  {
    s[LeadingSpaces(s)..]
  }

  /** `s.replace(/\s+/g, "-")`: each run of whitespace becomes one hyphen. */
  function Hyphenate(s: string): (r: string)
    ensures |r| <= |s|
    ensures forall i :: 0 <= i < |r| ==> !IsSpace(r[i])
    decreases |s|
  {
    if s == [] then []
    else if IsSpace(s[0]) then "-" + Hyphenate(SkipSpaces(s[1..]))
    else [s[0]] + Hyphenate(s[1..])
  }

  predicate NoSpace(s: string) {
    forall i :: 0 <= i < |s| ==> !IsSpace(s[i])
  }

  /** A word without whitespace passes through unchanged, ahead of whatever follows. */
  lemma {:induction false} HyphenateWord(w: string, rest: string)
    requires NoSpace(w)
    ensures Hyphenate(w + rest) == w + Hyphenate(rest)
    decreases |w|
  {
    if w != [] {
      assert (w + rest)[1..] == w[1..] + rest;
      HyphenateWord(w[1..], rest);
    } else {
      assert w + rest == rest;
    }
  }

  /** A whole run of whitespace becomes exactly one hyphen. */
  lemma HyphenateRun(run: string, rest: string)
    requires run != [] && AllSpace(run)
    requires rest == [] || !IsSpace(rest[0])
    ensures Hyphenate(run + rest) == "-" + Hyphenate(rest)
  {
    var s := run + rest;
    var tail := s[1..];
    assert tail == run[1..] + rest;
    var k := LeadingSpaces(tail);
    assert forall i :: 0 <= i < |run| - 1 ==> IsSpace(tail[i]) by {
      forall i | 0 <= i < |run| - 1 ensures IsSpace(tail[i]) { assert tail[i] == run[i + 1]; }
    }
    assert forall i :: 0 <= i < k ==> IsSpace(tail[i]) by {
      forall i | 0 <= i < k ensures IsSpace(tail[i]) { assert tail[..k][i] == tail[i]; }
    }
    assert rest != [] ==> tail[|run| - 1] == rest[0];
    assert k == |run| - 1;
    assert SkipSpaces(tail) == rest;
  }

  /** `a.download`: the title hyphenated, lower-cased, with ".svg"; "diagram.svg" without a title or with an empty one. */
  function DownloadName(title: Option<string>): (name: string)
    ensures (title.None? || title.value == []) ==> name == "diagram.svg"
    ensures title.Some? && title.value != [] ==> name == ToLower(Hyphenate(title.value)) + ".svg"
    ensures EndsWith(name, ".svg") && NoSpace(name)
  {
    if title.Some? && title.value != [] then
      var name := ToLower(Hyphenate(title.value)) + ".svg";
      assert name[|name| - 4..] == ".svg";
      name
    else "diagram.svg"
  }

  /** The viewer's own state. */
  class DiagramView {
    var zoom: nat
    var isFullscreen: bool

    /** The viewer opens at 100%, not fullscreen. */
    constructor ()
      ensures zoom == InitialZoom && !isFullscreen
    {
      zoom := InitialZoom;
      isFullscreen := false;
    }

    predicate Valid()
      reads this
    {
      MinZoom <= zoom <= MaxZoom
    }

    /** `handleZoomIn`: one tenth more, at most 200%. */
    method ZoomIn()
      modifies this
      ensures zoom == ZoomInStep(old(zoom)) && isFullscreen == old(isFullscreen)
      ensures old(Valid()) ==> Valid()
    {
      zoom := if zoom + 1 < MaxZoom then zoom + 1 else MaxZoom;
    }

    /** `handleZoomOut`: one tenth less, at least 50%. */
    method ZoomOut()
      modifies this
      ensures zoom == ZoomOutStep(old(zoom)) && isFullscreen == old(isFullscreen)
      ensures old(Valid()) ==> Valid()
    {
      zoom := if zoom > MinZoom + 1 then zoom - 1 else MinZoom;
    }

    /** `toggleFullscreen`. */
    method ToggleFullscreen()
      modifies this
      ensures isFullscreen == !old(isFullscreen) && zoom == old(zoom)
    {
      isFullscreen := !isFullscreen;
    }

    /** Toggling twice restores the state. */
    method ToggleFullscreenTwice()
      modifies this
      ensures isFullscreen == old(isFullscreen) && zoom == old(zoom)
    {
      ToggleFullscreen();
      ToggleFullscreen();
    }

    /** Pressing the zoom buttons in order lands on `ZoomAfter`, inside the range. */
    method Press(presses: seq<ZoomButton>)
      requires Valid()
      modifies this
      ensures zoom == ZoomAfter(old(zoom), presses) && Valid()
      ensures isFullscreen == old(isFullscreen)
    {
      ghost var start := zoom;
      var k := 0;
      while k < |presses|
        invariant 0 <= k <= |presses|
        invariant Valid() && isFullscreen == old(isFullscreen)
        invariant ZoomAfter(zoom, presses[k..]) == ZoomAfter(start, presses)
      {
        assert presses[k..][1..] == presses[k + 1..];
        if presses[k] == ZoomInButton {
          ZoomIn();
        } else {
          ZoomOut();
        }
        k := k + 1;
      }
      assert presses[k..] == [];
    }
  }
}
