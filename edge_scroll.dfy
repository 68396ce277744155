/** Edge scrolling while a pin is dragged: when the cursor comes within
    `threshold` pixels of a window edge, the map pans every animation frame,
    faster the closer the cursor is to the edge, up to `maxSpeed` pixels. */
module EdgeScroll {
  import opened Wrappers

  datatype Vec = Vec(x: real, y: real)

  /** One axis of `calculatePanVector`: negative near the low edge, positive
      near the high edge, zero in between; the low edge wins when the window
      is so small that the two bands overlap. */
  function PanComponent(p: real, extent: real, threshold: real, maxSpeed: real): real
    requires threshold > 0.0
  {
    if p < threshold then -((threshold - p) / threshold) * maxSpeed
    else if p > extent - threshold then ((p - (extent - threshold)) / threshold) * maxSpeed
    else 0.0
  }

  /** `calculatePanVector(x, y)` for a `width` by `height` window: null when
      neither axis pans. */
  function PanVector(x: real, y: real, width: real, height: real, threshold: real, maxSpeed: real): (r: Option<Vec>)
    requires threshold > 0.0
    ensures r.Some? ==> r.value.x != 0.0 || r.value.y != 0.0
  {
    var px := PanComponent(x, width, threshold, maxSpeed);
    var py := PanComponent(y, height, threshold, maxSpeed);
    if px == 0.0 && py == 0.0 then None else Some(Vec(px, py))
  }

  /** With a non-zero speed the map pans exactly when the cursor is in an
      edge band on either axis. */
  lemma {:induction false} NoPanIff(x: real, y: real, width: real, height: real, threshold: real, maxSpeed: real)
    requires threshold > 0.0 && maxSpeed != 0.0
    ensures PanVector(x, y, width, height, threshold, maxSpeed).None? <==>
            threshold <= x <= width - threshold && threshold <= y <= height - threshold
  {
    ComponentZeroIff(x, width, threshold, maxSpeed);
    ComponentZeroIff(y, height, threshold, maxSpeed);
  }

  lemma ComponentZeroIff(p: real, extent: real, threshold: real, maxSpeed: real)
    requires threshold > 0.0 && maxSpeed != 0.0
    ensures PanComponent(p, extent, threshold, maxSpeed) == 0.0 <==> threshold <= p <= extent - threshold
  {
    if p < threshold {
      assert (threshold - p) / threshold > 0.0;
    } else if p > extent - threshold {
      assert (p - (extent - threshold)) / threshold > 0.0;
    }
  }

  /** Direction: with a positive speed a pointer left of (above) the band
      pans negative, one right of (below) it and clear of the low edge pans
      positive. */
  lemma ComponentSign(p: real, extent: real, threshold: real, maxSpeed: real)
    requires threshold > 0.0 && maxSpeed > 0.0
    ensures p < threshold ==> PanComponent(p, extent, threshold, maxSpeed) < 0.0
    ensures threshold <= p && p > extent - threshold ==> PanComponent(p, extent, threshold, maxSpeed) > 0.0
  {
    if p < threshold {
      assert (threshold - p) / threshold > 0.0;
    } else if p > extent - threshold {
      assert (p - (extent - threshold)) / threshold > 0.0;
    }
  }

  /** Speed is bounded: for a pointer inside the window no axis pans faster
      than `maxSpeed`. */
  lemma ComponentBounded(p: real, extent: real, threshold: real, maxSpeed: real)
    requires threshold > 0.0 && maxSpeed >= 0.0 && 0.0 <= p <= extent
    ensures -maxSpeed <= PanComponent(p, extent, threshold, maxSpeed) <= maxSpeed
  {
    if p < threshold {
      var f := (threshold - p) / threshold;
      assert 0.0 < f <= 1.0 by {
        assert f * threshold == threshold - p;
      }
      assert f * maxSpeed <= maxSpeed;
    } else if p > extent - threshold {
      var f := (p - (extent - threshold)) / threshold;
      assert 0.0 < f <= 1.0 by {
        DivAtMostOne(p - (extent - threshold), threshold);
      }
      assert f * maxSpeed <= maxSpeed;
    }
  }

  lemma DivAtMostOne(a: real, t: real)
    requires t > 0.0 && a <= t
    ensures a / t <= 1.0
  {
  }

  /** Speed grows with depth: of two cursor positions in the low band,
      the one nearer the edge pans strictly faster. */
  lemma ComponentMonotone(p1: real, p2: real, extent: real, threshold: real, maxSpeed: real)
    requires threshold > 0.0 && maxSpeed > 0.0 && p1 < p2 < threshold
    ensures PanComponent(p1, extent, threshold, maxSpeed) < PanComponent(p2, extent, threshold, maxSpeed)
  {
    var f1, f2 := (threshold - p1) / threshold, (threshold - p2) / threshold;
    assert f1 > f2 by {
      assert f1 * threshold == threshold - p1;
      assert f2 * threshold == threshold - p2;
    }
    assert f1 * maxSpeed > f2 * maxSpeed;
  }

  /** The same in the high band: of two cursor positions past
      `extent - threshold` (and clear of the low band, whose test wins),
      the one nearer the far edge pans strictly faster. */
  lemma ComponentMonotoneHigh(p1: real, p2: real, extent: real, threshold: real, maxSpeed: real)
    requires threshold > 0.0 && maxSpeed > 0.0
    requires threshold <= p2 && extent - threshold < p2 < p1
    ensures PanComponent(p2, extent, threshold, maxSpeed) < PanComponent(p1, extent, threshold, maxSpeed)
  {
    var f1, f2 := (p1 - (extent - threshold)) / threshold, (p2 - (extent - threshold)) / threshold;
    assert f1 > f2 by {
      assert f1 * threshold == p1 - (extent - threshold);
      assert f2 * threshold == p2 - (extent - threshold);
    }
    assert f1 * maxSpeed > f2 * maxSpeed;
  }

  /** The hook's refs: the last pointer position, the id of the last
      requested animation frame, and whether a loop is running. `pending`
      holds the frames requested and neither run nor cancelled, and `pans`
      the `panBy` calls made on the map, in order. */
  class EdgeScroller {
    const threshold: real
    const maxSpeed: real
    var pointer: Option<Vec>
    var frameId: Option<nat>
    var isScrolling: bool
    var pending: set<nat>
    var nextFrame: nat
    var pans: seq<Vec>

    /** At most one animation loop: a loop is running exactly when one frame
        is pending, and that frame is the one the hook would cancel. */
    predicate Valid()
      reads this
    {
      && threshold > 0.0
      && |pending| <= 1
      && (isScrolling <==> pending != {})
      && (pending != {} ==> frameId.Some? && pending == {frameId.value})
      && (forall f :: f in pending ==> f < nextFrame)
    }

    /** `useEdgeScroll(getMap)` with the default configuration. */
    constructor Default()
      ensures Valid()
      ensures threshold == 50.0 && maxSpeed == 15.0
      ensures pointer == None && frameId == None && !isScrolling && pending == {} && pans == []
    {
      threshold, maxSpeed := 50.0, 15.0;
      pointer, frameId, isScrolling := None, None, false;
      pending, nextFrame, pans := {}, 0, [];
    }

    /** `useEdgeScroll(getMap, { edgeThreshold, maxSpeed })`. */
    constructor (edgeThreshold: real, speed: real)
      requires edgeThreshold > 0.0
      ensures Valid()
      ensures threshold == edgeThreshold && maxSpeed == speed
      ensures pointer == None && frameId == None && !isScrolling && pending == {} && pans == []
    {
      threshold, maxSpeed := edgeThreshold, speed;
      pointer, frameId, isScrolling := None, None, false;
      pending, nextFrame, pans := {}, 0, [];
    }

    /** Requests an animation frame and remembers its id. */
    method RequestFrame()
      requires Valid() && pending == {}
      modifies this
      ensures isScrolling && pending == {old(nextFrame)} && frameId == Some(old(nextFrame))
      ensures nextFrame == old(nextFrame) + 1
      ensures pointer == old(pointer) && pans == old(pans)
      ensures Valid()
    {
      isScrolling := true;
      frameId := Some(nextFrame);
      pending := {nextFrame};
      nextFrame := nextFrame + 1;
    }

    /** `updatePosition(x, y)`: records the cursor and, when no loop is
        running, the hook is enabled and the cursor is in an edge band,
        starts one. */
    method UpdatePosition(x: real, y: real, enabled: bool, width: real, height: real)
      requires Valid()
      modifies this
      ensures Valid()
      ensures pointer == Some(Vec(x, y)) && pans == old(pans)
      ensures var starts := !old(isScrolling) && enabled && PanVector(x, y, width, height, threshold, maxSpeed).Some?;
        && (starts ==> pending == {old(nextFrame)} && frameId == Some(old(nextFrame)))
        && (!starts ==> pending == old(pending) && frameId == old(frameId) && isScrolling == old(isScrolling))
    {
      pointer := Some(Vec(x, y));
      if !isScrolling && enabled {
        var v := PanVector(x, y, width, height, threshold, maxSpeed);
        if v.Some? {
          RequestFrame();
        }
      }
    }

    /** `animate`, run as the pending frame `frame`: stops the loop when the
        hook is disabled, the cursor is gone, there is no map, or the
        pointer has left the edge bands; otherwise pans the map once and
        requests the next frame. */
    method Animate(frame: nat, enabled: bool, mapPresent: bool, width: real, height: real)
      requires Valid() && frame in pending
      modifies this
      ensures Valid()
      ensures pointer == old(pointer)
      ensures var v := if old(pointer).Some? then PanVector(old(pointer).value.x, old(pointer).value.y, width, height, threshold, maxSpeed) else None;
        var continues := enabled && mapPresent && v.Some?;
        && (continues ==> pans == old(pans) + [v.value] && pending == {old(nextFrame)} && frameId == Some(old(nextFrame)))
        && (!continues ==> pans == old(pans) && pending == {} && !isScrolling)
    {
      pending := pending - {frame};
      isScrolling := false;
      if !enabled || pointer.None? {
        return;
      }
      if !mapPresent {
        return;
      }
      var v := PanVector(pointer.value.x, pointer.value.y, width, height, threshold, maxSpeed);
      if v.Some? {
        pans := pans + [v.value];
        RequestFrame();
      }
    }

    /** `stopScroll`: forgets the cursor and cancels the pending frame. */
    method StopScroll()
      requires Valid()
      modifies this
      ensures Valid()
      ensures pointer == None && !isScrolling && frameId == None && pending == {} && pans == old(pans)
    {
      pointer := None;
      isScrolling := false;
      if frameId.Some? {
        pending := pending - {frameId.value};
        frameId := None;
      }
    }

    /** The unmount cleanup: cancels the last requested frame; nothing runs
        afterwards. */
    method Unmount()
      requires Valid()
      modifies this
      ensures pending == {} && pans == old(pans) && pointer == old(pointer)
    {
      if frameId.Some? {
        pending := pending - {frameId.value};
      }
    }
  }
}
