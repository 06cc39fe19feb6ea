/** The slide-to-confirm control: a thumb dragged along a track, which fires
    its completion callback once it is released past nine tenths of the
    track, and stays completed from then on. */
module Slide {
  import opened Nullable

  /** What the handlers read from the page: the track's width, the thumb's
      width (0 when the thumb is not rendered) and the track's left edge. */
  datatype Geometry = Geometry(containerWidth: real, thumbWidth: real, containerLeft: real)

  /** `containerWidth - thumbWidth`: the furthest the thumb may travel. */
  function MaxPosition(g: Geometry): real
  {
    g.containerWidth - g.thumbWidth
  }

  /** `Math.max(0, Math.min(x, max))` */
  function Clamp(x: real, max: real): (p: real)
    ensures p >= 0.0
    ensures 0.0 <= max ==> p <= max
    ensures 0.0 <= x <= max ==> p == x
    ensures x < 0.0 || max < 0.0 ==> p == 0.0
    ensures 0.0 <= max < x ==> p == max
  {
    var least := if x < max then x else max;
    if 0.0 < least then least else 0.0
  }

  /** Clamping a position already on the track leaves it where it is. */
  lemma ClampIdempotent(x: real, max: real)
    ensures Clamp(Clamp(x, max), max) == Clamp(x, max)
  {
  }

  /** Where a cursor at `clientX` puts the thumb: centred under the cursor,
      kept on the track. */
  function DragPosition(g: Geometry, clientX: real): real
  {
    Clamp(clientX - g.containerLeft - g.thumbWidth / 2.0, MaxPosition(g))
  }

  /** The release test: strictly past nine tenths of the travel. */
  predicate PastThreshold(position: real, maxPosition: real)
  {
    position > maxPosition * 0.9
  }

  /** Dragging the cursor to the far end of a track wider than the thumb
      completes the slide on release; a thumb left at the start does not. */
  lemma ThresholdOfDrag(g: Geometry, clientX: real)
    requires MaxPosition(g) > 0.0
    ensures clientX >= g.containerLeft + g.containerWidth - g.thumbWidth / 2.0 ==>
              DragPosition(g, clientX) == MaxPosition(g) && PastThreshold(DragPosition(g, clientX), MaxPosition(g))
    ensures !PastThreshold(0.0, MaxPosition(g))
  {
  }

  /** One event delivered to the control. Touch events and the mouse press
      reach the handlers of the current render, with its props; mouse moves
      and the mouse release reach the document listeners. */
  datatype Event =
    | TouchStart(disabled: bool)
    | TouchMove(disabled: bool, container: Option<Geometry>, clientX: real)
    | TouchEnd(disabled: bool, container: Option<Geometry>)
    | MouseMove(container: Option<Geometry>, clientX: real)
    | MouseUp(container: Option<Geometry>)

  class SlideToAction {
    var sliding: bool
    var position: real
    var completed: bool
    /** The position seen by the document mouse listeners. The effect that
        installs them depends on `sliding` alone, so their handlers are those
        of the render in which `sliding` became true, and read the position
        of that render. */
    var listenerPosition: real
    /** How many times the completion callback has been called. */
    ghost var completions: nat

    /** The callback has run once exactly when the control is completed, and
        a completed control is never sliding. */
    ghost predicate Valid()
      reads this
    {
      && completions == (if completed then 1 else 0)
      && (completed ==> !sliding)
    }

    constructor ()
      ensures Valid()
      ensures !sliding && position == 0.0 && !completed && completions == 0
      ensures listenerPosition == 0.0
    {
      sliding := false;
      position := 0.0;
      completed := false;
      listenerPosition := 0.0;
      completions := 0;
    }

    /** `handleTouchStart`, for a touch or a mouse press: starts a drag
        unless disabled or completed. When `sliding` turns true, the mouse
        listeners are installed with the position of that render. */
    method HandleTouchStart(disabled: bool)
      requires Valid()
      modifies this`sliding, this`listenerPosition
      ensures Valid()
      ensures sliding == if disabled || completed then old(sliding) else true
      ensures listenerPosition ==
                if !disabled && !completed && !old(sliding) then position else old(listenerPosition)
    {
      if disabled || completed {
        return;
      }
      if !sliding {
        listenerPosition := position;
      }
      sliding := true;
    }

    /** `handleTouchMove`: while a drag is on, the thumb follows the cursor,
        kept within the track; otherwise, or without a track, nothing moves. */
    method HandleTouchMove(disabled: bool, container: Option<Geometry>, clientX: real)
      requires Valid()
      modifies this`position
      ensures Valid()
      ensures !sliding || disabled || completed || container.None? ==> position == old(position)
      ensures sliding && !disabled && !completed && container.Some? ==>
                position == DragPosition(container.value, clientX)
    {
      if !sliding || disabled || completed {
        return;
      }
      if container.None? {
        return;
      }
      position := DragPosition(container.value, clientX);
    }

    /** `handleTouchEnd`: ends the drag; past the threshold the thumb snaps to
        the end, the control completes and `fired` reports the one call of
        the completion callback; short of it the thumb returns to the
        start. */
    method HandleTouchEnd(disabled: bool, container: Option<Geometry>) returns (fired: bool)
      requires Valid()
      modifies this`sliding, this`position, this`completed, this`completions
      ensures Valid()
      ensures fired ==> !old(completed) && completed
      ensures completions == old(completions) + (if fired then 1 else 0)
      ensures disabled || old(completed) ==>
                !fired && sliding == old(sliding) && position == old(position) && completed == old(completed)
      ensures !disabled && !old(completed) ==> !sliding
      ensures !disabled && !old(completed) && container.None? ==>
                !fired && position == old(position) && !completed
      ensures !disabled && !old(completed) && container.Some? ==>
                var max := MaxPosition(container.value);
                if PastThreshold(old(position), max)
                then fired && completed && position == max
                else !fired && !completed && position == 0.0
    {
      fired := false;
      if disabled || completed {
        return;
      }
      sliding := false;
      if container.Some? {
        var maxPosition := MaxPosition(container.value);
        if PastThreshold(position, maxPosition) {
          position := maxPosition;
          completed := true;
          completions := completions + 1;
          fired := true;
        } else {
          position := 0.0;
        }
      }
    }

    /** The document `mousemove` listener, installed while `sliding`: the
        handler it calls was rendered with `sliding` true and `completed`
        false, and with a prop `disabled` that let the drag start, so only
        the track is checked. */
    method HandleMouseMove(container: Option<Geometry>, clientX: real)
      requires Valid()
      modifies this`position
      ensures Valid()
      ensures !sliding || container.None? ==> position == old(position)
      ensures sliding && container.Some? ==> position == DragPosition(container.value, clientX)
    {
      if !sliding || container.None? {
        return;
      }
      position := DragPosition(container.value, clientX);
    }

    /** The document `mouseup` listener as written: it calls the release
        handler of the render in which the drag started, which tests the
        position of that render, `listenerPosition`, and not where the thumb
        was dragged to. */
    method HandleMouseUp(container: Option<Geometry>) returns (fired: bool)
      requires Valid()
      modifies this`sliding, this`position, this`completed, this`completions
      ensures Valid()
      ensures fired ==> !old(completed) && completed
      ensures completions == old(completions) + (if fired then 1 else 0)
      ensures !old(sliding) ==>
                !fired && !sliding && position == old(position) && completed == old(completed)
      ensures old(sliding) ==> !sliding
      ensures old(sliding) && container.None? ==> !fired && position == old(position) && !completed
      ensures old(sliding) && container.Some? ==>
                var max := MaxPosition(container.value);
                if PastThreshold(listenerPosition, max)
                then fired && completed && position == max
                else !fired && !completed && position == 0.0
    {
      fired := false;
      if !sliding {
        return;
      }
      sliding := false;
      if container.Some? {
        var maxPosition := MaxPosition(container.value);
        if PastThreshold(listenerPosition, maxPosition) {
          position := maxPosition;
          completed := true;
          completions := completions + 1;
          fired := true;
        } else {
          position := 0.0;
        }
      }
    }

    /** Corrected `mouseup` listener, one that calls the release handler of
        the current render (for instance with the handlers among the effect's
        dependencies): a mouse release then behaves as a touch release. */
    method HandleMouseUpCurrent(disabled: bool, container: Option<Geometry>) returns (fired: bool)
      requires Valid()
      modifies this`sliding, this`position, this`completed, this`completions
      ensures Valid()
      ensures fired ==> !old(completed) && completed
      ensures completions == old(completions) + (if fired then 1 else 0)
      ensures !old(sliding) ==>
                !fired && !sliding && position == old(position) && completed == old(completed)
      ensures old(sliding) && !disabled ==> !sliding
      ensures disabled ==> sliding == old(sliding)
      ensures old(sliding) && (disabled || container.None?) ==>
                !fired && position == old(position) && completed == old(completed)
      ensures old(sliding) && !disabled && container.Some? ==>
                var max := MaxPosition(container.value);
                if PastThreshold(old(position), max)
                then fired && completed && position == max
                else !fired && !completed && position == 0.0
    {
      fired := false;
      if sliding {
        fired := HandleTouchEnd(disabled, container);
      }
    }

    /** `completed ? completeText : text` */
    function TrackText(text: string, completeText: string): (shown: string)
      reads this
      ensures completed ==> shown == completeText
      ensures !completed ==> shown == text
    {
      if completed then completeText else text
    }

    /** Delivers `events` in order. Whatever they are, the completion
        callback runs at most once over the control's life: never again once
        it has completed, and exactly once if it completes now. */
    method Run(events: seq<Event>) returns (fires: nat)
      requires Valid()
      modifies this
      ensures Valid()
      ensures fires <= 1 && completions <= 1
      ensures old(completed) ==> fires == 0 && completed
      ensures completed <==> old(completed) || fires == 1
    {
      fires := 0;
      var i := 0;
      while i < |events|
        invariant 0 <= i <= |events|
        invariant Valid()
        invariant fires <= 1
        invariant old(completed) ==> fires == 0 && completed
        invariant completed <==> old(completed) || fires == 1
      {
        match events[i] {
          case TouchStart(disabled) =>
            HandleTouchStart(disabled);
          case TouchMove(disabled, container, clientX) =>
            HandleTouchMove(disabled, container, clientX);
          case TouchEnd(disabled, container) =>
            var fired := HandleTouchEnd(disabled, container);
            if fired {
              fires := fires + 1;
            }
          case MouseMove(container, clientX) =>
            HandleMouseMove(container, clientX);
          case MouseUp(container) =>
            var fired := HandleMouseUp(container);
            if fired {
              fires := fires + 1;
            }
        }
        i := i + 1;
      }
    }
  }

  /** As written: on a track wider than the thumb, a mouse press on the
      thumb at the start, a drag to the far end and a release there puts the
      thumb past the threshold, yet the release resets it to the start and
      the callback does not run. */
  method MouseSlideAsWritten(g: Geometry, clientX: real)
    returns (releasedAt: real, fired: bool, s: SlideToAction)
    requires MaxPosition(g) > 0.0 && clientX >= g.containerLeft + g.containerWidth - g.thumbWidth / 2.0
    ensures PastThreshold(releasedAt, MaxPosition(g))
    ensures !fired && !s.completed && s.position == 0.0
  {
    s := new SlideToAction();
    s.HandleTouchStart(false);
    s.HandleMouseMove(Some(g), clientX);
    ThresholdOfDrag(g, clientX);
    releasedAt := s.position;
    fired := s.HandleMouseUp(Some(g));
  }

  /** Corrected: the same mouse gesture completes the slide and runs the
      callback once. */
  method MouseSlideCorrected(g: Geometry, clientX: real)
    returns (releasedAt: real, fired: bool, s: SlideToAction)
    requires MaxPosition(g) > 0.0 && clientX >= g.containerLeft + g.containerWidth - g.thumbWidth / 2.0
    ensures PastThreshold(releasedAt, MaxPosition(g))
    ensures fired && s.completed && s.position == MaxPosition(g) && s.completions == 1
  {
    s := new SlideToAction();
    s.HandleTouchStart(false);
    s.HandleMouseMove(Some(g), clientX);
    ThresholdOfDrag(g, clientX);
    releasedAt := s.position;
    fired := s.HandleMouseUpCurrent(false, Some(g));
  }
}
