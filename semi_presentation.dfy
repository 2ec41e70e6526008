/** `SemiPresentationController`: a presentation controller that shows the
    presented controller as a sheet aligned to the bottom of the container,
    with rounded top corners, over a dimming view that dismisses the
    presentation when tapped.

    The container view's bounds (absent when there is no container view),
    the presented controller's `preferredContentSize`, whether the presented
    controller has a view and whether a transition coordinator is there are
    inputs. An animation alongside the transition is modelled by the value it
    animates to; what the controller asks of the host is appended to
    `events`. */
module SemiPresentation {
  import opened Common

  /** The corner radius of the sheet. */
  const CornerRadius: real := 16.0

  /** The initial `dimmingAlpha`. */
  const DefaultDimmingAlpha: real := 0.5

  /** The view hierarchy `presentationWrappingView` holds: the wrapping
      view's frame in the container; inside it the rounded-corner view; inside
      that the wrapper of the presented controller's view; and inside that
      the presented view. The inner frames are relative to their parent. */
  datatype WrappingView = WrappingView(frame: Rect, roundedCornerFrame: Rect, wrapperFrame: Rect, presentedViewFrame: Rect)

  /** `dimmingView`, with its tap recognizer. */
  datatype DimmingView = DimmingView(frame: Rect, alpha: real, hasTapRecognizer: bool)

  datatype PresentationEvent =
    | AddDimmingView
    | RequestDismissal
    | SetNeedsLayout

  /** The fields of the controller. */
  datatype SemiState = SemiState(
    dimmingAlpha: real,
    isEnableTapDismiss: bool,
    wrapping: Option<WrappingView>,
    dimming: Option<DimmingView>,
    events: seq<PresentationEvent>)

  function InitSemiState(): (r: SemiState)
    ensures r.dimmingAlpha == DefaultDimmingAlpha && r.isEnableTapDismiss
    ensures r.wrapping.None? && r.dimming.None? && r.events == []
  {
    SemiState(DefaultDimmingAlpha, true, None, None, [])
  }

  /** `size(forChildContentContainer:withParentContainerSize:)`: the
      presented controller gets exactly its preferred content size; any other
      child gets what the superclass answers, `inherited`. */
  function SizeForChildContentContainer(isPresented: bool, preferred: Size, inherited: Size): (r: Size)
    ensures isPresented ==> r == preferred
    ensures !isPresented ==> r == inherited
  {
    if isPresented then preferred else inherited
  }

  /** `frameOfPresentedViewInContainerView`: the container's bounds (zero
      without a container) cut to the preferred height, at the bottom. */
  function FrameOfPresentedView(container: Option<Rect>, preferred: Size): (r: Rect)
    ensures container.Some? ==>
      && r.x == container.value.x && r.width == container.value.width
      && r.height == preferred.height && r.MaxY() == container.value.MaxY()
    ensures container.None? ==> r == Rect(0.0, -preferred.height, 0.0, preferred.height)
  {
    var bounds := container.GetOr(ZeroRect);
    var size := SizeForChildContentContainer(true, preferred, Size(bounds.width, bounds.height));
    Rect(bounds.x, bounds.MaxY() - size.height, bounds.width, size.height)
  }

  /** `UIEdgeInsets(top: 0, left: 0, bottom: b, right: 0)` applied to a
      rectangle by `inset(by:)`. */
  function InsetBottom(r: Rect, b: real): (s: Rect)
    ensures s.x == r.x && s.y == r.y && s.width == r.width && s.height == r.height - b
  {
    Rect(r.x, r.y, r.width, r.height - b)
  }

  /** The hierarchy built for a wrapping frame: the rounded-corner view is
      the wrapping view's bounds grown by the corner radius at the bottom, the
      wrapper is the rounded view's bounds shrunk back by it, and the
      presented view fills the wrapper. Flexible-width and flexible-height
      autoresizing keeps the same shape whenever the wrapping frame changes. */
  function WrappingFor(frame: Rect): (w: WrappingView)
    ensures w.frame == frame
    ensures w.roundedCornerFrame == Rect(0.0, 0.0, frame.width, frame.height + CornerRadius)
    ensures w.wrapperFrame == frame.Bounds() && w.presentedViewFrame == frame.Bounds()
  {
    var rounded := InsetBottom(frame.Bounds(), -CornerRadius);
    var wrapper := InsetBottom(rounded.Bounds(), CornerRadius);
    WrappingView(frame, rounded, wrapper, wrapper.Bounds())
  }

  /** The presented view covers the whole sheet, and the rounded-corner view
      reaches exactly one corner radius below the sheet's bottom edge, so
      only the top corners show rounded. */
  lemma WrappingGeometry(frame: Rect)
    ensures var w := WrappingFor(frame);
      && w.presentedViewFrame.width == w.frame.width && w.presentedViewFrame.height == w.frame.height
      && w.roundedCornerFrame.MaxY() - w.wrapperFrame.MaxY() == CornerRadius
      && w.roundedCornerFrame.y == w.wrapperFrame.y && w.roundedCornerFrame.width == w.wrapperFrame.width
  {
  }

  /** `presentationTransitionWillBegin()`: nothing without the presented
      controller's view; otherwise the sheet is built at the presented frame
      and, when there is a container, a dimming view over the container's
      bounds is added at alpha 0 and animated to `dimmingAlpha` alongside
      the transition. */
  function PresentationWillBeginStep(s: SemiState, hasPresentedView: bool, container: Option<Rect>,
                                     preferred: Size, hasCoordinator: bool): (r: SemiState)
    ensures !hasPresentedView ==> r == s
    ensures hasPresentedView ==> r.wrapping == Some(WrappingFor(FrameOfPresentedView(container, preferred)))
    ensures hasPresentedView && container.None? ==> r == s.(wrapping := r.wrapping)
    ensures hasPresentedView && container.Some? ==>
      && r.dimming.Some? && r.dimming.value.frame == container.value && r.dimming.value.hasTapRecognizer
      && r.dimming.value.alpha == (if hasCoordinator then s.dimmingAlpha else 0.0)
      && r.events == s.events + [AddDimmingView]
      && r.(wrapping := s.wrapping, dimming := s.dimming, events := s.events) == s
  {
    if !hasPresentedView then s
    else
      var built := s.(wrapping := Some(WrappingFor(FrameOfPresentedView(container, preferred))));
      match container
      case None => built
      case Some(bounds) =>
        var alpha := if hasCoordinator then s.dimmingAlpha else 0.0;
        built.(dimming := Some(DimmingView(bounds, alpha, true)), events := s.events + [AddDimmingView])
  }

  /** `dimmingViewTapped(_:)`: the presenting controller is asked to dismiss
      exactly when tap-to-dismiss is enabled. */
  function DimmingTappedStep(s: SemiState): (r: SemiState)
    ensures s.isEnableTapDismiss ==> r.events == s.events + [RequestDismissal]
    ensures !s.isEnableTapDismiss ==> r == s
    ensures r.(events := s.events) == s
  {
    if !s.isEnableTapDismiss then s else s.(events := s.events + [RequestDismissal])
  }

  /** `presentationTransitionDidEnd(_:)`: a presentation that did not
      complete drops both views. */
  function PresentationDidEndStep(s: SemiState, completed: bool): (r: SemiState)
    ensures !completed ==> r == s.(wrapping := None, dimming := None)
    ensures completed ==> r == s
  {
    if !completed then s.(wrapping := None, dimming := None) else s
  }

  /** `dismissalTransitionWillBegin()`: the dimming view fades to 0
      alongside the transition. */
  function DismissalWillBeginStep(s: SemiState, hasCoordinator: bool): (r: SemiState)
    ensures hasCoordinator && s.dimming.Some? ==> r.dimming == Some(s.dimming.value.(alpha := 0.0))
    ensures r.(dimming := s.dimming) == s
    ensures !hasCoordinator || s.dimming.None? ==> r == s
  {
    if hasCoordinator && s.dimming.Some? then s.(dimming := Some(s.dimming.value.(alpha := 0.0))) else s
  }

  /** `dismissalTransitionDidEnd(_:)`: a dismissal that completed drops both
      views. */
  function DismissalDidEndStep(s: SemiState, completed: bool): (r: SemiState)
    ensures completed ==> r == s.(wrapping := None, dimming := None)
    ensures !completed ==> r == s
  {
    if completed then s.(wrapping := None, dimming := None) else s
  }

  /** `preferredContentSizeDidChange(forChildContentContainer:)`: the
      container lays out again when the presented controller's size changed. */
  function PreferredSizeChangedStep(s: SemiState, isPresented: bool, hasContainer: bool): (r: SemiState)
    ensures isPresented && hasContainer ==> r == s.(events := s.events + [SetNeedsLayout])
    ensures !(isPresented && hasContainer) ==> r == s
  {
    if isPresented && hasContainer then s.(events := s.events + [SetNeedsLayout]) else s
  }

  /** `containerViewWillLayoutSubviews()`: the dimming view covers the
      container's bounds and the sheet moves to the presented frame. */
  function LayoutStep(s: SemiState, container: Option<Rect>, preferred: Size): (r: SemiState)
    ensures s.dimming.Some? ==> r.dimming == Some(s.dimming.value.(frame := container.GetOr(ZeroRect)))
    ensures s.wrapping.Some? ==> r.wrapping == Some(WrappingFor(FrameOfPresentedView(container, preferred)))
    ensures r.wrapping.Some? == s.wrapping.Some? && r.dimming.Some? == s.dimming.Some?
    ensures r.(wrapping := s.wrapping, dimming := s.dimming) == s
  {
    var dimming := match s.dimming
      case Some(d) => Some(d.(frame := container.GetOr(ZeroRect)))
      case None => None;
    var wrapping := if s.wrapping.Some? then Some(WrappingFor(FrameOfPresentedView(container, preferred))) else None;
    s.(dimming := dimming, wrapping := wrapping)
  }

  /** A presentation that is cancelled leaves no view behind. */
  lemma CancelledPresentation(s: SemiState, hasPresentedView: bool, container: Option<Rect>, preferred: Size, hasCoordinator: bool)
    ensures var r := PresentationDidEndStep(PresentationWillBeginStep(s, hasPresentedView, container, preferred, hasCoordinator), false);
      r.wrapping.None? && r.dimming.None?
  {
  }

  /** A full presentation and dismissal in a container, with a transition
      coordinator: while presented the sheet sits at the bottom of the
      container and the dimming view is at `dimmingAlpha`; while dismissing
      it fades to 0; after the dismissal no view is left and the only event
      is the added dimming view. */
  lemma PresentationCycle(s: SemiState, bounds: Rect, preferred: Size)
    ensures var presented := PresentationDidEndStep(PresentationWillBeginStep(s, true, Some(bounds), preferred, true), true);
      var dismissing := DismissalWillBeginStep(presented, true);
      var dismissed := DismissalDidEndStep(dismissing, true);
      && presented.wrapping.Some? && presented.wrapping.value.frame.MaxY() == bounds.MaxY()
      && presented.dimming.Some? && presented.dimming.value.alpha == s.dimmingAlpha
      && dismissing.dimming.Some? && dismissing.dimming.value.alpha == 0.0
      && dismissed.wrapping.None? && dismissed.dimming.None?
      && dismissed.events == s.events + [AddDimmingView]
  {
  }

  /** Laying out twice is laying out once: the layout only depends on the
      container and the preferred size. */
  lemma LayoutIdempotent(s: SemiState, container: Option<Rect>, preferred: Size)
    ensures LayoutStep(LayoutStep(s, container, preferred), container, preferred) == LayoutStep(s, container, preferred)
  {
  }

  class SemiPresentationController {
    var dimmingAlpha: real
    var isEnableTapDismiss: bool
    var presentationWrappingView: Option<WrappingView>
    var dimmingView: Option<DimmingView>
    var events: seq<PresentationEvent>

    function State(): SemiState
      reads this
    {
      SemiState(dimmingAlpha, isEnableTapDismiss, presentationWrappingView, dimmingView, events)
    }

    constructor ()
      ensures State() == InitSemiState()
    {
      dimmingAlpha := DefaultDimmingAlpha;
      isEnableTapDismiss := true;
      presentationWrappingView := None;
      dimmingView := None;
      events := [];
    }

    /** `presentedView`: the sheet, not the presented controller's own view. */
    function PresentedView(): (r: Option<WrappingView>)
      reads this
      ensures r == State().wrapping
    {
      presentationWrappingView
    }

    /** `shouldRemovePresentersView`: the presenting view is removed. */
    function ShouldRemovePresentersView(): (r: bool)
      ensures r
    {
      true
    }

    /** `presentationTransitionWillBegin()`. */
    method PresentationTransitionWillBegin(hasPresentedView: bool, container: Option<Rect>, preferred: Size, hasCoordinator: bool)
      modifies this
      ensures State() == PresentationWillBeginStep(old(State()), hasPresentedView, container, preferred, hasCoordinator)
    {
      if !hasPresentedView {
        return;
      }
      var frame := FrameOfPresentedView(container, preferred);
      var rounded := InsetBottom(frame.Bounds(), -CornerRadius);
      var wrapper := InsetBottom(rounded.Bounds(), CornerRadius);
      presentationWrappingView := Some(WrappingView(frame, rounded, wrapper, wrapper.Bounds()));
      if container.None? {
        return;
      }
      var dimView := DimmingView(container.value, 0.0, true);
      dimmingView := Some(dimView);
      events := events + [AddDimmingView];
      if hasCoordinator {
        dimmingView := Some(dimView.(alpha := dimmingAlpha));
      }
    }

    /** `dimmingViewTapped(_:)`. */
    method DimmingViewTapped()
      modifies this
      ensures State() == DimmingTappedStep(old(State()))
    {
      if !isEnableTapDismiss {
        return;
      }
      events := events + [RequestDismissal];
    }

    /** `presentationTransitionDidEnd(_:)`. */
    method PresentationTransitionDidEnd(completed: bool)
      modifies this
      ensures State() == PresentationDidEndStep(old(State()), completed)
    {
      if !completed {
        presentationWrappingView := None;
        dimmingView := None;
      }
    }

    /** `dismissalTransitionWillBegin()`. */
    method DismissalTransitionWillBegin(hasCoordinator: bool)
      modifies this
      ensures State() == DismissalWillBeginStep(old(State()), hasCoordinator)
    {
      if hasCoordinator && dimmingView.Some? {
        dimmingView := Some(dimmingView.value.(alpha := 0.0));
      }
    }

    /** `dismissalTransitionDidEnd(_:)`. */
    method DismissalTransitionDidEnd(completed: bool)
      modifies this
      ensures State() == DismissalDidEndStep(old(State()), completed)
    {
      if completed {
        presentationWrappingView := None;
        dimmingView := None;
      }
    }

    /** `preferredContentSizeDidChange(forChildContentContainer:)`. */
    method PreferredContentSizeDidChange(isPresented: bool, hasContainer: bool)
      modifies this
      ensures State() == PreferredSizeChangedStep(old(State()), isPresented, hasContainer)
    {
      if isPresented && hasContainer {
        events := events + [SetNeedsLayout];
      }
    }

    /** `containerViewWillLayoutSubviews()`. */
    method ContainerViewWillLayoutSubviews(container: Option<Rect>, preferred: Size)
      modifies this
      ensures State() == LayoutStep(old(State()), container, preferred)
    {
      if dimmingView.Some? {
        dimmingView := Some(dimmingView.value.(frame := container.GetOr(ZeroRect)));
      }
      var containerViewFrame := FrameOfPresentedView(container, preferred);
      if presentationWrappingView.Some? {
        presentationWrappingView := Some(WrappingFor(containerViewFrame));
      }
    }
  }
}
