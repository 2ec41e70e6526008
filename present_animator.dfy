/** `PresentAnimatedTransitioning`, the default animator of a modal
    presentation: the presented view slides up from below its final frame,
    and on dismissal the presented view slides down out of the container. */
module PresentAnimator {
  import opened Common
  import opened BasicAnimator

  /** The frame the `to` view starts from when presented: its final frame,
      moved down by its own height. */
  function PresentStartFrame(finalFrame: Rect): (r: Rect)
    ensures r.x == finalFrame.x && r.y == finalFrame.y + finalFrame.height
    ensures r.width == finalFrame.width && r.height == finalFrame.height
  {
    finalFrame.OffsetBy(0.0, finalFrame.height)
  }

  /** The frame the `from` view ends at when dismissed: at x 0, just below
      the container, with the size of its initial frame. */
  function DismissEndFrame(container: Rect, initialFrame: Rect): (r: Rect)
    ensures r.x == 0.0 && r.y == container.height
    ensures r.width == initialFrame.width && r.height == initialFrame.height
  {
    Rect(0.0, container.height, initialFrame.width, initialFrame.height)
  }

  /** The calls before the animation block: for a presentation with a `to`
      view, add it and place it below its final frame; then the `from`
      controller begins disappearing and the `to` controller begins appearing. */
  function PresentSetup(kind: PresentAnimatedType, context: TransitionContext): (r: seq<TransitionCall>)
    ensures kind == PresentAnimation && context.hasToView ==>
      |r| == 4 && r[0] == AddSubview(ToView) && r[1] == SetFrame(ToView, PresentStartFrame(context.finalFrameOfTo))
    ensures !(kind == PresentAnimation && context.hasToView) ==> |r| == 2
    ensures |r| >= 2 && r[|r| - 2] == BeginAppearanceTransition(FromController, false)
    ensures r[|r| - 1] == BeginAppearanceTransition(ToController, true)
    ensures CompletionCount(r) == 0
  {
    var placed := if kind == PresentAnimation && context.hasToView
                  then [AddSubview(ToView), SetFrame(ToView, PresentStartFrame(context.finalFrameOfTo))]
                  else [];
    var begins := [BeginAppearanceTransition(FromController, false), BeginAppearanceTransition(ToController, true)];
    CompletionCountAppend(placed, begins);
    placed + begins
  }

  /** The effects of the animation block: the presented view reaches its
      final frame, or the dismissed view leaves through the bottom; then the
      custom animations, when there are any. */
  function PresentAnimationBlock(kind: PresentAnimatedType, hasAnimations: bool, context: TransitionContext): (r: seq<TransitionCall>)
    ensures kind == PresentAnimation && context.hasToView ==> |r| >= 1 && r[0] == SetFrame(ToView, context.finalFrameOfTo)
    ensures kind == DismissAnimation && context.hasFromView ==>
      |r| >= 1 && r[0] == SetFrame(FromView, DismissEndFrame(context.containerFrame, context.initialFrameOfFrom))
    ensures hasAnimations <==> |r| > 0 && r[|r| - 1] == RunCustomAnimations
    ensures CompletionCount(r) == 0
  {
    var moved := match kind
      case PresentAnimation =>
        if context.hasToView then [SetFrame(ToView, context.finalFrameOfTo)] else []
      case DismissAnimation =>
        if context.hasFromView then [SetFrame(FromView, DismissEndFrame(context.containerFrame, context.initialFrameOfFrom))] else [];
    var custom := if hasAnimations then [RunCustomAnimations] else [];
    CompletionCountAppend(moved, custom);
    moved + custom
  }

  /** The completion closure: end the appearance transitions of both
      controllers only when the transition was cancelled, then report. */
  function PresentCompletion(context: TransitionContext, delegate: Option<DelegateId>): (r: seq<TransitionCall>)
    ensures context.transitionWasCancelled ==>
      |r| >= 2 && r[0] == EndAppearanceTransition(FromController) && r[1] == EndAppearanceTransition(ToController)
    ensures context.transitionWasCancelled ==> r[2..] == CompletionCalls(context, delegate)
    ensures !context.transitionWasCancelled ==> r == CompletionCalls(context, delegate)
  {
    (if context.transitionWasCancelled
     then [EndAppearanceTransition(FromController), EndAppearanceTransition(ToController)]
     else [])
    + CompletionCalls(context, delegate)
  }

  /** Everything `animateTransition(using:)` does with one context: nothing
      without both controllers, and otherwise the setup, the animation, its
      block and its completion, in that order. */
  function PresentCalls(kind: PresentAnimatedType, hasAnimations: bool, context: TransitionContext,
                        duration: real, delegate: Option<DelegateId>): (r: seq<TransitionCall>)
    ensures !(context.hasToController && context.hasFromController) ==> r == []
    ensures context.hasToController && context.hasFromController ==>
      && |r| > |PresentSetup(kind, context)|
      && r[..|PresentSetup(kind, context)|] == PresentSetup(kind, context)
      && r[|PresentSetup(kind, context)|] == AnimateWithDuration(duration)
  {
    if !(context.hasToController && context.hasFromController) then []
    else PresentSetup(kind, context) + [AnimateWithDuration(duration)]
         + PresentAnimationBlock(kind, hasAnimations, context) + PresentCompletion(context, delegate)
  }

  /** The transition is reported complete exactly once when both controllers
      are there, and never otherwise. */
  lemma PresentCallsCompleteOnce(kind: PresentAnimatedType, hasAnimations: bool, context: TransitionContext,
                                 duration: real, delegate: Option<DelegateId>)
    ensures CompletionCount(PresentCalls(kind, hasAnimations, context, duration, delegate))
            == if context.hasToController && context.hasFromController then 1 else 0
  {
    if context.hasToController && context.hasFromController {
      var setup := PresentSetup(kind, context) + [AnimateWithDuration(duration)];
      var block := PresentAnimationBlock(kind, hasAnimations, context);
      var completion := PresentCompletion(context, delegate);
      var ends := if context.transitionWasCancelled
                  then [EndAppearanceTransition(FromController), EndAppearanceTransition(ToController)]
                  else [];
      assert completion == ends + CompletionCalls(context, delegate);
      CompletionCountAppend(ends, CompletionCalls(context, delegate));
      CompletionCountAppend(PresentSetup(kind, context), [AnimateWithDuration(duration)]);
      CompletionCountAppend(setup, block);
      CompletionCountAppend(setup + block, completion);
    }
  }

  /** With both controllers, the last calls are the base class's completion. */
  lemma PresentCallsEndWithCompletion(kind: PresentAnimatedType, hasAnimations: bool, context: TransitionContext,
                                      duration: real, delegate: Option<DelegateId>)
    requires context.hasToController && context.hasFromController
    ensures var r := PresentCalls(kind, hasAnimations, context, duration, delegate);
      && |r| >= |CompletionCalls(context, delegate)|
      && r[|r| - |CompletionCalls(context, delegate)|..] == CompletionCalls(context, delegate)
  {
    var front := PresentSetup(kind, context) + [AnimateWithDuration(duration)]
                 + PresentAnimationBlock(kind, hasAnimations, context);
    var completion := PresentCompletion(context, delegate);
    var done := CompletionCalls(context, delegate);
    var ends := completion[..|completion| - |done|];
    assert completion == ends + done;
    assert front + completion == (front + ends) + done;
  }

  /** The appearance transitions begin before the animation starts, and
      nothing is reported complete before it starts. */
  lemma PresentCallsOrder(kind: PresentAnimatedType, hasAnimations: bool, context: TransitionContext,
                          duration: real, delegate: Option<DelegateId>)
    requires context.hasToController && context.hasFromController
    ensures var r := PresentCalls(kind, hasAnimations, context, duration, delegate);
      var k := |PresentSetup(kind, context)|;
      && k < |r| && r[k] == AnimateWithDuration(duration)
      && r[k - 2] == BeginAppearanceTransition(FromController, false)
      && r[k - 1] == BeginAppearanceTransition(ToController, true)
      && CompletionCount(r[..k + 1]) == 0
  {
    var r := PresentCalls(kind, hasAnimations, context, duration, delegate);
    var setup := PresentSetup(kind, context) + [AnimateWithDuration(duration)];
    assert r[..|setup|] == setup;
    CompletionCountZero(setup);
  }

  class PresentAnimatedTransitioning {
    const base: BasicViewControllerAnimatedTransitioning
    const kind: PresentAnimatedType
    /** Whether a custom `animations` closure was given. */
    const hasAnimations: bool

    /** `init()`: a presentation animator without custom animations. */
    constructor ()
      ensures kind == PresentAnimation && !hasAnimations
      ensures fresh(base) && base.delegate.None? && base.transitionDuration == DefaultTransitionDuration && base.calls == []
    {
      kind := PresentAnimation;
      hasAnimations := false;
      base := new BasicViewControllerAnimatedTransitioning();
    }

    /** `init(type:)` and `init(type:animations:)`. */
    constructor OfType(kind: PresentAnimatedType, hasAnimations: bool)
      ensures this.kind == kind && this.hasAnimations == hasAnimations
      ensures fresh(base) && base.delegate.None? && base.transitionDuration == DefaultTransitionDuration && base.calls == []
    {
      this.kind := kind;
      this.hasAnimations := hasAnimations;
      base := new BasicViewControllerAnimatedTransitioning();
    }

    /** `animateTransition(using:)`; `finished` is what the animation's
        completion reports, which the base class ignores. */
    method AnimateTransition(context: TransitionContext, finished: bool)
      modifies base`calls
      ensures base.calls == old(base.calls)
        + PresentCalls(kind, hasAnimations, context, base.TransitionDurationUsing(Some(context)), base.delegate)
    {
      if !(context.hasToController && context.hasFromController) {
        return;
      }
      Setup(context);
      var duration := base.TransitionDurationUsing(Some(context));
      base.calls := base.calls + [AnimateWithDuration(duration)];
      Animations(context);
      Completion(context, finished);
      AppendLog(old(base.calls), PresentSetup(kind, context), [AnimateWithDuration(duration)],
                 PresentAnimationBlock(kind, hasAnimations, context), PresentCompletion(context, base.delegate));
    }

    /** What happens before `UIView.animate`. */
    method Setup(context: TransitionContext)
      modifies base`calls
      ensures base.calls == old(base.calls) + PresentSetup(kind, context)
    {
      var finalFrame := context.finalFrameOfTo;
      if kind == PresentAnimation && context.hasToView {
        base.calls := base.calls + [AddSubview(ToView)];
        base.calls := base.calls + [SetFrame(ToView, finalFrame.OffsetBy(0.0, finalFrame.height))];
      }
      base.calls := base.calls + [BeginAppearanceTransition(FromController, false)];
      base.calls := base.calls + [BeginAppearanceTransition(ToController, true)];
    }

    /** The `animations` closure passed to `UIView.animate`. */
    method Animations(context: TransitionContext)
      modifies base`calls
      ensures base.calls == old(base.calls) + PresentAnimationBlock(kind, hasAnimations, context)
    {
      if kind == PresentAnimation {
        if context.hasToView {
          base.calls := base.calls + [SetFrame(ToView, context.finalFrameOfTo)];
        }
      } else {
        var initialFrame := context.initialFrameOfFrom;
        if context.hasFromView {
          base.calls := base.calls + [SetFrame(FromView, Rect(0.0, context.containerFrame.height, initialFrame.width, initialFrame.height))];
        }
      }
      if hasAnimations {
        base.calls := base.calls + [RunCustomAnimations];
      }
    }

    /** The `completion` closure passed to `UIView.animate`. */
    method Completion(context: TransitionContext, finished: bool)
      modifies base`calls
      ensures base.calls == old(base.calls) + PresentCompletion(context, base.delegate)
    {
      if context.transitionWasCancelled {
        base.calls := base.calls + [EndAppearanceTransition(FromController)];
        base.calls := base.calls + [EndAppearanceTransition(ToController)];
      }
      base.DidEndTransitioningAnimation(context, finished);
    }
  }
}
