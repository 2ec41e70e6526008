/** `PushPopAnimatedTransitioning`, the default animator of a navigation
    transition: the incoming view slides in from one side while the outgoing
    view is pushed a little (or all the way) towards the other side. The
    direction and the kind of movement are an option set. */
module PushPopAnimator {
  import opened Common
  import opened BasicAnimator

  /** `PushPopAnimatedOption`, an option set over the bits of its raw value. */
  datatype PushPopAnimatedOption = PushPopAnimatedOption(rawValue: bv64)

  const LeftOption := PushPopAnimatedOption(1 << 0)
  const RightOption := PushPopAnimatedOption(1 << 1)
  const PushOption := PushPopAnimatedOption(1 << 2)
  const PopOption := PushPopAnimatedOption(1 << 3)

  /** The option set holding the members of both. */
  function Union(a: PushPopAnimatedOption, b: PushPopAnimatedOption): (r: PushPopAnimatedOption)
    ensures Contains(r, a) && Contains(r, b)
  {
    PushPopAnimatedOption(a.rawValue | b.rawValue)
  }

  /** `contains(_:)`: every bit of `member` is set. */
  predicate Contains(options: PushPopAnimatedOption, member: PushPopAnimatedOption) {
    options.rawValue & member.rawValue == member.rawValue
  }

  const LeftPush := Union(LeftOption, PushOption)
  const LeftPop := Union(LeftOption, PopOption)
  const RightPush := Union(RightOption, PushOption)
  const RightPop := Union(RightOption, PopOption)

  const NavigationPop := RightPop
  const NavigationPush := LeftPush

  /** The four named combinations hold exactly the members they are built
      from; in particular the navigation push comes from the left and the
      navigation pop goes to the right. */
  lemma NamedOptions()
    ensures LeftPush.rawValue == 5 && LeftPop.rawValue == 9 && RightPush.rawValue == 6 && RightPop.rawValue == 10
    ensures Contains(NavigationPush, PushOption) && Contains(NavigationPush, LeftOption)
    ensures !Contains(NavigationPush, PopOption) && !Contains(NavigationPush, RightOption)
    ensures Contains(NavigationPop, PopOption) && Contains(NavigationPop, RightOption)
    ensures !Contains(NavigationPop, PushOption) && !Contains(NavigationPop, LeftOption)
  {
  }

  /** `(contains(member) ? width : -width)`, the signed width the animator
      shifts a view by. */
  function SignedWidth(options: PushPopAnimatedOption, member: PushPopAnimatedOption, width: real): (r: real)
    ensures Contains(options, member) ==> r == width
    ensures !Contains(options, member) ==> r == -width
  {
    if Contains(options, member) then width else -width
  }

  /** Where the incoming view starts: a whole width beside its final frame for
      a push, 30% of a width beside it otherwise. */
  function ToViewStartFrame(options: PushPopAnimatedOption, finalFrame: Rect): (r: Rect)
    ensures r.y == finalFrame.y && r.width == finalFrame.width && r.height == finalFrame.height
    ensures Contains(options, PushOption) ==> r.x == finalFrame.x + SignedWidth(options, LeftOption, finalFrame.width)
    ensures !Contains(options, PushOption) ==> r.x == finalFrame.x + SignedWidth(options, LeftOption, finalFrame.width) * 0.3
  {
    if Contains(options, PushOption)
    then finalFrame.OffsetBy(SignedWidth(options, LeftOption, finalFrame.width), 0.0)
    else finalFrame.OffsetBy(SignedWidth(options, LeftOption, finalFrame.width) * 0.3, 0.0)
  }

  /** Where the outgoing view ends: 30% of a width beside its initial frame
      for a push, a whole width beside it otherwise. */
  function FromViewEndFrame(options: PushPopAnimatedOption, initialFrame: Rect, width: real): (r: Rect)
    ensures r.y == initialFrame.y && r.width == initialFrame.width && r.height == initialFrame.height
    ensures Contains(options, PushOption) ==> r.x == initialFrame.x + SignedWidth(options, RightOption, width) * 0.3
    ensures !Contains(options, PushOption) ==> r.x == initialFrame.x + SignedWidth(options, RightOption, width)
  {
    if Contains(options, PushOption)
    then initialFrame.OffsetBy(SignedWidth(options, RightOption, width) * 0.3, 0.0)
    else initialFrame.OffsetBy(SignedWidth(options, RightOption, width), 0.0)
  }

  /** Whether the context hands out everything the animator needs. */
  predicate HasEverything(context: TransitionContext) {
    context.hasToController && context.hasFromController && context.hasToView && context.hasFromView
  }

  /** The calls before the animation: place the incoming view, then add it on
      top for a push or below the outgoing view otherwise. */
  function PushPopSetup(options: PushPopAnimatedOption, context: TransitionContext): (r: seq<TransitionCall>)
    ensures |r| == 2 && r[0] == SetFrame(ToView, ToViewStartFrame(options, context.finalFrameOfTo))
    ensures Contains(options, PushOption) ==> r[1] == AddSubview(ToView)
    ensures !Contains(options, PushOption) ==> r[1] == InsertSubviewBelow(ToView, FromView)
  {
    [SetFrame(ToView, ToViewStartFrame(options, context.finalFrameOfTo)),
     if Contains(options, PushOption) then AddSubview(ToView) else InsertSubviewBelow(ToView, FromView)]
  }

  /** The effects of the animation block: the incoming controller's view
      reaches the final frame, the outgoing view moves away, then the custom
      animations run when there are any. */
  function PushPopAnimationBlock(options: PushPopAnimatedOption, hasAnimations: bool, context: TransitionContext): (r: seq<TransitionCall>)
    ensures |r| >= 2 && r[0] == SetFrame(ToControllerView, context.finalFrameOfTo)
    ensures r[1] == SetFrame(FromView, FromViewEndFrame(options, context.initialFrameOfFrom, context.finalFrameOfTo.width))
    ensures |r| == (if hasAnimations then 3 else 2)
    ensures hasAnimations ==> r[2] == RunCustomAnimations
  {
    [SetFrame(ToControllerView, context.finalFrameOfTo),
     SetFrame(FromView, FromViewEndFrame(options, context.initialFrameOfFrom, context.finalFrameOfTo.width))]
    + (if hasAnimations then [RunCustomAnimations] else [])
  }

  /** Everything `animateTransition(using:)` does with one context: nothing
      unless both controllers and both views are there, and otherwise the
      setup, the animation, its block and the base class's completion. */
  function PushPopCalls(options: PushPopAnimatedOption, hasAnimations: bool, context: TransitionContext,
                        duration: real, delegate: Option<DelegateId>): (r: seq<TransitionCall>)
    ensures !HasEverything(context) ==> r == []
    ensures HasEverything(context) ==> |r| > 2 && r[..2] == PushPopSetup(options, context) && r[2] == AnimateWithDuration(duration)
  {
    if !HasEverything(context) then []
    else PushPopSetup(options, context) + [AnimateWithDuration(duration)]
         + PushPopAnimationBlock(options, hasAnimations, context) + CompletionCalls(context, delegate)
  }

  /** The transition is reported complete exactly once, as the last calls,
      when the context has everything, and never otherwise. */
  lemma PushPopCallsCompleteOnce(options: PushPopAnimatedOption, hasAnimations: bool, context: TransitionContext,
                                 duration: real, delegate: Option<DelegateId>)
    ensures CompletionCount(PushPopCalls(options, hasAnimations, context, duration, delegate))
            == if HasEverything(context) then 1 else 0
    ensures var r := PushPopCalls(options, hasAnimations, context, duration, delegate);
      HasEverything(context) ==>
      && |r| >= |CompletionCalls(context, delegate)|
      && r[|r| - |CompletionCalls(context, delegate)|..] == CompletionCalls(context, delegate)
  {
    if HasEverything(context) {
      var front := PushPopSetup(options, context) + [AnimateWithDuration(duration)]
                   + PushPopAnimationBlock(options, hasAnimations, context);
      var done := CompletionCalls(context, delegate);
      CompletionCountZero(front);
      CompletionCountAppend(front, done);
      assert (front + done)[|front + done| - |done|..] == done;
    }
  }

  /** The navigation push slides the incoming view in from a whole width to
      the right and moves the outgoing view 30% of a width to the left; the
      navigation pop inserts the incoming view below, 30% of a width to the
      left, and moves the outgoing view a whole width to the right. */
  lemma NavigationDirections(context: TransitionContext)
    ensures var f := context.finalFrameOfTo;
      && ToViewStartFrame(NavigationPush, f).x == f.x + f.width
      && FromViewEndFrame(NavigationPush, context.initialFrameOfFrom, f.width).x == context.initialFrameOfFrom.x - f.width * 0.3
      && ToViewStartFrame(NavigationPop, f).x == f.x - f.width * 0.3
      && FromViewEndFrame(NavigationPop, context.initialFrameOfFrom, f.width).x == context.initialFrameOfFrom.x + f.width
      && PushPopSetup(NavigationPush, context)[1] == AddSubview(ToView)
      && PushPopSetup(NavigationPop, context)[1] == InsertSubviewBelow(ToView, FromView)
  {
    NamedOptions();
  }

  class PushPopAnimatedTransitioning {
    const base: BasicViewControllerAnimatedTransitioning
    const options: PushPopAnimatedOption
    /** Whether a custom `animations` closure was given. */
    const hasAnimations: bool

    /** `init(type:)` and `init(type:animations:)`. The property's initial
        value, the navigation push, is always replaced by `options`. */
    constructor (options: PushPopAnimatedOption, hasAnimations: bool)
      ensures this.options == options && this.hasAnimations == hasAnimations
      ensures fresh(base) && base.delegate.None? && base.transitionDuration == DefaultTransitionDuration && base.calls == []
    {
      this.options := options;
      this.hasAnimations := hasAnimations;
      base := new BasicViewControllerAnimatedTransitioning();
    }

    /** `animateTransition(using:)`; `finished` is what the animation's
        completion reports, which the base class ignores. */
    method AnimateTransition(context: TransitionContext, finished: bool)
      modifies base`calls
      ensures base.calls == old(base.calls)
        + PushPopCalls(options, hasAnimations, context, base.TransitionDurationUsing(Some(context)), base.delegate)
    {
      if !(context.hasToController && context.hasFromController && context.hasToView && context.hasFromView) {
        return;
      }
      var initialFrame := context.initialFrameOfFrom;
      var finalFrame := context.finalFrameOfTo;
      var viewWidth := finalFrame.width;
      if Contains(options, PushOption) {
        base.calls := base.calls + [SetFrame(ToView, finalFrame.OffsetBy(if Contains(options, LeftOption) then viewWidth else -viewWidth, 0.0))];
        base.calls := base.calls + [AddSubview(ToView)];
      } else {
        base.calls := base.calls + [SetFrame(ToView, finalFrame.OffsetBy((if Contains(options, LeftOption) then viewWidth else -viewWidth) * 0.3, 0.0))];
        base.calls := base.calls + [InsertSubviewBelow(ToView, FromView)];
      }
      assert base.calls == old(base.calls) + PushPopSetup(options, context);
      var duration := base.TransitionDurationUsing(Some(context));
      base.calls := base.calls + [AnimateWithDuration(duration)];
      Animations(context);
      base.DidEndTransitioningAnimation(context, finished);
      AppendLog(old(base.calls), PushPopSetup(options, context), [AnimateWithDuration(duration)],
                 PushPopAnimationBlock(options, hasAnimations, context), CompletionCalls(context, base.delegate));
    }

    /** The `animations` closure passed to `UIView.animate`. */
    method Animations(context: TransitionContext)
      modifies base`calls
      ensures base.calls == old(base.calls) + PushPopAnimationBlock(options, hasAnimations, context)
    {
      var viewWidth := context.finalFrameOfTo.width;
      base.calls := base.calls + [SetFrame(ToControllerView, context.finalFrameOfTo)];
      if Contains(options, PushOption) {
        base.calls := base.calls + [SetFrame(FromView, context.initialFrameOfFrom.OffsetBy((if Contains(options, RightOption) then viewWidth else -viewWidth) * 0.3, 0.0))];
      } else {
        base.calls := base.calls + [SetFrame(FromView, context.initialFrameOfFrom.OffsetBy(if Contains(options, RightOption) then viewWidth else -viewWidth, 0.0))];
      }
      if hasAnimations {
        base.calls := base.calls + [RunCustomAnimations];
      }
    }
  }
}
