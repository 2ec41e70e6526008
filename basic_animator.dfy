/** `BasicViewControllerAnimatedTransitioning`, the base class of the
    library's animators. An animator talks to the transition context, to the
    context's views and controllers and to its own delegate; the model
    records those calls, in order, in `calls`. What the transition context
    reports (which controllers and views it has, their frames, whether the
    transition is animated and whether it was cancelled) is an input. */
module BasicAnimator {
  import opened Common

  /** `PresentAnimatedType`. */
  datatype PresentAnimatedType = PresentAnimation | DismissAnimation

  /** Identity of a `BasicViewControllerAnimatedTransitioningDelegate`. */
  type DelegateId = nat

  /** The views an animator moves: the context's `from` and `to` views, and
      the root view of the `to` controller (`toVC.view`), which the context
      may or may not hand out as its `to` view. */
  datatype ViewKey = FromView | ToView | ToControllerView

  datatype ControllerKey = FromController | ToController

  /** One call an animator makes, in the order it makes them. The effects of
      an animation block are recorded after `AnimateWithDuration`, and what
      its completion closure does after those. */
  datatype TransitionCall =
    | AddSubview(view: ViewKey)
    | InsertSubviewBelow(view: ViewKey, sibling: ViewKey)
    | SetFrame(view: ViewKey, frame: Rect)
    | BeginAppearanceTransition(controller: ControllerKey, isAppearing: bool)
    | EndAppearanceTransition(controller: ControllerKey)
    | AnimateWithDuration(duration: real)
    | RunCustomAnimations
    | CompleteTransition(didComplete: bool)
    | NotifyDelegate(delegate: DelegateId, completed: bool)

  /** What `UIViewControllerContextTransitioning` reports. */
  datatype TransitionContext = TransitionContext(
    hasToController: bool,
    hasFromController: bool,
    hasToView: bool,
    hasFromView: bool,
    containerFrame: Rect,
    initialFrameOfFrom: Rect,
    finalFrameOfTo: Rect,
    isAnimated: bool,
    transitionWasCancelled: bool)

  /** The initial value of `transitionDuration`. */
  const DefaultTransitionDuration: real := 0.3

  /** `transitionDuration(using:)`: the configured duration for an animated
      context and 0 for a context that is not animated or absent. */
  function TransitionDuration(configured: real, context: Option<TransitionContext>): (r: real)
    ensures context.Some? && context.value.isAnimated ==> r == configured
    ensures context.None? || !context.value.isAnimated ==> r == 0.0
  {
    if context.Some? && context.value.isAnimated then configured else 0.0
  }

  /** The number of `CompleteTransition` calls in `calls`. */
  function CompletionCount(calls: seq<TransitionCall>): (n: nat)
    ensures n <= |calls|
  {
    if calls == [] then 0
    else (if calls[0].CompleteTransition? then 1 else 0) + CompletionCount(calls[1..])
  }

  /** No completion is counted exactly when no call is a completion. */
  lemma {:induction false} CompletionCountZero(calls: seq<TransitionCall>)
    ensures CompletionCount(calls) == 0 <==> forall i :: 0 <= i < |calls| ==> !calls[i].CompleteTransition?
  {
    if calls != [] {
      CompletionCountZero(calls[1..]);
      assert forall i :: 1 <= i < |calls| ==> calls[i] == calls[1..][i - 1];
    }
  }

  lemma {:induction false} CompletionCountAppend(a: seq<TransitionCall>, b: seq<TransitionCall>)
    ensures CompletionCount(a + b) == CompletionCount(a) + CompletionCount(b)
  {
    if a == [] {
      assert a + b == b;
    } else {
      assert (a + b)[1..] == a[1..] + b;
      CompletionCountAppend(a[1..], b);
    }
  }

  /** `didEndTransitioningAnimation(transitionContext:isFinished:)`: the
      context is completed with "not cancelled", and then the delegate, when
      there is one, is told the same flag. `isFinished` plays no part. */
  function CompletionCalls(context: TransitionContext, delegate: Option<DelegateId>): (r: seq<TransitionCall>)
    ensures |r| >= 1 && r[0] == CompleteTransition(!context.transitionWasCancelled)
    ensures delegate.None? ==> |r| == 1
    ensures delegate.Some? ==> |r| == 2 && r[1] == NotifyDelegate(delegate.value, !context.transitionWasCancelled)
    ensures CompletionCount(r) == 1
  {
    var complete := [CompleteTransition(!context.transitionWasCancelled)];
    var r := complete + if delegate.Some? then [NotifyDelegate(delegate.value, !context.transitionWasCancelled)] else [];
    CompletionCountAppend(complete, r[1..]);
    assert r == complete + r[1..];
    r
  }

  class BasicViewControllerAnimatedTransitioning {
    /** The weak `delegate`; None once nobody holds the delegate. */
    var delegate: Option<DelegateId>
    var transitionDuration: real
    /** Everything this animator has asked of contexts, views and delegates. */
    var calls: seq<TransitionCall>

    constructor ()
      ensures delegate.None? && transitionDuration == DefaultTransitionDuration && calls == []
    {
      delegate := None;
      transitionDuration := DefaultTransitionDuration;
      calls := [];
    }

    method SetDelegate(d: Option<DelegateId>)
      modifies this`delegate
      ensures delegate == d
    {
      delegate := d;
    }

    function TransitionDurationUsing(context: Option<TransitionContext>): (r: real)
      reads this
      ensures r == TransitionDuration(transitionDuration, context)
    {
      TransitionDuration(transitionDuration, context)
    }

    method DidEndTransitioningAnimation(context: TransitionContext, isFinished: bool)
      modifies this`calls
      ensures calls == old(calls) + CompletionCalls(context, delegate)
    {
      var isCompleted := !context.transitionWasCancelled;
      calls := calls + [CompleteTransition(isCompleted)];
      if delegate.Some? {
        calls := calls + [NotifyDelegate(delegate.value, isCompleted)];
      }
    }

    /** The base class's `animateTransition(using:)` reports completion at once. */
    method AnimateTransition(context: TransitionContext)
      modifies this`calls
      ensures calls == old(calls) + CompletionCalls(context, delegate)
    {
      DidEndTransitioningAnimation(context, true);
    }
  }
}
