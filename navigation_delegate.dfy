/** `NavigationTransitioningDelegate`: the delegate of a navigation
    controller that pops the top controller by an interactive pan and hands
    the toolkit the animators of pushes and pops.

    What the host reports (the recognizer's readings, the navigation
    controller's stack, whether the navigation controller still uses this
    delegate) is an input. The top controller's answers come from
    `NavigationProtocol` evaluated on the controllers of the stack with the
    application's overrides `ov`, except for the pop progress: the handler
    calls a three-argument `navigationInteractivePopCompletePercent` that the
    protocol does not declare, so that answer is the input `popPercent`,
    given the top controller, the current progress, a translation and the
    start point. Everything the delegate asks of the host is appended to
    `events`. */
module NavigationDelegate {
  import opened Common
  import opened ViewControllers
  import opened NavigationProtocol
  import PushPopAnimator

  /** The recognizer a gesture-delegate callback is about. */
  datatype NavRecognizerRef = OwnRecognizer | OtherRecognizer

  /** The animator handed to the toolkit: one an override supplies, or the
      library's `PushPopAnimatedTransitioning` with the given options. */
  datatype NavAnimatorChoice = CustomAnimator(id: AnimatorId) | DefaultPushPopAnimator(options: PushPopAnimator.PushPopAnimatedOption)

  /** The effects the delegate has on the host, in order. */
  datatype NavEvent =
    | AddRecognizer(navigation: VcId)
    | InstallNavigationDelegate(navigation: VcId)
    | RemoveRecognizer
    | RequestPop(navigation: VcId)
    | StartInteractivePop(controller: VcId)
    | UpdateTransition(percent: real)
    | FinishTransition
    | CancelTransition
    | FinishInteractivePop(controller: VcId)
    | CancelInteractivePop(controller: VcId)
    | ResetTranslation
    | AssignAnimatorDelegate(animator: NavAnimatorChoice)

  /** The threshold of the finish rule. */
  const PopFinishThreshold: real := 0.5

  /** The answer of the top controller to the three-argument pop progress
      call: (top controller, current progress, translation, start point). */
  type PopPercent = (VcId, real, Point, Point) -> real

  /** Every field of the delegate. The percent-driven transition is modelled
      by its `percentComplete`, None when there is no transition. */
  datatype NavState = NavState(
    navigation: Option<VcId>,
    hasGesture: bool,
    transition: Option<real>,
    interactiveTop: Option<VcId>,
    isInteractivePoping: bool,
    isTransitioning: bool,
    events: seq<NavEvent>)

  /** The invariant every step keeps: the delegate is popping exactly while
      it holds a transition, a recorded top controller comes with a
      transition, and the transition's percent lies in [0, 1]. */
  predicate ValidNavState(s: NavState) {
    && (s.isInteractivePoping <==> s.transition.Some?)
    && (s.interactiveTop.Some? ==> s.transition.Some?)
    && (s.transition.Some? ==> 0.0 <= s.transition.value <= 1.0)
  }

  /** The flags the protocol's status getters read. */
  function NavStatusOf(s: NavState): (r: NavStatus)
    ensures r.isInteractivePoping == s.isInteractivePoping && r.isTransitioning == s.isTransitioning
  {
    NavStatus(s.isInteractivePoping, s.isTransitioning)
  }

  /** `init(navigationController:)`: the recognizer goes on the navigation
      controller's view and the delegate becomes the controller's delegate. */
  function InitNavState(navigation: VcId): (r: NavState)
    ensures ValidNavState(r)
    ensures r.navigation == Some(navigation) && r.hasGesture
    ensures r.transition.None? && r.interactiveTop.None?
    ensures NavStatusOf(r) == NavStatus(false, false)
    ensures r.events == [AddRecognizer(navigation), InstallNavigationDelegate(navigation)]
  {
    NavState(Some(navigation), true, None, None, false, false,
             [AddRecognizer(navigation), InstallNavigationDelegate(navigation)])
  }

  /** A state change together with the answer of a callback. */
  datatype NavGate = NavGate(next: NavState, answer: bool)

  /** `checkDelegate()`: true while the navigation controller still uses
      this delegate; otherwise the recognizer is removed and the references
      to the navigation controller and the recorded top controller dropped. */
  function CheckDelegateStep(s: NavState, delegateIsSelf: bool): NavGate
  {
    if s.navigation.Some? && delegateIsSelf then NavGate(s, true)
    else
      var removal := if s.navigation.Some? && s.hasGesture then [RemoveRecognizer] else [];
      NavGate(s.(hasGesture := false, navigation := None, interactiveTop := None, events := s.events + removal), false)
  }

  lemma CheckDelegateStepProperties(s: NavState, delegateIsSelf: bool)
    ensures var r := CheckDelegateStep(s, delegateIsSelf);
      ValidNavState(s) ==> ValidNavState(r.next)
    ensures var r := CheckDelegateStep(s, delegateIsSelf);
      r.answer <==> s.navigation.Some? && delegateIsSelf
    ensures var r := CheckDelegateStep(s, delegateIsSelf);
      r.answer ==> r.next == s
    ensures var r := CheckDelegateStep(s, delegateIsSelf);
      !r.answer ==>
        && !r.next.hasGesture && r.next.navigation.None? && r.next.interactiveTop.None?
        && r.next.(hasGesture := s.hasGesture, navigation := s.navigation, interactiveTop := s.interactiveTop,
                   events := s.events) == s
        && (s.navigation.Some? && s.hasGesture <==> r.next.events == s.events + [RemoveRecognizer])
        && (!(s.navigation.Some? && s.hasGesture) <==> r.next.events == s.events)
  {
  }

  /** Once the check has failed the delegate is gone for good: every later
      check fails and changes nothing. */
  lemma NavCheckDelegateFailsForGood(s: NavState, first: bool, second: bool)
    requires !CheckDelegateStep(s, first).answer
    ensures CheckDelegateStep(CheckDelegateStep(s, first).next, second) == NavGate(CheckDelegateStep(s, first).next, false)
  {
  }

  /** The identity of the top controller of a stack. */
  function TopId(stack: seq<VC>): (r: Option<VcId>)
    ensures r.None? <==> stack == []
    ensures r.Some? ==> r.value == stack[|stack| - 1].id
  {
    if stack == [] then None else Some(stack[|stack| - 1].id)
  }

  /** The began state of the pop handler: unless the check fails, the top
      controller is recorded, a transition at 0 is created, the pop is
      requested and the top controller is told the pop started. */
  function PopBeganStep(s: NavState, stack: seq<VC>, delegateIsSelf: bool): NavState
  {
    var check := CheckDelegateStep(s, delegateIsSelf);
    if !check.answer then check.next
    else
      var top := TopId(stack);
      var start := if top.Some? then [StartInteractivePop(top.value)] else [];
      s.(interactiveTop := top, transition := Some(0.0), isInteractivePoping := true,
         events := s.events + [RequestPop(s.navigation.value)] + start)
  }

  lemma PopBeganStepProperties(s: NavState, stack: seq<VC>, delegateIsSelf: bool)
    ensures var r := PopBeganStep(s, stack, delegateIsSelf);
      ValidNavState(s) ==> ValidNavState(r)
    ensures var r := PopBeganStep(s, stack, delegateIsSelf);
      !(s.navigation.Some? && delegateIsSelf) ==> r == CheckDelegateStep(s, delegateIsSelf).next
    ensures var r := PopBeganStep(s, stack, delegateIsSelf);
      s.navigation.Some? && delegateIsSelf ==>
        && r.interactiveTop == TopId(stack) && r.transition == Some(0.0) && r.isInteractivePoping
        && r.(interactiveTop := s.interactiveTop, transition := s.transition,
              isInteractivePoping := s.isInteractivePoping, events := s.events) == s
        && r.events[..|s.events|] == s.events
        && r.events[|s.events|..] == [RequestPop(s.navigation.value)]
                                     + (if stack == [] then [] else [StartInteractivePop(stack[|stack| - 1].id)])
  {
    var r := PopBeganStep(s, stack, delegateIsSelf);
    if s.navigation.Some? && delegateIsSelf {
      var top := TopId(stack);
      var start := if top.Some? then [StartInteractivePop(top.value)] else [];
      assert r.events == s.events + ([RequestPop(s.navigation.value)] + start);
    }
  }

  /** The fraction the changed and end states start from: the top
      controller's progress for the translation added to the current
      progress, clamped to [0, 1]. */
  function PopFraction(s: NavState, top: VcId, g: GestureReading, popPercent: PopPercent): (f: real)
    ensures 0.0 <= f <= 1.0
    ensures f == ClampUnit(popPercent(top, s.transition.GetOr(0.0), g.translation, g.location) + s.transition.GetOr(0.0))
  {
    var progress := s.transition.GetOr(0.0);
    Max(Min(popPercent(top, progress, g.translation, g.location) + progress, 1.0), 0.0)
  }

  /** The fraction the end state decides with: the clamped fraction plus the
      top controller's progress for the velocity, not clamped again. */
  function PopEndFraction(s: NavState, top: VcId, g: GestureReading, popPercent: PopPercent): (f: real)
    ensures f - PopFraction(s, top, g, popPercent) == popPercent(top, PopFraction(s, top, g, popPercent), g.velocity, g.location)
  {
    var fraction := PopFraction(s, top, g, popPercent);
    fraction + popPercent(top, fraction, g.velocity, g.location)
  }

  /** The finish rule of the pop: a release at half the way or more. */
  predicate PopShouldFinish(state: GestureState, fraction: real) {
    state == Ended && fraction >= PopFinishThreshold
  }

  /** The changed state: the transition moves to the clamped fraction. */
  function PopChangedStep(s: NavState, top: VcId, g: GestureReading, popPercent: PopPercent): NavState
  {
    match s.transition
    case None => s
    case Some(_) =>
      var f := PopFraction(s, top, g, popPercent);
      s.(transition := Some(f), events := s.events + [UpdateTransition(f)])
  }

  lemma PopChangedStepProperties(s: NavState, top: VcId, g: GestureReading, popPercent: PopPercent)
    ensures var r := PopChangedStep(s, top, g, popPercent);
      ValidNavState(s) ==> ValidNavState(r)
    ensures var r := PopChangedStep(s, top, g, popPercent);
      s.transition.None? ==> r == s
    ensures var r := PopChangedStep(s, top, g, popPercent);
      s.transition.Some? ==>
        && r.transition == Some(PopFraction(s, top, g, popPercent))
        && r.events == s.events + [UpdateTransition(r.transition.value)]
        && 0.0 <= r.transition.value <= 1.0
        && r.(transition := s.transition, events := s.events) == s
  {
  }

  /** The end state, for every state other than began and changed: finish or
      cancel the transition and tell the top controller, then drop the
      transition and the top controller and stop popping. */
  function PopEndStep(s: NavState, top: VcId, g: GestureReading, popPercent: PopPercent): NavState
  {
    var finish := PopShouldFinish(g.state, PopEndFraction(s, top, g, popPercent));
    var transitionCall := if s.transition.None? then [] else if finish then [FinishTransition] else [CancelTransition];
    var callback := if finish then FinishInteractivePop(top) else CancelInteractivePop(top);
    s.(transition := None, interactiveTop := None, isInteractivePoping := false,
       events := s.events + transitionCall + [callback])
  }

  lemma PopEndStepProperties(s: NavState, top: VcId, g: GestureReading, popPercent: PopPercent)
    ensures var r := PopEndStep(s, top, g, popPercent);
      ValidNavState(r)
    ensures var r := PopEndStep(s, top, g, popPercent);
      && r.transition.None? && r.interactiveTop.None? && !r.isInteractivePoping
      && r.(transition := s.transition, interactiveTop := s.interactiveTop,
            isInteractivePoping := s.isInteractivePoping, events := s.events) == s
    ensures var r := PopEndStep(s, top, g, popPercent);
      var finish := PopShouldFinish(g.state, PopEndFraction(s, top, g, popPercent));
      && |r.events| > |s.events| && r.events[..|s.events|] == s.events
      && (r.events[|r.events| - 1] == FinishInteractivePop(top) || r.events[|r.events| - 1] == CancelInteractivePop(top))
      && (r.events[|r.events| - 1] == FinishInteractivePop(top) <==> finish)
    ensures var r := PopEndStep(s, top, g, popPercent);
      var finish := PopShouldFinish(g.state, PopEndFraction(s, top, g, popPercent));
      s.transition.Some? ==>
        && |r.events| == |s.events| + 2
        && (r.events[|s.events|] == FinishTransition <==> finish)
        && (r.events[|s.events|] == CancelTransition <==> !finish)
  {
  }

  /** `handleInteractiveGesture(gestureRecognizer:)`; `stack` is the
      navigation controller's `viewControllers`. Nothing happens once the
      navigation controller is gone; a state other than began without a
      recorded top controller only resets the translation. */
  function PopHandleStep(s: NavState, stack: seq<VC>, g: GestureReading, delegateIsSelf: bool, popPercent: PopPercent): NavState
  {
    if s.navigation.None? then s
    else if g.state == Began then PopBeganStep(s, stack, delegateIsSelf)
    else
      var moved := match s.interactiveTop
        case None => s
        case Some(top) =>
          if g.state == Changed then PopChangedStep(s, top, g, popPercent) else PopEndStep(s, top, g, popPercent);
      moved.(events := moved.events + [ResetTranslation])
  }

  lemma PopHandleStepProperties(s: NavState, stack: seq<VC>, g: GestureReading, delegateIsSelf: bool, popPercent: PopPercent)
    ensures var r := PopHandleStep(s, stack, g, delegateIsSelf, popPercent);
      ValidNavState(s) ==> ValidNavState(r)
    ensures var r := PopHandleStep(s, stack, g, delegateIsSelf, popPercent);
      s.navigation.Some? && g.state != Began && g.state != Changed && s.interactiveTop.Some? ==>
        r.transition.None? && r.interactiveTop.None? && !r.isInteractivePoping
    ensures var r := PopHandleStep(s, stack, g, delegateIsSelf, popPercent);
      s.navigation.Some? && g.state != Began && s.interactiveTop.None? ==>
        r == s.(events := s.events + [ResetTranslation])
    ensures var r := PopHandleStep(s, stack, g, delegateIsSelf, popPercent);
      s.navigation.Some? && g.state != Began ==> |r.events| > 0 && r.events[|r.events| - 1] == ResetTranslation
  {
    if s.navigation.Some? && g.state != Began && s.interactiveTop.Some? {
      var top := s.interactiveTop.value;
      if g.state == Changed {
        PopChangedStepProperties(s, top, g, popPercent);
      } else {
        PopEndStepProperties(s, top, g, popPercent);
      }
    }
  }

  /** An interactive pop from its first to its last recognizer state: the
      pop is requested and the top controller told it started; at the release
      the top controller is told exactly one of finish and cancel, finish
      when the end fraction reaches one half on a release, and the delegate
      is no longer popping. */
  lemma {:induction false} InteractivePop(s: NavState, stack: seq<VC>, g: GestureReading, popPercent: PopPercent)
    requires s.navigation.Some? && stack != []
    requires g.state != Began && g.state != Changed
    ensures var top := stack[|stack| - 1].id;
      var begun := PopHandleStep(s, stack, g.(state := Began), true, popPercent);
      var done := PopHandleStep(begun, stack, g, true, popPercent);
      var finish := PopShouldFinish(g.state, PopEndFraction(begun, top, g, popPercent));
      && begun.events[|s.events|..] == [RequestPop(s.navigation.value), StartInteractivePop(top)]
      && done.events[|begun.events|..] == [if finish then FinishTransition else CancelTransition,
                                           if finish then FinishInteractivePop(top) else CancelInteractivePop(top),
                                           ResetTranslation]
      && done.transition.None? && done.interactiveTop.None? && !done.isInteractivePoping
  {
    var top := stack[|stack| - 1].id;
    var begun := PopHandleStep(s, stack, g.(state := Began), true, popPercent);
    PopBeganStepProperties(s, stack, true);
    assert begun.interactiveTop == Some(top) && begun.transition == Some(0.0);
    var finish := PopShouldFinish(g.state, PopEndFraction(begun, top, g, popPercent));
    var outcome := [if finish then FinishTransition else CancelTransition,
                    if finish then FinishInteractivePop(top) else CancelInteractivePop(top),
                    ResetTranslation];
    var ended := PopEndStep(begun, top, g, popPercent);
    assert ended.events == begun.events + [outcome[0]] + [outcome[1]];
    var done := PopHandleStep(begun, stack, g, true, popPercent);
    assert done == ended.(events := ended.events + [ResetTranslation]);
    assert done.events == begun.events + outcome;
  }

  /** `gestureRecognizer(_:shouldReceive:)`; `stack` is the navigation
      controller's `viewControllers`. The delegate's own recognizer receives
      a touch only while the delegate is installed, no transition runs, the
      top controller is not the root and allows the interactive pop; the
      check comes first and may invalidate the delegate. */
  function PopShouldReceiveStep(s: NavState, ov: NavOverrides, rec: NavRecognizerRef, stack: seq<VC>, delegateIsSelf: bool): NavGate
  {
    if !(rec == OwnRecognizer && s.hasGesture) then NavGate(s, true)
    else if s.navigation.None? || stack == [] then NavGate(s, false)
    else
      var top := stack[|stack| - 1];
      var check := CheckDelegateStep(s, delegateIsSelf);
      if !check.answer then NavGate(check.next, false)
      else if s.isTransitioning || |stack| <= 1 || !IsNavigationInteractivePopEnabled(top) then NavGate(s, false)
      else NavGate(s, InteractivePopGestureShouldReceive(top, ov))
  }

  lemma PopShouldReceiveStepProperties(s: NavState, ov: NavOverrides, rec: NavRecognizerRef, stack: seq<VC>, delegateIsSelf: bool)
    ensures var r := PopShouldReceiveStep(s, ov, rec, stack, delegateIsSelf);
      ValidNavState(s) ==> ValidNavState(r.next)
    ensures var r := PopShouldReceiveStep(s, ov, rec, stack, delegateIsSelf);
      !(rec == OwnRecognizer && s.hasGesture) ==> r == NavGate(s, true)
    ensures var r := PopShouldReceiveStep(s, ov, rec, stack, delegateIsSelf);
      rec == OwnRecognizer && s.hasGesture ==>
        (r.answer <==>
           && s.navigation.Some? && delegateIsSelf && !s.isTransitioning && |stack| > 1
           && IsNavigationInteractivePopEnabled(stack[|stack| - 1])
           && InteractivePopGestureShouldReceive(stack[|stack| - 1], ov))
    ensures var r := PopShouldReceiveStep(s, ov, rec, stack, delegateIsSelf);
      rec == OwnRecognizer && s.hasGesture && s.navigation.Some? && stack != [] ==>
        r.next == CheckDelegateStep(s, delegateIsSelf).next
    ensures var r := PopShouldReceiveStep(s, ov, rec, stack, delegateIsSelf);
      !(s.navigation.Some? && stack != []) ==> r.next == s
  {
  }

  /** `gestureRecognizerShouldBegin(_:)`; `translation` is the own
      recognizer's translation. True for any other recognizer and whenever
      there is no top controller to ask. */
  function PopShouldBegin(s: NavState, ov: NavOverrides, rec: NavRecognizerRef, stack: seq<VC>, translation: Point): (r: bool)
    ensures !(rec == OwnRecognizer && s.hasGesture) || s.navigation.None? || stack == [] ==> r
    ensures rec == OwnRecognizer && s.hasGesture && s.navigation.Some? && stack != [] ==>
      r == InteractivePopGestureShouldBegin(stack[|stack| - 1], ov, translation)
  {
    if !(rec == OwnRecognizer && s.hasGesture) || s.navigation.None? || stack == [] then true
    else InteractivePopGestureShouldBegin(stack[|stack| - 1], ov, translation)
  }

  /** `gestureRecognizer(_:shouldBeRequiredToFailBy:)`: the own recognizer
      requires every other pan to fail, and nothing else does. */
  function PopRequiredToFail(s: NavState, rec: NavRecognizerRef, other: GestureKind): (r: bool)
    ensures r <==> rec == OwnRecognizer && s.hasGesture && other == PanGesture
  {
    rec == OwnRecognizer && s.hasGesture && other == PanGesture
  }

  /** `gestureRecognizer(_:shouldRecognizeSimultaneouslyWith:)`. */
  function PopRecognizesSimultaneously(s: NavState, rec: NavRecognizerRef): (r: bool)
    ensures r <==> rec == OwnRecognizer && s.hasGesture
  {
    rec == OwnRecognizer && s.hasGesture
  }

  /** Without overrides, any controller that is not the root of its stack
      and is not a tab bar controller with a selection on which the pop is
      disabled lets the own recognizer receive and begin, as long as the
      delegate is installed and idle. */
  lemma PopGatesWithoutOverrides(s: NavState, stack: seq<VC>, translation: Point)
    requires s.hasGesture && s.navigation.Some? && !s.isTransitioning && |stack| > 1
    requires IsNavigationInteractivePopEnabled(stack[|stack| - 1])
    ensures PopShouldReceiveStep(s, NoNavOverrides(), OwnRecognizer, stack, true) == NavGate(s, true)
    ensures PopShouldBegin(s, NoNavOverrides(), OwnRecognizer, stack, translation)
  {
    NavigationDefaultsWithoutOverrides(stack[|stack| - 1], Push, true, translation, Point(0.0, 0.0));
  }

  /** `navigationController(_:animationControllerFor:from:to:)` for a push
      or a pop: the controller that decides is the one pushed (`toVC`) or
      the one popped (`fromVC`); without its animator the library's push or
      pop animation is used. The `interactive` argument is true exactly when
      there is no interactive transition. */
  function NavAnimatorFor(s: NavState, ov: NavOverrides, op: NavigationOperation, fromVC: VC, toVC: VC): (r: Option<NavAnimatorChoice>)
    ensures op == NoOperation <==> r.None?
    ensures op == Push ==> r == Some(match NavigationControllerAnimatedTransitioning(toVC, ov, Push, s.transition.None?)
                                     case Some(a) => CustomAnimator(a)
                                     case None => DefaultPushPopAnimator(PushPopAnimator.NavigationPush))
    ensures op == Pop ==> r == Some(match NavigationControllerAnimatedTransitioning(fromVC, ov, Pop, s.transition.None?)
                                    case Some(a) => CustomAnimator(a)
                                    case None => DefaultPushPopAnimator(PushPopAnimator.NavigationPop))
  {
    match op
    case NoOperation => None
    case Push =>
      var custom := NavigationControllerAnimatedTransitioning(toVC, ov, Push, s.transition.None?);
      Some(if custom.Some? then CustomAnimator(custom.value) else DefaultPushPopAnimator(PushPopAnimator.NavigationPush))
    case Pop =>
      var custom := NavigationControllerAnimatedTransitioning(fromVC, ov, Pop, s.transition.None?);
      Some(if custom.Some? then CustomAnimator(custom.value) else DefaultPushPopAnimator(PushPopAnimator.NavigationPop))
  }

  /** The state after the provider: a handed-out animator gets the delegate
      and the delegate is transitioning; without an animator nothing changes. */
  function NavAnimatorStep(s: NavState, a: Option<NavAnimatorChoice>): (r: NavState)
    ensures ValidNavState(s) ==> ValidNavState(r)
    ensures a.None? ==> r == s
    ensures a.Some? ==> r.isTransitioning && r.events == s.events + [AssignAnimatorDelegate(a.value)]
    ensures r.(isTransitioning := s.isTransitioning, events := s.events) == s
  {
    match a
    case None => s
    case Some(choice) => s.(isTransitioning := true, events := s.events + [AssignAnimatorDelegate(choice)])
  }

  /** Without overrides a push slides in from the right and a pop slides out
      to the right, with the library's default push-pop animator. */
  lemma NavDefaultAnimators(s: NavState, fromVC: VC, toVC: VC)
    ensures NavAnimatorFor(s, NoNavOverrides(), Push, fromVC, toVC) == Some(DefaultPushPopAnimator(PushPopAnimator.NavigationPush))
    ensures NavAnimatorFor(s, NoNavOverrides(), Pop, fromVC, toVC) == Some(DefaultPushPopAnimator(PushPopAnimator.NavigationPop))
    ensures PushPopAnimator.Contains(PushPopAnimator.NavigationPush, PushPopAnimator.PushOption)
    ensures PushPopAnimator.Contains(PushPopAnimator.NavigationPop, PushPopAnimator.PopOption)
  {
    NavigationDefaultsWithoutOverrides(toVC, Push, s.transition.None?, Point(0.0, 0.0), Point(0.0, 0.0));
    NavigationDefaultsWithoutOverrides(fromVC, Pop, s.transition.None?, Point(0.0, 0.0), Point(0.0, 0.0));
    PushPopAnimator.NamedOptions();
  }

  /** The end of an animation clears the transitioning flag; a handed-out
      animator followed by its end leaves the flags as they were before,
      but for the flag itself. */
  function NavDidEndStep(s: NavState): (r: NavState)
    ensures ValidNavState(s) ==> ValidNavState(r)
    ensures !r.isTransitioning && r.(isTransitioning := s.isTransitioning) == s
  {
    s.(isTransitioning := false)
  }

  lemma AnimatorThenEnd(s: NavState, a: NavAnimatorChoice)
    ensures NavDidEndStep(NavAnimatorStep(s, Some(a))) == s.(isTransitioning := false, events := s.events + [AssignAnimatorDelegate(a)])
    ensures NavAnimatorStep(s, Some(a)).isTransitioning
  {
  }

  class NavigationTransitioningDelegate {
    /** The weak `navigationController`. */
    var navigationController: Option<VcId>
    /** Whether the delegate still holds its pan recognizer. */
    var hasInteractiveGestureRecognizer: bool
    /** The `percentComplete` of `interactiveTransition`; None when nil. */
    var interactiveTransition: Option<real>
    var interactiveTopViewController: Option<VcId>
    var isInteractivePoping: bool
    var isTransitioning: bool
    var events: seq<NavEvent>

    function State(): NavState
      reads this
    {
      NavState(navigationController, hasInteractiveGestureRecognizer, interactiveTransition,
               interactiveTopViewController, isInteractivePoping, isTransitioning, events)
    }

    predicate Valid()
      reads this
    {
      ValidNavState(State())
    }

    /** `init(navigationController:)`. */
    constructor (navigationController: VcId)
      ensures State() == InitNavState(navigationController) && Valid()
    {
      this.navigationController := Some(navigationController);
      interactiveTransition := None;
      interactiveTopViewController := None;
      isInteractivePoping := false;
      isTransitioning := false;
      events := [AddRecognizer(navigationController)];
      events := events + [InstallNavigationDelegate(navigationController)];
      hasInteractiveGestureRecognizer := true;
    }

    /** `checkDelegate()`. */
    method CheckDelegate(delegateIsSelf: bool) returns (ok: bool)
      requires Valid()
      modifies this
      ensures Valid()
      ensures State() == CheckDelegateStep(old(State()), delegateIsSelf).next
      ensures ok == CheckDelegateStep(old(State()), delegateIsSelf).answer
    {
      if navigationController.Some? && delegateIsSelf {
        return true;
      }
      if hasInteractiveGestureRecognizer {
        if navigationController.Some? {
          events := events + [RemoveRecognizer];
        }
        hasInteractiveGestureRecognizer := false;
      }
      navigationController := None;
      interactiveTopViewController := None;
      return false;
    }

    /** `handleInteractiveGesture(gestureRecognizer:)`. */
    method HandleInteractiveGesture(g: GestureReading, stack: seq<VC>, delegateIsSelf: bool, popPercent: PopPercent)
      requires Valid()
      modifies this
      ensures Valid()
      ensures State() == PopHandleStep(old(State()), stack, g, delegateIsSelf, popPercent)
    {
      if navigationController.None? {
        return;
      }
      var navi := navigationController.value;
      if g.state == Began {
        var ok := CheckDelegate(delegateIsSelf);
        if !ok {
          return;
        }
        interactiveTopViewController := TopId(stack);
        interactiveTransition := Some(0.0);
        isInteractivePoping := true;
        events := events + [RequestPop(navi)];
        if interactiveTopViewController.Some? {
          events := events + [StartInteractivePop(interactiveTopViewController.value)];
        }
      } else {
        if interactiveTopViewController.None? {
          events := events + [ResetTranslation];
          return;
        }
        var top := interactiveTopViewController.value;
        if g.state == Changed {
          PopChanged(top, g, popPercent);
        } else {
          PopEnd(top, g, popPercent);
        }
        events := events + [ResetTranslation];
      }
    }

    /** The changed branch of the handler. */
    method PopChanged(top: VcId, g: GestureReading, popPercent: PopPercent)
      requires Valid()
      modifies this
      ensures Valid()
      ensures State() == PopChangedStep(old(State()), top, g, popPercent)
    {
      var currentProgress := interactiveTransition.GetOr(0.0);
      var fraction := popPercent(top, currentProgress, g.translation, g.location) + currentProgress;
      fraction := Max(Min(fraction, 1.0), 0.0);
      if interactiveTransition.Some? {
        interactiveTransition := Some(fraction);
        events := events + [UpdateTransition(fraction)];
      }
    }

    /** The end branch of the handler. */
    method PopEnd(top: VcId, g: GestureReading, popPercent: PopPercent)
      requires Valid()
      modifies this
      ensures Valid()
      ensures State() == PopEndStep(old(State()), top, g, popPercent)
    {
      var currentProgress := interactiveTransition.GetOr(0.0);
      var fraction := popPercent(top, currentProgress, g.translation, g.location) + currentProgress;
      fraction := Max(Min(fraction, 1.0), 0.0);
      fraction := fraction + popPercent(top, fraction, g.velocity, g.location);
      if g.state == Ended && fraction >= PopFinishThreshold {
        if interactiveTransition.Some? {
          events := events + [FinishTransition];
        }
        events := events + [FinishInteractivePop(top)];
      } else {
        if interactiveTransition.Some? {
          events := events + [CancelTransition];
        }
        events := events + [CancelInteractivePop(top)];
      }
      interactiveTransition := None;
      interactiveTopViewController := None;
      isInteractivePoping := false;
    }

    /** `viewControllerAnimatedTransitioning(_:didEndTransitioning:)`. */
    method DidEndTransitioning(completed: bool)
      requires Valid()
      modifies this
      ensures Valid()
      ensures State() == NavDidEndStep(old(State()))
    {
      isTransitioning := false;
    }

    /** `gestureRecognizer(_:shouldReceive:)`. */
    method GestureRecognizerShouldReceive(rec: NavRecognizerRef, stack: seq<VC>, delegateIsSelf: bool, ov: NavOverrides) returns (b: bool)
      requires Valid()
      modifies this
      ensures Valid()
      ensures State() == PopShouldReceiveStep(old(State()), ov, rec, stack, delegateIsSelf).next
      ensures b == PopShouldReceiveStep(old(State()), ov, rec, stack, delegateIsSelf).answer
    {
      if !(rec == OwnRecognizer && hasInteractiveGestureRecognizer) {
        return true;
      }
      if navigationController.None? || stack == [] {
        return false;
      }
      var top := stack[|stack| - 1];
      var ok := CheckDelegate(delegateIsSelf);
      if !ok || isTransitioning || |stack| <= 1 || !IsNavigationInteractivePopEnabled(top) {
        return false;
      }
      return InteractivePopGestureShouldReceive(top, ov);
    }

    /** `gestureRecognizerShouldBegin(_:)`. */
    function GestureRecognizerShouldBegin(rec: NavRecognizerRef, stack: seq<VC>, translation: Point, ov: NavOverrides): (r: bool)
      reads this
      ensures r == PopShouldBegin(State(), ov, rec, stack, translation)
    {
      if !(rec == OwnRecognizer && hasInteractiveGestureRecognizer) || navigationController.None? || stack == [] then true
      else InteractivePopGestureShouldBegin(stack[|stack| - 1], ov, translation)
    }

    /** `gestureRecognizer(_:shouldBeRequiredToFailBy:)`. */
    function ShouldBeRequiredToFailBy(rec: NavRecognizerRef, other: GestureKind): (r: bool)
      reads this
      ensures r == PopRequiredToFail(State(), rec, other)
    {
      rec == OwnRecognizer && hasInteractiveGestureRecognizer && other == PanGesture
    }

    /** `gestureRecognizer(_:shouldRecognizeSimultaneouslyWith:)`. */
    function ShouldRecognizeSimultaneouslyWith(rec: NavRecognizerRef): (r: bool)
      reads this
      ensures r == PopRecognizesSimultaneously(State(), rec)
    {
      rec == OwnRecognizer && hasInteractiveGestureRecognizer
    }

    /** `navigationController(_:interactionControllerFor:)`: whether there is
        an interactive transition to hand out. */
    function InteractionController(): (r: bool)
      reads this
      ensures r <==> State().transition.Some?
    {
      interactiveTransition.Some?
    }

    /** `navigationController(_:animationControllerFor:from:to:)`. */
    method AnimationControllerFor(op: NavigationOperation, fromVC: VC, toVC: VC, ov: NavOverrides)
      returns (a: Option<NavAnimatorChoice>)
      requires Valid()
      modifies this
      ensures Valid()
      ensures a == NavAnimatorFor(old(State()), ov, op, fromVC, toVC)
      ensures State() == NavAnimatorStep(old(State()), a)
    {
      var transitioning: Option<NavAnimatorChoice>;
      match op {
        case NoOperation =>
          return None;
        case Push =>
          var custom := NavigationControllerAnimatedTransitioning(toVC, ov, Push, interactiveTransition.None?);
          transitioning := Some(if custom.Some? then CustomAnimator(custom.value)
                                else DefaultPushPopAnimator(PushPopAnimator.NavigationPush));
        case Pop =>
          var custom := NavigationControllerAnimatedTransitioning(fromVC, ov, Pop, interactiveTransition.None?);
          transitioning := Some(if custom.Some? then CustomAnimator(custom.value)
                                else DefaultPushPopAnimator(PushPopAnimator.NavigationPop));
      }
      events := events + [AssignAnimatorDelegate(transitioning.value)];
      isTransitioning := true;
      return transitioning;
    }
  }
}
