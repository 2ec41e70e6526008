/** `ViewControllerTransitionDelegate`: the transitioning delegate a presented
    view controller installs to be dismissed, or to present a further
    controller, by an interactive pan. The delegate is a state machine driven
    by the pan recognizer's states and by the host toolkit's callbacks.

    What the host reports (the recognizer's state, location, translation and
    velocity, whether the presented controller still uses this delegate) is
    an input. The presented controller's answers to the protocol defaults
    come from `ModalProtocol` evaluated on a snapshot `vc` of that controller
    with the application's overrides `ov`. Everything the delegate asks of
    the host (present, dismiss, drive the percent-driven transition, add or
    remove recognizers, notify the controller) is appended to `events`. */
module ModalDelegate {
  import opened Common
  import opened ViewControllers
  import opened ModalProtocol
  import BasicAnimator

  /** `UIPanGestureRecognizer`, as far as the delegate configures it. */
  datatype PanRecognizer = PanRecognizer(enabled: bool, maximumNumberOfTouches: nat)

  /** The recognizer a gesture-delegate callback is about: the delegate's own
      interactive recognizer, the recognizer it adds to a present-to target to
      cancel that presentation, or any other recognizer. */
  datatype RecognizerRef = MainRecognizer | PresentToDismissRecognizer | ForeignRecognizer

  /** The effects the delegate has on the host, in order. */
  datatype ModalEvent =
    | SetCustomPresentationStyle(controller: VcId)
    | AddRecognizer(controller: VcId, recognizer: RecognizerRef)
    | RemoveRecognizer(controller: VcId, recognizer: RecognizerRef)
    | InstallTransitioningDelegate(controller: VcId)
    | RequestDismissal(presenting: VcId)
    | RequestPresentation(presenter: VcId, target: VcId)
    | StartInteractive(controller: VcId, kind: ModalTransitioningType)
    | FinishInteractive(controller: VcId, kind: ModalTransitioningType)
    | CancelInteractive(controller: VcId, kind: ModalTransitioningType)
    | UpdateTransition(percent: real)
    | FinishTransition
    | CancelTransition
    | ResetTranslation
    | InterruptRecognizer
    | InstallNewDelegate(controller: VcId)
    | AssignAnimatorDelegate(animator: AnimatorChoice)

  /** The animator a provider hands to the toolkit: one an override supplies,
      or the library's `PresentAnimatedTransitioning` of the given type. */
  datatype AnimatorChoice = CustomAnimator(id: AnimatorId) | DefaultPresentAnimator(kind: BasicAnimator.PresentAnimatedType)

  /** The presentation controller a provider hands out: one an override
      supplies, or a plain `UIPresentationController`. */
  datatype PresentationChoice = CustomPresentation(id: PresentationControllerId) | PlainPresentation

  /** The threshold of the finish rule. */
  const FinishThreshold: real := 0.4

  /** Every field of the delegate. The percent-driven transition is modelled
      by its existence; everything done to it is an event. */
  datatype ModalState = ModalState(
    presented: Option<VcId>,
    gesture: Option<PanRecognizer>,
    interactiveTransition: bool,
    interactivePresenting: Option<VcId>,
    currentType: ModalTransitioningType,
    percentComplete: real,
    presentTo: Option<VcId>,
    presentToDismissGesture: Option<VcId>,
    isInteractiveDismissing: bool,
    isInteractivePresentTo: bool,
    isTransitioning: bool,
    events: seq<ModalEvent>)

  /** The invariant every step keeps: the accumulated percent is never
      negative, the own recognizer takes one touch, and while there is a
      present-to target the cancelling recognizer sits on that target (which
      is what makes the forced unwrap at the end of the animation safe). */
  predicate ValidState(s: ModalState) {
    && s.percentComplete >= 0.0
    && (s.gesture.Some? ==> s.gesture.value.maximumNumberOfTouches == 1)
    && (s.presentTo.Some? ==> s.presentToDismissGesture == s.presentTo)
  }

  /** The flags the protocol's status getters read. */
  function Status(s: ModalState): (r: ModalStatus)
    ensures r.isInteractiveDismissing == s.isInteractiveDismissing
    ensures r.isInteractivePresentTo == s.isInteractivePresentTo && r.isTransitioning == s.isTransitioning
  {
    ModalStatus(s.isInteractiveDismissing, s.isInteractivePresentTo, s.isTransitioning)
  }

  predicate GestureEnabled(s: ModalState) {
    s.gesture.Some? && s.gesture.value.enabled
  }

  function EnableRecognizer(g: Option<PanRecognizer>): (r: Option<PanRecognizer>)
    ensures r.Some? <==> g.Some?
    ensures g.Some? ==> r.value.enabled && r.value.maximumNumberOfTouches == g.value.maximumNumberOfTouches
  {
    match g
    case Some(p) => Some(p.(enabled := true))
    case None => None
  }

  /** `init(presentedViewController:)`. */
  function InitState(presented: VcId): (r: ModalState)
    ensures ValidState(r)
    ensures r.gesture == Some(PanRecognizer(false, 1)) && r.presented == Some(presented)
    ensures r.currentType == NoTransition && r.percentComplete == 0.0 && !r.interactiveTransition
    ensures r.presentTo.None? && r.presentToDismissGesture.None? && r.interactivePresenting.None?
    ensures Status(r) == ModalStatus(false, false, false)
    ensures r.events == [SetCustomPresentationStyle(presented), AddRecognizer(presented, MainRecognizer),
                         InstallTransitioningDelegate(presented)]
  {
    ModalState(Some(presented), Some(PanRecognizer(false, 1)), false, None, NoTransition, 0.0,
               None, None, false, false, false,
               [SetCustomPresentationStyle(presented), AddRecognizer(presented, MainRecognizer),
                InstallTransitioningDelegate(presented)])
  }

  /** `resetInteractiveTransition()`. */
  function ResetStep(s: ModalState): ModalState
  {
    s.(currentType := NoTransition,
       interactiveTransition := s.interactiveTransition && s.isInteractivePresentTo,
       interactivePresenting := None,
       isInteractiveDismissing := false,
       isInteractivePresentTo := false)
  }

  lemma ResetStepProperties(s: ModalState)
    ensures var r := ResetStep(s);
      r.currentType == NoTransition && r.interactivePresenting.None?
    ensures var r := ResetStep(s);
      !r.isInteractiveDismissing && !r.isInteractivePresentTo
    ensures var r := ResetStep(s);
      r.interactiveTransition <==> s.interactiveTransition && s.isInteractivePresentTo
    ensures var r := ResetStep(s);
      r.(currentType := s.currentType, interactiveTransition := s.interactiveTransition,
                 interactivePresenting := s.interactivePresenting, isInteractiveDismissing := s.isInteractiveDismissing,
                 isInteractivePresentTo := s.isInteractivePresentTo) == s
    ensures var r := ResetStep(s);
      ValidState(s) ==> ValidState(r)
  {
  }

  /** A second reset changes only one thing: as the present-to flag is
      already cleared, it drops the transition the first one kept. */
  lemma ResetTwice(s: ModalState)
    ensures ResetStep(ResetStep(s)) == ResetStep(s).(interactiveTransition := false)
  {
  }

  /** Whether the began step starts an interactive transition: a dismissal
      always, a present-to only when the controller names a target. */
  predicate BeginStarts(s: ModalState, vc: VC, ov: ModalOverrides) {
    s.currentType == Dismiss || (s.currentType == PresentTo && ViewControllerForInteractivePresentTo(vc, ov).Some?)
  }

  /** `handleInteractiveGestureStateBegin(with:)`. */
  function BeginStep(s: ModalState, vc: VC, ov: ModalOverrides): ModalState
  {
    var started := s.(interactiveTransition := true, percentComplete := 0.0);
    match s.currentType
    case Dismiss => DismissalBegin(started, vc)
    case PresentTo => PresentToBegin(started, vc, ov)
    case _ => ResetStep(started).(isTransitioning := false)
  }

  /** The dismissal branch of the began step: ask the presenting controller
      to dismiss, then start the interactive transition. */
  function DismissalBegin(s: ModalState, vc: VC): ModalState
  {
    s.(interactivePresenting := vc.presentingViewController, isInteractiveDismissing := true,
       events := s.events + DismissalRequest(vc) + [StartInteractive(vc.id, Dismiss)])
  }

  /** The dismissal request made to the presenting controller, if any. */
  function DismissalRequest(vc: VC): (r: seq<ModalEvent>)
    ensures vc.presentingViewController.Some? ==> r == [RequestDismissal(vc.presentingViewController.value)]
    ensures vc.presentingViewController.None? ==> r == []
  {
    if vc.presentingViewController.Some? then [RequestDismissal(vc.presentingViewController.value)] else []
  }

  /** The present-to branch of the began step: without a target the
      delegate is reset; with one, the target is prepared and presented, then
      the interactive transition starts. */
  function PresentToBegin(s: ModalState, vc: VC, ov: ModalOverrides): ModalState
  {
    match ViewControllerForInteractivePresentTo(vc, ov)
    case None => ResetStep(s).(isTransitioning := false)
    case Some(target) =>
      var prepared := [InstallTransitioningDelegate(target), SetCustomPresentationStyle(target),
                       AddRecognizer(target, PresentToDismissRecognizer), RequestPresentation(vc.id, target)];
      s.(interactivePresenting := Some(vc.id), presentTo := Some(target),
         isInteractivePresentTo := true, presentToDismissGesture := Some(target),
         events := s.events + prepared + [StartInteractive(vc.id, PresentTo)])
  }

  lemma BeginStepProperties(s: ModalState, vc: VC, ov: ModalOverrides)
    ensures var r := BeginStep(s, vc, ov);
      ValidState(s) ==> ValidState(r)
    ensures var r := BeginStep(s, vc, ov);
      r.percentComplete == 0.0
    ensures var r := BeginStep(s, vc, ov);
      |r.events| >= |s.events| && r.events[..|s.events|] == s.events
    ensures var r := BeginStep(s, vc, ov);
      BeginStarts(s, vc, ov) ==>
        && r.interactiveTransition && r.currentType == s.currentType
        && |r.events| > |s.events| && r.events[|r.events| - 1] == StartInteractive(vc.id, s.currentType)
    ensures var r := BeginStep(s, vc, ov);
      !BeginStarts(s, vc, ov) ==>
        && r.events == s.events && r.currentType == NoTransition && !r.isTransitioning
        && !r.isInteractiveDismissing && !r.isInteractivePresentTo && r.interactivePresenting.None?
    ensures var r := BeginStep(s, vc, ov);
      s.currentType == Dismiss ==>
        && r.isInteractiveDismissing && r.interactivePresenting == vc.presentingViewController
        && r.presentTo == s.presentTo
        && r.events[|s.events|..] == DismissalRequest(vc) + [StartInteractive(vc.id, Dismiss)]
    ensures var r := BeginStep(s, vc, ov);
      s.currentType == PresentTo && ViewControllerForInteractivePresentTo(vc, ov).Some? ==>
        var target := ViewControllerForInteractivePresentTo(vc, ov).value;
        && r.isInteractivePresentTo && r.presentTo == Some(target) && r.interactivePresenting == Some(vc.id)
        && RequestPresentation(vc.id, target) in r.events[|s.events|..]
        && InstallTransitioningDelegate(target) in r.events[|s.events|..]
  {
    var r := BeginStep(s, vc, ov);
    if s.currentType == Dismiss {
      assert r.events[|s.events|..] == DismissalRequest(vc) + [StartInteractive(vc.id, Dismiss)];
    } else if s.currentType == PresentTo && ViewControllerForInteractivePresentTo(vc, ov).Some? {
      var target := ViewControllerForInteractivePresentTo(vc, ov).value;
      assert r.events[|s.events|..] == [InstallTransitioningDelegate(target), SetCustomPresentationStyle(target),
                                        AddRecognizer(target, PresentToDismissRecognizer), RequestPresentation(vc.id, target)]
                                       + [StartInteractive(vc.id, PresentTo)];
    }
  }

  /** The accumulated percent after a changed step: the protocol's delta
      added to the current percent, never below 0. */
  function ChangedPercent(s: ModalState, vc: VC, ov: ModalOverrides, g: GestureReading): (p: real)
    ensures p >= 0.0
    ensures p == Max(0.0, s.percentComplete + InteractiveTransitionCompletePercent(vc, ov, s.currentType, s.percentComplete, g.location, g.translation))
  {
    Max(0.0, InteractiveTransitionCompletePercent(vc, ov, s.currentType, s.percentComplete, g.location, g.translation) + s.percentComplete)
  }

  /** `handleInteractiveGestureStateChanged(_:with:)`. */
  function ChangedStep(s: ModalState, vc: VC, ov: ModalOverrides, g: GestureReading): ModalState
  {
    if !s.interactiveTransition then s
    else
      var p := ChangedPercent(s, vc, ov, g);
      var interrupt := InteractiveTransitionShouldInterrupt(vc, ov, s.currentType, p);
      s.(percentComplete := p,
         gesture := if interrupt then EnableRecognizer(s.gesture) else s.gesture,
         events := s.events + [UpdateTransition(Min(1.0, p))] + (if interrupt then [InterruptRecognizer] else []))
  }

  lemma ChangedStepProperties(s: ModalState, vc: VC, ov: ModalOverrides, g: GestureReading)
    ensures var r := ChangedStep(s, vc, ov, g);
      ValidState(s) ==> ValidState(r)
    ensures var r := ChangedStep(s, vc, ov, g);
      !s.interactiveTransition ==> r == s
    ensures var r := ChangedStep(s, vc, ov, g);
      s.interactiveTransition ==>
        && r.percentComplete == ChangedPercent(s, vc, ov, g)
        && |r.events| > |s.events| && r.events[..|s.events|] == s.events
        && r.events[|s.events|] == UpdateTransition(Min(1.0, r.percentComplete))
        && 0.0 <= r.events[|s.events|].percent <= 1.0
        && (InteractiveTransitionShouldInterrupt(vc, ov, s.currentType, r.percentComplete)
            <==> |r.events| == |s.events| + 2)
        && (InteractiveTransitionShouldInterrupt(vc, ov, s.currentType, r.percentComplete)
            ==> r.events[|s.events| + 1] == InterruptRecognizer && r.gesture == EnableRecognizer(s.gesture))
        && r.(percentComplete := s.percentComplete, gesture := s.gesture, events := s.events) == s
  {
  }

  /** The finish rule: a release (or a disabled recognizer) at 40% or more,
      or any end at 100%. */
  function ShouldFinish(gestureEnabled: bool, state: GestureState, percent: real): (r: bool)
    ensures percent == 1.0 ==> r
    ensures state == Ended && percent >= FinishThreshold ==> r
    ensures percent < FinishThreshold ==> !r
    ensures gestureEnabled && state != Ended && percent != 1.0 ==> !r
    ensures !gestureEnabled && percent >= FinishThreshold ==> r
  {
    ((!gestureEnabled || state == Ended) && percent >= FinishThreshold) || percent == 1.0
  }

  /** The percent the end step decides with: the protocol's delta for the
      velocity added to the current percent, clamped to [0, 1]. */
  function EndPercent(s: ModalState, vc: VC, ov: ModalOverrides, g: GestureReading): (p: real)
    ensures 0.0 <= p <= 1.0
    ensures p == ClampUnit(s.percentComplete + InteractiveTransitionCompletePercent(vc, ov, s.currentType, s.percentComplete, g.location, g.velocity))
  {
    var p := s.percentComplete + InteractiveTransitionCompletePercent(vc, ov, s.currentType, s.percentComplete, g.location, g.velocity);
    Max(0.0, Min(p, 1.0))
  }

  /** `handleInteractiveGestureStateEnd(_:with:)`. */
  function EndStep(s: ModalState, vc: VC, ov: ModalOverrides, g: GestureReading): ModalState
  {
    if !s.interactiveTransition then s
    else
      var p := EndPercent(s, vc, ov, g);
      var outcome := if ShouldFinish(GestureEnabled(s), g.state, p)
                     then [FinishTransition, FinishInteractive(vc.id, s.currentType)]
                     else [CancelTransition, CancelInteractive(vc.id, s.currentType)];
      ResetStep(s.(percentComplete := p, events := s.events + outcome))
  }

  lemma EndStepProperties(s: ModalState, vc: VC, ov: ModalOverrides, g: GestureReading)
    ensures var r := EndStep(s, vc, ov, g);
      ValidState(s) ==> ValidState(r)
    ensures var r := EndStep(s, vc, ov, g);
      !s.interactiveTransition ==> r == s
    ensures var r := EndStep(s, vc, ov, g);
      s.interactiveTransition ==>
        && 0.0 <= r.percentComplete <= 1.0 && r.percentComplete == EndPercent(s, vc, ov, g)
        && |r.events| == |s.events| + 2 && r.events[..|s.events|] == s.events
        && (r.events[|s.events|] == FinishTransition || r.events[|s.events|] == CancelTransition)
        && (r.events[|s.events|] == FinishTransition <==> ShouldFinish(GestureEnabled(s), g.state, r.percentComplete))
        && (r.events[|s.events| + 1] == FinishInteractive(vc.id, s.currentType)
            || r.events[|s.events| + 1] == CancelInteractive(vc.id, s.currentType))
        && (r.events[|s.events| + 1].FinishInteractive? <==> r.events[|s.events|] == FinishTransition)
        && r.currentType == NoTransition && !r.isInteractiveDismissing && !r.isInteractivePresentTo
        && r.interactivePresenting.None?
        && (r.interactiveTransition <==> s.isInteractivePresentTo)
  {
  }

  /** `handleInteractiveGesture(_:)`: nothing once the presented controller
      is gone; otherwise the began, changed (followed by resetting the
      recognizer's translation) or end step. */
  function HandleStep(s: ModalState, vc: VC, ov: ModalOverrides, g: GestureReading): ModalState
  {
    if s.presented.None? then s
    else match g.state
      case Began => BeginStep(s, vc, ov)
      case Changed =>
        var c := ChangedStep(s, vc, ov, g);
        c.(events := c.events + [ResetTranslation])
      case _ => EndStep(s, vc, ov, g)
  }

  /** Every recognizer state keeps the invariant, and a changed state always
      ends by resetting the recognizer's translation, even when there is no
      transition to update. */
  lemma HandleStepProperties(s: ModalState, vc: VC, ov: ModalOverrides, g: GestureReading)
    ensures ValidState(s) ==> ValidState(HandleStep(s, vc, ov, g))
    ensures var r := HandleStep(s, vc, ov, g);
      s.presented.Some? && g.state == Changed ==>
        |r.events| > 0 && r.events[|r.events| - 1] == ResetTranslation
  {
    if s.presented.Some? {
      match g.state {
        case Began => BeginStepProperties(s, vc, ov);
        case Changed => ChangedStepProperties(s, vc, ov, g);
        case _ => EndStepProperties(s, vc, ov, g);
      }
    }
  }

  /** A state change together with the answer of a callback. */
  datatype Gate = Gate(next: ModalState, answer: bool)

  /** `checkDelegate()`: true while the presented controller still uses this
      delegate; otherwise the recognizer is removed and the references to the
      presented and presenting controllers are dropped. */
  function CheckDelegateStep(s: ModalState, delegateIsSelf: bool): Gate
  {
    if s.presented.Some? && delegateIsSelf then Gate(s, true)
    else
      var removal := if s.gesture.Some? && s.presented.Some? then [RemoveRecognizer(s.presented.value, MainRecognizer)] else [];
      Gate(s.(gesture := None, presented := None, interactivePresenting := None, events := s.events + removal), false)
  }

  lemma CheckDelegateStepProperties(s: ModalState, delegateIsSelf: bool)
    ensures var r := CheckDelegateStep(s, delegateIsSelf);
      ValidState(s) ==> ValidState(r.next)
    ensures var r := CheckDelegateStep(s, delegateIsSelf);
      r.answer <==> s.presented.Some? && delegateIsSelf
    ensures var r := CheckDelegateStep(s, delegateIsSelf);
      r.answer ==> r.next == s
    ensures var r := CheckDelegateStep(s, delegateIsSelf);
      !r.answer ==>
        && r.next.gesture.None? && r.next.presented.None? && r.next.interactivePresenting.None?
        && r.next.(gesture := s.gesture, presented := s.presented, interactivePresenting := s.interactivePresenting,
                   events := s.events) == s
        && (s.gesture.Some? && s.presented.Some? ==> r.next.events == s.events + [RemoveRecognizer(s.presented.value, MainRecognizer)])
        && (!(s.gesture.Some? && s.presented.Some?) <==> r.next.events == s.events)
  {
  }

  /** Once the check has failed it keeps failing and changes nothing more:
      the delegate cannot be revived. */
  lemma CheckDelegateFailsForGood(s: ModalState, first: bool, second: bool)
    requires !CheckDelegateStep(s, first).answer
    ensures CheckDelegateStep(CheckDelegateStep(s, first).next, second) == Gate(CheckDelegateStep(s, first).next, false)
  {
  }

  /** The type the main recognizer adopts when asked to begin: a dismissal
      whenever the controller classifies the pan as one, a present-to only
      when present-to is enabled, and otherwise the type it had. */
  function AdoptedType(s: ModalState, vc: VC, ov: ModalOverrides, g: GestureReading): (t: ModalTransitioningType)
    ensures InteractiveTransitionType(vc, ov, g.location, g.translation) == Dismiss ==> t == Dismiss
    ensures InteractiveTransitionType(vc, ov, g.location, g.translation) == PresentTo && IsInteractivePresentToEnable(vc) ==> t == PresentTo
    ensures t == s.currentType || t == InteractiveTransitionType(vc, ov, g.location, g.translation)
    ensures t == PresentTo && s.currentType != PresentTo ==> IsInteractivePresentToEnable(vc)
  {
    var t := InteractiveTransitionType(vc, ov, g.location, g.translation);
    if t == Dismiss then Dismiss
    else if t == PresentTo && IsInteractivePresentToEnable(vc) then PresentTo
    else s.currentType
  }

  /** `gestureRecognizerShouldBegin(_:)`; `g` is the reading of the
      recognizer that asks. */
  function ShouldBeginStep(s: ModalState, vc: VC, ov: ModalOverrides, rec: RecognizerRef, g: GestureReading): Gate
  {
    if rec == PresentToDismissRecognizer && s.presentToDismissGesture.Some? then
      var cancel := if s.presentTo.Some? && g.translation.y > 0.0 && s.interactiveTransition then [CancelTransition] else [];
      Gate(s.(events := s.events + cancel), false)
    else if rec == MainRecognizer && s.gesture.Some? && s.presented.Some? then
      var t := AdoptedType(s, vc, ov, g);
      Gate(s.(currentType := t), SupportInteractive(t))
    else Gate(s, true)
  }

  lemma ShouldBeginStepProperties(s: ModalState, vc: VC, ov: ModalOverrides, rec: RecognizerRef, g: GestureReading)
    ensures var r := ShouldBeginStep(s, vc, ov, rec, g);
      ValidState(s) ==> ValidState(r.next)
    ensures var r := ShouldBeginStep(s, vc, ov, rec, g);
      rec == PresentToDismissRecognizer && s.presentToDismissGesture.Some? ==>
        && !r.answer
        && r.next.(events := s.events) == s
        && (r.next.events == s.events + [CancelTransition] <==> s.presentTo.Some? && g.translation.y > 0.0 && s.interactiveTransition)
        && (r.next.events == s.events <==> !(s.presentTo.Some? && g.translation.y > 0.0 && s.interactiveTransition))
    ensures var r := ShouldBeginStep(s, vc, ov, rec, g);
      rec == MainRecognizer && s.gesture.Some? && s.presented.Some? ==>
        && r.next == s.(currentType := AdoptedType(s, vc, ov, g))
        && (r.answer <==> SupportInteractive(r.next.currentType))
    ensures var r := ShouldBeginStep(s, vc, ov, rec, g);
      (!(rec == PresentToDismissRecognizer && s.presentToDismissGesture.Some?)
       && !(rec == MainRecognizer && s.gesture.Some? && s.presented.Some?)) ==> r == Gate(s, true)
  {
  }

  /** A pan the controller classifies as a dismissal always begins; one it
      classifies as none begins only when an earlier pan left an
      interactive type behind. */
  lemma ShouldBeginByClassification(s: ModalState, vc: VC, ov: ModalOverrides, g: GestureReading)
    requires s.gesture.Some? && s.presented.Some?
    ensures InteractiveTransitionType(vc, ov, g.location, g.translation) == Dismiss ==>
      ShouldBeginStep(s, vc, ov, MainRecognizer, g).answer
    ensures InteractiveTransitionType(vc, ov, g.location, g.translation) == NoTransition ==>
      (ShouldBeginStep(s, vc, ov, MainRecognizer, g).answer <==> SupportInteractive(s.currentType))
    ensures InteractiveTransitionType(vc, ov, g.location, g.translation) == PresentTo && !IsInteractivePresentToEnable(vc) ==>
      ShouldBeginStep(s, vc, ov, MainRecognizer, g).next.currentType == s.currentType
  {
  }

  /** `gestureRecognizer(_:shouldReceive:)`; `delegateIsSelf` is whether the
      presented controller's `transitioningDelegate` is still this delegate. */
  function ShouldReceiveStep(s: ModalState, vc: VC, ov: ModalOverrides, rec: RecognizerRef, delegateIsSelf: bool): Gate
  {
    if rec == MainRecognizer && s.gesture.Some? && s.presented.Some? then
      var check := CheckDelegateStep(s, delegateIsSelf);
      if check.answer && !s.isTransitioning && (IsInteractiveDismissEnable(vc) || IsInteractivePresentToEnable(vc))
      then Gate(check.next, InteractiveTransitionGestureShouldReceive(vc, ov))
      else Gate(check.next, false)
    else Gate(s, true)
  }

  lemma ShouldReceiveStepProperties(s: ModalState, vc: VC, ov: ModalOverrides, rec: RecognizerRef, delegateIsSelf: bool)
    ensures var r := ShouldReceiveStep(s, vc, ov, rec, delegateIsSelf);
      ValidState(s) ==> ValidState(r.next)
    ensures var r := ShouldReceiveStep(s, vc, ov, rec, delegateIsSelf);
      rec == MainRecognizer && s.gesture.Some? && s.presented.Some? ==>
        && r.next == CheckDelegateStep(s, delegateIsSelf).next
        && (r.answer <==>
              delegateIsSelf && !s.isTransitioning
              && (IsInteractiveDismissEnable(vc) || IsInteractivePresentToEnable(vc))
              && InteractiveTransitionGestureShouldReceive(vc, ov))
    ensures var r := ShouldReceiveStep(s, vc, ov, rec, delegateIsSelf);
      !(rec == MainRecognizer && s.gesture.Some? && s.presented.Some?) ==> r == Gate(s, true)
  {
  }

  /** `gestureRecognizer(_:shouldBeRequiredToFailBy:)`. */
  function RequiredToFail(s: ModalState, vc: VC, ov: ModalOverrides, rec: RecognizerRef, other: GestureKind): (r: bool)
    ensures rec == PresentToDismissRecognizer && s.presentToDismissGesture.Some? ==> r == IsPanOrSwipe(other)
    ensures rec == ForeignRecognizer ==> !r
    ensures rec == MainRecognizer && s.gesture.Some? && s.presented.Some? ==>
      r == !ShouldRecognizeSimultaneously(vc, ov, other)
    ensures rec == MainRecognizer && s.gesture.Some? && s.presented.None? ==> r == IsPanOrSwipe(other)
    ensures (!(rec == PresentToDismissRecognizer && s.presentToDismissGesture.Some?)
             && !(rec == MainRecognizer && s.gesture.Some?)) ==> !r
  {
    if rec == PresentToDismissRecognizer && s.presentToDismissGesture.Some? then IsPanOrSwipe(other)
    else if !(rec == MainRecognizer && s.gesture.Some?) then false
    else if s.presented.Some? then !ShouldRecognizeSimultaneously(vc, ov, other)
    else IsPanOrSwipe(other)
  }

  /** Without overrides, both of the delegate's recognizers require exactly
      the pans and swipes to fail. */
  lemma RequiredToFailWithoutOverrides(s: ModalState, vc: VC, rec: RecognizerRef, other: GestureKind)
    requires (rec == MainRecognizer && s.gesture.Some?) || (rec == PresentToDismissRecognizer && s.presentToDismissGesture.Some?)
    ensures RequiredToFail(s, vc, NoOverrides(), rec, other) == IsPanOrSwipe(other)
  {
    DefaultsWithoutOverrides(vc, Point(0.0, 0.0), Point(0.0, 0.0), NoTransition, 0.0, other);
  }

  /** `gestureRecognizer(_:shouldRecognizeSimultaneouslyWith:)`. */
  function RecognizesSimultaneously(s: ModalState, rec: RecognizerRef): (r: bool)
    ensures r <==> rec == MainRecognizer && s.gesture.Some?
  {
    rec == MainRecognizer && s.gesture.Some?
  }

  /** `viewControllerAnimatedTransitioning(_:didEndTransitioning:)`. */
  function DidEndStep(s: ModalState, completed: bool): ModalState
  {
    var ended := s.(percentComplete := 0.0, isTransitioning := false, gesture := EnableRecognizer(s.gesture));
    match s.presentTo
    case None => ended
    case Some(target) => PresentToRelease(ended, target, completed)
  }

  /** The end of a present-to: the new delegate is installed on the target
      when the transition completed, the cancelling recognizer is removed
      and the transition dropped. */
  function PresentToRelease(s: ModalState, target: VcId, completed: bool): ModalState
  {
    var install := if completed then [InstallNewDelegate(target)] else [];
    s.(presentTo := None, presentToDismissGesture := None, interactiveTransition := false,
       events := s.events + install + [RemoveRecognizer(target, PresentToDismissRecognizer)])
  }

  lemma DidEndStepProperties(s: ModalState, completed: bool)
    ensures var r := DidEndStep(s, completed);
      ValidState(s) ==> ValidState(r)
    ensures var r := DidEndStep(s, completed);
      r.percentComplete == 0.0 && !r.isTransitioning && r.gesture == EnableRecognizer(s.gesture)
    ensures var r := DidEndStep(s, completed);
      r.presentTo.None? && r.currentType == s.currentType
    ensures var r := DidEndStep(s, completed);
      s.presentTo.None? ==> r.events == s.events && r.interactiveTransition == s.interactiveTransition
                                    && r.presentToDismissGesture == s.presentToDismissGesture
    ensures var r := DidEndStep(s, completed);
      s.presentTo.Some? ==>
        && !r.interactiveTransition && r.presentToDismissGesture.None?
        && |r.events| > |s.events| && r.events[..|s.events|] == s.events
        && (completed <==> InstallNewDelegate(s.presentTo.value) in r.events[|s.events|..])
        && r.events[|r.events| - 1] == RemoveRecognizer(s.presentTo.value, PresentToDismissRecognizer)
  {
    var r := DidEndStep(s, completed);
    if s.presentTo.Some? {
      var target := s.presentTo.value;
      var install := if completed then [InstallNewDelegate(target)] else [];
      assert r.events[|s.events|..] == install + [RemoveRecognizer(target, PresentToDismissRecognizer)];
    }
  }

  /** The delegate a completed present-to installs on its target: a fresh
      delegate whose recognizer is already enabled. */
  function HandedOffState(target: VcId): (r: ModalState)
    ensures ValidState(r) && GestureEnabled(r) && r.presented == Some(target)
    ensures r.(gesture := InitState(target).gesture) == InitState(target)
  {
    var s := InitState(target);
    s.(gesture := EnableRecognizer(s.gesture))
  }

  /** The animator `animationController(forPresented:...)` and
      `animationController(forDismissed:)` return for type `t`. */
  function ChooseAnimator(vc: VC, ov: ModalOverrides, t: ModalTransitioningType): (r: AnimatorChoice)
    ensures ViewControllerAnimatedTransitioning(vc, ov, t).Some? ==> r == CustomAnimator(ViewControllerAnimatedTransitioning(vc, ov, t).value)
    ensures ViewControllerAnimatedTransitioning(vc, ov, t).None? && t == Presented ==> r == DefaultPresentAnimator(BasicAnimator.PresentAnimation)
    ensures ViewControllerAnimatedTransitioning(vc, ov, t).None? && t != Presented ==> r == DefaultPresentAnimator(BasicAnimator.DismissAnimation)
  {
    match ViewControllerAnimatedTransitioning(vc, ov, t)
    case Some(a) => CustomAnimator(a)
    case None => DefaultPresentAnimator(if t == Presented then BasicAnimator.PresentAnimation else BasicAnimator.DismissAnimation)
  }

  /** Handing out an animator marks the delegate as transitioning and makes
      it the animator's delegate; nothing else changes. */
  function AnimatorStep(s: ModalState, a: AnimatorChoice): (r: ModalState)
    ensures ValidState(s) ==> ValidState(r)
    ensures r.isTransitioning && r.events == s.events + [AssignAnimatorDelegate(a)]
    ensures r.(isTransitioning := s.isTransitioning, events := s.events) == s
  {
    s.(isTransitioning := true, events := s.events + [AssignAnimatorDelegate(a)])
  }

  /** Without overrides, an application gets the library's present animator
      on presentation and its dismiss animator on dismissal. */
  lemma DefaultAnimators(vc: VC)
    ensures ChooseAnimator(vc, NoOverrides(), Presented) == DefaultPresentAnimator(BasicAnimator.PresentAnimation)
    ensures ChooseAnimator(vc, NoOverrides(), Dismiss) == DefaultPresentAnimator(BasicAnimator.DismissAnimation)
  {
    DefaultsWithoutOverrides(vc, Point(0.0, 0.0), Point(0.0, 0.0), Presented, 0.0, OtherGesture);
    DefaultsWithoutOverrides(vc, Point(0.0, 0.0), Point(0.0, 0.0), Dismiss, 0.0, OtherGesture);
  }

  /** An interactive dismissal from its first to its last recognizer state:
      the presenting controller is asked to dismiss and the controller is
      told the dismissal started; at the release the percent is the velocity
      delta alone (the began step zeroed it), the transition finishes exactly
      when that reaches 40% on a release or 100% otherwise, and the delegate
      is left reset. */
  lemma {:induction false} InteractiveDismissal(s: ModalState, vc: VC, ov: ModalOverrides, g: GestureReading)
    requires s.currentType == Dismiss && !s.isInteractivePresentTo
    requires g.state != Began && g.state != Changed
    ensures var done := EndStep(BeginStep(s, vc, ov), vc, ov, g);
      var p := ClampUnit(InteractiveTransitionCompletePercent(vc, ov, Dismiss, 0.0, g.location, g.velocity));
      && done.percentComplete == p
      && done.events == s.events + DismissalRequest(vc) + [StartInteractive(vc.id, Dismiss)]
                        + (if ShouldFinish(GestureEnabled(s), g.state, p)
                           then [FinishTransition, FinishInteractive(vc.id, Dismiss)]
                           else [CancelTransition, CancelInteractive(vc.id, Dismiss)])
      && done.currentType == NoTransition && !done.interactiveTransition && !done.isInteractiveDismissing
  {
    var started := s.(interactiveTransition := true, percentComplete := 0.0);
    var begun := DismissalBegin(started, vc);
    assert BeginStep(s, vc, ov) == begun;
    assert begun.interactiveTransition && begun.currentType == Dismiss && begun.percentComplete == 0.0;
    assert GestureEnabled(begun) == GestureEnabled(s);
  }

  class ViewControllerTransitionDelegate {
    /** The weak `presentedViewController`. */
    var presentedViewController: Option<VcId>
    var interactiveGestureRecognizer: Option<PanRecognizer>
    var interactiveTransition: bool
    var interactivePresentingViewController: Option<VcId>
    var currentInteractiveTransitionType: ModalTransitioningType
    var interactiveTransitionPercentComplete: real
    /** The weak `presentToViewController`. */
    var presentToViewController: Option<VcId>
    /** The controller the cancelling recognizer of a present-to was added to. */
    var presentToDismissInterativeGestureRecognizer: Option<VcId>
    var isInteractiveDismissing: bool
    var isInteractivePresentTo: bool
    var isTransitioning: bool
    var events: seq<ModalEvent>

    function State(): ModalState
      reads this
    {
      ModalState(presentedViewController, interactiveGestureRecognizer, interactiveTransition,
                 interactivePresentingViewController, currentInteractiveTransitionType,
                 interactiveTransitionPercentComplete, presentToViewController,
                 presentToDismissInterativeGestureRecognizer, isInteractiveDismissing,
                 isInteractivePresentTo, isTransitioning, events)
    }

    predicate Valid()
      reads this
    {
      ValidState(State())
    }

    /** `init(presentedViewController:)`. */
    constructor (presentedViewController: VcId)
      ensures State() == InitState(presentedViewController) && Valid()
    {
      this.presentedViewController := Some(presentedViewController);
      interactiveTransition := false;
      interactivePresentingViewController := None;
      currentInteractiveTransitionType := NoTransition;
      interactiveTransitionPercentComplete := 0.0;
      presentToViewController := None;
      presentToDismissInterativeGestureRecognizer := None;
      isInteractiveDismissing := false;
      isInteractivePresentTo := false;
      isTransitioning := false;
      interactiveGestureRecognizer := Some(PanRecognizer(false, 1));
      events := [SetCustomPresentationStyle(presentedViewController),
                 AddRecognizer(presentedViewController, MainRecognizer),
                 InstallTransitioningDelegate(presentedViewController)];
    }

    /** `checkDelegate()`. */
    method CheckDelegate(delegateIsSelf: bool) returns (ok: bool)
      requires Valid()
      modifies this
      ensures Valid()
      ensures State() == CheckDelegateStep(old(State()), delegateIsSelf).next
      ensures ok == CheckDelegateStep(old(State()), delegateIsSelf).answer
    {
      if presentedViewController.Some? && delegateIsSelf {
        return true;
      }
      if interactiveGestureRecognizer.Some? {
        if presentedViewController.Some? {
          events := events + [RemoveRecognizer(presentedViewController.value, MainRecognizer)];
        }
        interactiveGestureRecognizer := None;
      }
      presentedViewController := None;
      interactivePresentingViewController := None;
      return false;
    }

    /** `handleInteractiveGesture(_:)`; `vc` is the presented controller. */
    method HandleInteractiveGesture(g: GestureReading, vc: VC, ov: ModalOverrides)
      requires Valid()
      modifies this
      ensures Valid()
      ensures State() == HandleStep(old(State()), vc, ov, g)
    {
      if presentedViewController.None? {
        return;
      }
      match g.state
      case Began =>
        HandleBegin(vc, ov);
      case Changed =>
        HandleChanged(g, vc, ov);
        events := events + [ResetTranslation];
      case _ =>
        HandleEnd(g, vc, ov);
    }

    /** `handleInteractiveGestureStateBegin(with:)`. */
    method HandleBegin(vc: VC, ov: ModalOverrides)
      requires Valid()
      modifies this
      ensures Valid()
      ensures State() == BeginStep(old(State()), vc, ov)
    {
      interactiveTransition := true;
      interactiveTransitionPercentComplete := 0.0;
      match currentInteractiveTransitionType {
        case Dismiss => BeginDismissal(vc);
        case PresentTo => BeginPresentTo(vc, ov);
        case _ =>
          ResetInteractiveTransition();
          isTransitioning := false;
      }
    }

    method BeginDismissal(vc: VC)
      requires Valid()
      modifies this
      ensures Valid()
      ensures State() == DismissalBegin(old(State()), vc)
    {
      interactivePresentingViewController := vc.presentingViewController;
      isInteractiveDismissing := true;
      if interactivePresentingViewController.Some? {
        events := events + [RequestDismissal(interactivePresentingViewController.value)];
      }
      events := events + [StartInteractive(vc.id, Dismiss)];
    }

    method BeginPresentTo(vc: VC, ov: ModalOverrides)
      requires Valid()
      modifies this
      ensures Valid()
      ensures State() == PresentToBegin(old(State()), vc, ov)
    {
      var target := ViewControllerForInteractivePresentTo(vc, ov);
      if target.None? {
        ResetInteractiveTransition();
        isTransitioning := false;
        return;
      }
      interactivePresentingViewController := Some(vc.id);
      presentToViewController := target;
      isInteractivePresentTo := true;
      presentToDismissInterativeGestureRecognizer := target;
      // the target uses this delegate with the custom style, gets the
      // cancelling recognizer, and is presented
      events := events + [InstallTransitioningDelegate(target.value), SetCustomPresentationStyle(target.value),
                          AddRecognizer(target.value, PresentToDismissRecognizer),
                          RequestPresentation(vc.id, target.value)];
      events := events + [StartInteractive(vc.id, PresentTo)];
    }

    /** `handleInteractiveGestureStateChanged(_:with:)`. */
    method HandleChanged(g: GestureReading, vc: VC, ov: ModalOverrides)
      requires Valid()
      modifies this
      ensures Valid()
      ensures State() == ChangedStep(old(State()), vc, ov, g)
    {
      if !interactiveTransition {
        return;
      }
      var fraction := InteractiveTransitionCompletePercent(vc, ov, currentInteractiveTransitionType,
                                                           interactiveTransitionPercentComplete, g.location, g.translation);
      fraction := fraction + interactiveTransitionPercentComplete;
      var p := Max(0.0, fraction);
      assert p == ChangedPercent(State(), vc, ov, g);
      var shouldInterrupt := InteractiveTransitionShouldInterrupt(vc, ov, currentInteractiveTransitionType, p);
      interactiveTransitionPercentComplete := p;
      if shouldInterrupt {
        // disabling and re-enabling the recognizer cancels the touch
        events := events + [UpdateTransition(Min(1.0, p))] + [InterruptRecognizer];
        interactiveGestureRecognizer := EnableRecognizer(interactiveGestureRecognizer);
      } else {
        events := events + [UpdateTransition(Min(1.0, p))];
      }
    }

    /** `handleInteractiveGestureStateEnd(_:with:)`. */
    method HandleEnd(g: GestureReading, vc: VC, ov: ModalOverrides)
      requires Valid()
      modifies this
      ensures Valid()
      ensures State() == EndStep(old(State()), vc, ov, g)
    {
      if !interactiveTransition {
        return;
      }
      interactiveTransitionPercentComplete := interactiveTransitionPercentComplete
        + InteractiveTransitionCompletePercent(vc, ov, currentInteractiveTransitionType,
                                               interactiveTransitionPercentComplete, g.location, g.velocity);
      interactiveTransitionPercentComplete := Min(interactiveTransitionPercentComplete, 1.0);
      interactiveTransitionPercentComplete := Max(0.0, interactiveTransitionPercentComplete);
      var enabled := interactiveGestureRecognizer.Some? && interactiveGestureRecognizer.value.enabled;
      if ((!enabled || g.state == Ended) && interactiveTransitionPercentComplete >= FinishThreshold)
         || interactiveTransitionPercentComplete == 1.0 {
        events := events + [FinishTransition, FinishInteractive(vc.id, currentInteractiveTransitionType)];
      } else {
        events := events + [CancelTransition, CancelInteractive(vc.id, currentInteractiveTransitionType)];
      }
      ResetInteractiveTransition();
    }

    /** `resetInteractiveTransition()`. */
    method ResetInteractiveTransition()
      requires Valid()
      modifies this
      ensures Valid()
      ensures State() == ResetStep(old(State()))
    {
      currentInteractiveTransitionType := NoTransition;
      if !isInteractivePresentTo {
        interactiveTransition := false;
      }
      interactivePresentingViewController := None;
      isInteractiveDismissing := false;
      isInteractivePresentTo := false;
    }

    /** `gestureRecognizerShouldBegin(_:)`. */
    method GestureRecognizerShouldBegin(rec: RecognizerRef, g: GestureReading, vc: VC, ov: ModalOverrides) returns (b: bool)
      requires Valid()
      modifies this
      ensures Valid()
      ensures State() == ShouldBeginStep(old(State()), vc, ov, rec, g).next
      ensures b == ShouldBeginStep(old(State()), vc, ov, rec, g).answer
    {
      if rec == PresentToDismissRecognizer && presentToDismissInterativeGestureRecognizer.Some? {
        if presentToViewController.Some? && g.translation.y > 0.0 && interactiveTransition {
          events := events + [CancelTransition];
        }
        return false;
      }
      if rec == MainRecognizer && interactiveGestureRecognizer.Some? && presentedViewController.Some? {
        var t := InteractiveTransitionType(vc, ov, g.location, g.translation);
        if t == Dismiss {
          currentInteractiveTransitionType := Dismiss;
        } else if t == PresentTo && IsInteractivePresentToEnable(vc) {
          currentInteractiveTransitionType := PresentTo;
        }
        return SupportInteractive(currentInteractiveTransitionType);
      }
      return true;
    }

    /** `gestureRecognizer(_:shouldReceive:)`. */
    method GestureRecognizerShouldReceive(rec: RecognizerRef, delegateIsSelf: bool, vc: VC, ov: ModalOverrides) returns (b: bool)
      requires Valid()
      modifies this
      ensures Valid()
      ensures State() == ShouldReceiveStep(old(State()), vc, ov, rec, delegateIsSelf).next
      ensures b == ShouldReceiveStep(old(State()), vc, ov, rec, delegateIsSelf).answer
    {
      if rec == MainRecognizer && interactiveGestureRecognizer.Some? && presentedViewController.Some? {
        var ok := CheckDelegate(delegateIsSelf);
        if ok && !isTransitioning && (IsInteractiveDismissEnable(vc) || IsInteractivePresentToEnable(vc)) {
          return InteractiveTransitionGestureShouldReceive(vc, ov);
        }
        return false;
      }
      return true;
    }

    /** `gestureRecognizer(_:shouldBeRequiredToFailBy:)`. */
    function ShouldBeRequiredToFailBy(rec: RecognizerRef, other: GestureKind, vc: VC, ov: ModalOverrides): (r: bool)
      reads this
      ensures r == RequiredToFail(State(), vc, ov, rec, other)
    {
      if rec == PresentToDismissRecognizer && presentToDismissInterativeGestureRecognizer.Some? then IsPanOrSwipe(other)
      else if !(rec == MainRecognizer && interactiveGestureRecognizer.Some?) then false
      else if presentedViewController.Some? then !ShouldRecognizeSimultaneously(vc, ov, other)
      else IsPanOrSwipe(other)
    }

    /** `gestureRecognizer(_:shouldRecognizeSimultaneouslyWith:)`. */
    function ShouldRecognizeSimultaneouslyWith(rec: RecognizerRef): (r: bool)
      reads this
      ensures r == RecognizesSimultaneously(State(), rec)
    {
      rec == MainRecognizer && interactiveGestureRecognizer.Some?
    }

    /** `viewControllerAnimatedTransitioning(_:didEndTransitioning:)`. A
        completed present-to hands its target a new delegate, returned here,
        whose recognizer is already enabled. */
    method DidEndTransitioning(completed: bool) returns (next: ViewControllerTransitionDelegate?)
      requires Valid()
      modifies this
      ensures Valid()
      ensures State() == DidEndStep(old(State()), completed)
      ensures next != null <==> old(presentToViewController).Some? && completed
      ensures next != null ==> fresh(next) && next.State() == HandedOffState(old(presentToViewController).value) && next.Valid()
    {
      next := null;
      interactiveTransitionPercentComplete := 0.0;
      isTransitioning := false;
      interactiveGestureRecognizer := EnableRecognizer(interactiveGestureRecognizer);
      if presentToViewController.Some? {
        next := ReleasePresentTo(completed);
      }
    }

    /** The present-to branch of `DidEndTransitioning`. */
    method ReleasePresentTo(completed: bool) returns (next: ViewControllerTransitionDelegate?)
      requires Valid() && presentToViewController.Some?
      modifies this
      ensures Valid()
      ensures State() == PresentToRelease(old(State()), old(presentToViewController).value, completed)
      ensures next != null <==> completed
      ensures next != null ==> fresh(next) && next.State() == HandedOffState(old(presentToViewController).value) && next.Valid()
    {
      next := null;
      var presentTo := presentToViewController.value;
      if completed {
        events := events + [InstallNewDelegate(presentTo)];
        next := HandOff(presentTo);
      }
      presentToViewController := None;
      // the recognizer is force-unwrapped; `Valid()` keeps it on the target
      events := events + [RemoveRecognizer(presentToDismissInterativeGestureRecognizer.value, PresentToDismissRecognizer)];
      presentToDismissInterativeGestureRecognizer := None;
      interactiveTransition := false;
    }

    /** The delegate a completed present-to installs on its target, with
        its recognizer already enabled. */
    static method HandOff(target: VcId) returns (next: ViewControllerTransitionDelegate)
      ensures fresh(next) && next.State() == HandedOffState(target) && next.Valid()
    {
      next := new ViewControllerTransitionDelegate(target);
      next.interactiveGestureRecognizer := EnableRecognizer(next.interactiveGestureRecognizer);
    }

    /** `animationController(forPresented:presenting:source:)`. */
    method AnimationControllerForPresented(presented: VC, ov: ModalOverrides) returns (a: AnimatorChoice)
      requires Valid()
      modifies this
      ensures Valid()
      ensures a == ChooseAnimator(presented, ov, Presented)
      ensures State() == AnimatorStep(old(State()), a)
    {
      a := ChooseAnimator(presented, ov, Presented);
      events := events + [AssignAnimatorDelegate(a)];
      isTransitioning := true;
    }

    /** `animationController(forDismissed:)`. */
    method AnimationControllerForDismissed(dismissed: VC, ov: ModalOverrides) returns (a: AnimatorChoice)
      requires Valid()
      modifies this
      ensures Valid()
      ensures a == ChooseAnimator(dismissed, ov, Dismiss)
      ensures State() == AnimatorStep(old(State()), a)
    {
      a := ChooseAnimator(dismissed, ov, Dismiss);
      events := events + [AssignAnimatorDelegate(a)];
      isTransitioning := true;
    }

    /** `interactionControllerForPresentation(using:)` and
        `interactionControllerForDismissal(using:)`: whether there is an
        interactive transition to hand out. */
    function InteractionController(): (r: bool)
      reads this
      ensures r == State().interactiveTransition
    {
      interactiveTransition
    }

    /** `presentationController(forPresented:presenting:source:)`. */
    function PresentationControllerForPresented(presented: VC, ov: ModalOverrides): (r: PresentationChoice)
      ensures PresentationControllerFor(presented, ov).Some? ==> r == CustomPresentation(PresentationControllerFor(presented, ov).value)
      ensures PresentationControllerFor(presented, ov).None? ==> r == PlainPresentation
    {
      match PresentationControllerFor(presented, ov)
      case Some(p) => CustomPresentation(p)
      case None => PlainPresentation
    }
  }
}
