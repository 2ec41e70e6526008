/** The `UIViewController` extension of the modal transition protocol: the
    transition types, the enable flags kept in the associated-object store,
    the lookup of the controller's `ViewControllerTransitionDelegate`, and the
    overridable defaults a presented controller answers the delegate with. */
module ModalProtocol {
  import opened Common
  import opened ViewControllers

  /** `ModalTransitioningType`: dismiss, presented, presentTo and none. */
  datatype ModalTransitioningType = Dismiss | Presented | PresentTo | NoTransition

  /** `supportInteractive()`: only a dismissal and a present-to can be driven
      by the gesture. */
  function SupportInteractive(t: ModalTransitioningType): (r: bool)
    ensures r <==> !(t == Presented || t == NoTransition)
  {
    t == Dismiss || t == PresentTo
  }

  type AnimatorId = nat
  type PresentationControllerId = nat

  /** The answers of controllers whose class overrides one of the `open`
      defaults, keyed by controller; None where the class does not override.
      The touch is opaque, so a touch override is a plain answer. */
  datatype ModalOverrides = ModalOverrides(
    classify: (VcId, Point, Point) -> Option<ModalTransitioningType>,
    percent: (VcId, ModalTransitioningType, real, Point, Point) -> Option<real>,
    interrupt: (VcId, ModalTransitioningType, real) -> Option<bool>,
    receiveTouch: VcId -> Option<bool>,
    simultaneous: (VcId, GestureKind) -> Option<bool>,
    presentToTarget: VcId -> Option<Option<VcId>>,
    animator: (VcId, ModalTransitioningType) -> Option<Option<AnimatorId>>,
    presentationController: VcId -> Option<Option<PresentationControllerId>>,
    callbacks: (VcId, InteractiveCallback, ModalTransitioningType) -> CallbackOverride)

  /** The three callbacks of an interactive transition, each a separate
      overridable method. */
  datatype InteractiveCallback = StartCallback | FinishCallback | CancelCallback

  /** An application that overrides nothing. */
  function NoOverrides(): ModalOverrides {
    ModalOverrides(
      (_, _, _) => None, (_, _, _, _, _) => None, (_, _, _) => None, _ => None,
      (_, _) => None, _ => None, (_, _) => None, _ => None, (_, _, _) => Inherits)
  }

  // ---------------------------------------------------------------------
  // Enable flags

  /** `isInteractivePresentToEnable`: the child's value when there is a
      child, otherwise the value stored on the controller, otherwise false.
      The stored value is read on the child when there is one, but the
      child's own answer then wins, so that read never decides the result. */
  function IsInteractivePresentToEnable(vc: VC): (r: bool)
    ensures r == Leaf(vc, ModalRelation).presentToEnableStore.GetOr(false)
    decreases vc
  {
    var child := ModalChild(vc);
    var presentEnable := if child.Some? then Some(IsInteractivePresentToEnable(child.value)) else None;
    var stored := if child.Some? then child.value.presentToEnableStore else vc.presentToEnableStore;
    match stored
    case None => presentEnable.GetOr(false)
    case Some(value) => presentEnable.GetOr(value)
  }

  /** The setter writes the store of the controller itself and nothing else. */
  function SetInteractivePresentToEnable(vc: VC, value: bool): (r: VC)
    ensures r.presentToEnableStore == Some(value)
    ensures r.(presentToEnableStore := vc.presentToEnableStore) == vc
  {
    vc.(presentToEnableStore := Some(value))
  }

  /** `isInteractiveDismissEnable`: the child's value when there is a child,
      otherwise the value stored on the controller itself, otherwise true. */
  function IsInteractiveDismissEnable(vc: VC): (r: bool)
    ensures r == Leaf(vc, ModalRelation).dismissEnableStore.GetOr(true)
    decreases vc
  {
    var child := ModalChild(vc);
    var dismissEnable := if child.Some? then Some(IsInteractiveDismissEnable(child.value)) else None;
    match vc.dismissEnableStore
    case None => dismissEnable.GetOr(true)
    case Some(value) => dismissEnable.GetOr(value)
  }

  function SetInteractiveDismissEnable(vc: VC, value: bool): (r: VC)
    ensures r.dismissEnableStore == Some(value)
    ensures r.(dismissEnableStore := vc.dismissEnableStore) == vc
  {
    vc.(dismissEnableStore := Some(value))
  }

  /** What a setter does to the getter: on a controller without a child the
      getter reads the new value back; on a container with a child the getter
      keeps answering with the child's value. */
  lemma SetterReadBack(vc: VC, value: bool)
    ensures ModalChild(vc).None? ==>
      IsInteractivePresentToEnable(SetInteractivePresentToEnable(vc, value)) == value &&
      IsInteractiveDismissEnable(SetInteractiveDismissEnable(vc, value)) == value
    ensures ModalChild(vc).Some? ==>
      IsInteractivePresentToEnable(SetInteractivePresentToEnable(vc, value)) == IsInteractivePresentToEnable(vc) &&
      IsInteractiveDismissEnable(SetInteractiveDismissEnable(vc, value)) == IsInteractiveDismissEnable(vc)
  {
    var r1 := SetInteractivePresentToEnable(vc, value);
    var r2 := SetInteractiveDismissEnable(vc, value);
    assert ModalChild(r1) == ModalChild(vc) && ModalChild(r2) == ModalChild(vc);
  }

  /** A controller as created (no stored flags, no child) does not allow an
      interactive present-to and does allow an interactive dismissal, also
      after a delegate has been installed on it. */
  lemma FreshControllerFlags(id: VcId, size: ViewSize, status: ModalStatus)
    ensures !IsInteractivePresentToEnable(FreshController(id, size).(transitioningDelegate := Some(status)))
    ensures IsInteractiveDismissEnable(FreshController(id, size))
  {
  }

  // ---------------------------------------------------------------------
  // Delegate lookup and status flags

  /** `viewControllerTransitioningDelegate`: a presented controller answers
      with its own delegate and otherwise asks its parent; a controller that
      is not presented asks the controller it presents. */
  function ModalDelegateOf(vc: VC): (r: Option<ModalStatus>)
    ensures vc.presentingViewController.Some? && vc.transitioningDelegate.Some? ==> r == vc.transitioningDelegate
    ensures vc.presentingViewController.Some? && vc.transitioningDelegate.None? && vc.parent.None? ==> r.None?
    ensures vc.presentingViewController.None? && vc.presentedViewController.None? ==> r.None?
    decreases vc
  {
    if vc.presentingViewController.Some? then
      match vc.transitioningDelegate
      case Some(d) => Some(d)
      case None => if vc.parent.Some? then ModalDelegateOf(vc.parent.value) else None
    else if vc.presentedViewController.Some? then ModalDelegateOf(vc.presentedViewController.value)
    else None
  }

  /** The delegate a controller answers with by itself: its own delegate
      when it is presented, none when it is not. */
  function OwnModalDelegate(vc: VC): (r: Option<ModalStatus>)
    ensures vc.presentingViewController.Some? ==> r == vc.transitioningDelegate
    ensures vc.presentingViewController.None? ==> r.None?
  {
    if vc.presentingViewController.Some? then vc.transitioningDelegate else None
  }

  /** The controllers the lookup may visit, in order: from a presented
      controller on to its parent, from one that is not presented on to the
      controller it presents, until there is no such link. */
  function ModalLookupPath(vc: VC): (r: seq<VC>)
    ensures |r| >= 1 && r[0] == vc
    decreases vc
  {
    if vc.presentingViewController.Some? then
      match vc.parent
      case Some(p) => [vc] + ModalLookupPath(p)
      case None => [vc]
    else
      match vc.presentedViewController
      case Some(q) => [vc] + ModalLookupPath(q)
      case None => [vc]
  }

  /** The recursive lookup agrees with a reference definition: the own
      delegate of the first controller on the path that has one. */
  lemma {:induction false} ModalDelegateIsFirstOnPath(vc: VC)
    ensures ModalDelegateOf(vc) == FirstOverride(ModalLookupPath(vc), OwnModalDelegate)
    decreases vc
  {
    var path := ModalLookupPath(vc);
    if OwnModalDelegate(vc).None? {
      var next := if vc.presentingViewController.Some? then vc.parent else vc.presentedViewController;
      if next.Some? {
        var n := next.value;
        ModalDelegateIsFirstOnPath(n);
        assert path[1..] == ModalLookupPath(n);
      }
    }
  }

  /** The lookup finds a delegate exactly when some presented controller on
      its path has one, and then it is that of the first such controller. */
  lemma ModalDelegateNearest(vc: VC)
    ensures ModalDelegateOf(vc).None? <==>
      forall i :: 0 <= i < |ModalLookupPath(vc)| ==> OwnModalDelegate(ModalLookupPath(vc)[i]).None?
    ensures ModalDelegateOf(vc).Some? ==>
      exists i :: 0 <= i < |ModalLookupPath(vc)| && OwnModalDelegate(ModalLookupPath(vc)[i]) == ModalDelegateOf(vc)
                  && forall j :: 0 <= j < i ==> OwnModalDelegate(ModalLookupPath(vc)[j]).None?
  {
    ModalDelegateIsFirstOnPath(vc);
    FirstOverrideIsFirst(ModalLookupPath(vc), OwnModalDelegate);
  }

  /** `isInteractivePresentTo`: the found delegate's flag; false without one. */
  function IsInteractivePresentTo(vc: VC): (r: bool)
    ensures ModalDelegateOf(vc).None? ==> !r
    ensures ModalDelegateOf(vc).Some? ==> r == ModalDelegateOf(vc).value.isInteractivePresentTo
  {
    match ModalDelegateOf(vc)
    case None => false
    case Some(d) => d.isInteractivePresentTo
  }

  /** `isInteractiveDismissing`: the found delegate's flag; false without one. */
  function IsInteractiveDismissing(vc: VC): (r: bool)
    ensures ModalDelegateOf(vc).None? ==> !r
    ensures ModalDelegateOf(vc).Some? ==> r == ModalDelegateOf(vc).value.isInteractiveDismissing
  {
    match ModalDelegateOf(vc)
    case None => false
    case Some(d) => d.isInteractiveDismissing
  }

  /** `isTransitioning`: the found delegate's flag; false without one. */
  function IsTransitioning(vc: VC): (r: bool)
    ensures ModalDelegateOf(vc).None? ==> !r
    ensures ModalDelegateOf(vc).Some? ==> r == ModalDelegateOf(vc).value.isTransitioning
  {
    match ModalDelegateOf(vc)
    case None => false
    case Some(d) => d.isTransitioning
  }

  // ---------------------------------------------------------------------
  // Overridable defaults

  /** The direction rule at the end of the chain: a mostly vertical
      translation downwards is a dismissal, upwards a present-to, anything
      else none. */
  function DirectionType(translation: Point): (r: ModalTransitioningType)
    ensures r == Dismiss <==> Abs(translation.x) < Abs(translation.y) && translation.y > 0.0
    ensures r == PresentTo <==> Abs(translation.x) < Abs(translation.y) && translation.y <= 0.0
    ensures r == NoTransition <==> Abs(translation.x) >= Abs(translation.y)
  {
    if Abs(translation.x) < Abs(translation.y) then
      if translation.y > 0.0 then Dismiss else PresentTo
    else NoTransition
  }

  /** `interactiveTransitionType(for:translation:)`. */
  function InteractiveTransitionType(vc: VC, ov: ModalOverrides, location: Point, translation: Point): (r: ModalTransitioningType)
    ensures r == FirstOverride(Chain(vc, ModalRelation), (w: VC) => ov.classify(w.id, location, translation)).GetOr(DirectionType(translation))
  {
    Dispatch(vc, ModalRelation, (w: VC) => ov.classify(w.id, location, translation), (w: VC) => DirectionType(translation))
  }

  /** The library's progress formula on a controller with no child: the
      vertical translation over the view height, negated for a present-to,
      and 0 for any other type. */
  function PercentFormula(t: ModalTransitioningType, translation: Point, height: Positive): (r: real)
    ensures t == Dismiss ==> r * height == translation.y
    ensures t == PresentTo ==> r * height == -translation.y
    ensures !SupportInteractive(t) ==> r == 0.0
  {
    match t
    case Dismiss => translation.y / height
    case PresentTo => -translation.y / height
    case _ => 0.0
  }

  /** `interactiveTransitionCompletePercent(for:currentProcess:location:translation:)`:
      the first override on the chain, otherwise the formula on the leaf's
      view height. */
  function InteractiveTransitionCompletePercent(vc: VC, ov: ModalOverrides, t: ModalTransitioningType,
                                                progress: real, location: Point, translation: Point): (r: real)
    ensures r == FirstOverride(Chain(vc, ModalRelation), (w: VC) => ov.percent(w.id, t, progress, location, translation))
                   .GetOr(PercentFormula(t, translation, Leaf(vc, ModalRelation).viewSize.height))
  {
    Dispatch(vc, ModalRelation, (w: VC) => ov.percent(w.id, t, progress, location, translation),
             (w: VC) => PercentFormula(t, translation, w.viewSize.height))
  }

  /** `interactiveTransitionShouldInterrupt(for:currentProcess:)`: false
      unless an override on the chain says otherwise. */
  function InteractiveTransitionShouldInterrupt(vc: VC, ov: ModalOverrides, t: ModalTransitioningType, progress: real): (r: bool)
    ensures r == FirstOverride(Chain(vc, ModalRelation), (w: VC) => ov.interrupt(w.id, t, progress)).GetOr(false)
  {
    Dispatch(vc, ModalRelation, (w: VC) => ov.interrupt(w.id, t, progress), (w: VC) => false)
  }

  /** `interactiveTransitionGestureShouldReceive(touch:)`: true unless an
      override on the chain says otherwise. */
  function InteractiveTransitionGestureShouldReceive(vc: VC, ov: ModalOverrides): (r: bool)
    ensures r == FirstOverride(Chain(vc, ModalRelation), (w: VC) => ov.receiveTouch(w.id)).GetOr(true)
  {
    Dispatch(vc, ModalRelation, (w: VC) => ov.receiveTouch(w.id), (w: VC) => true)
  }

  /** `interactiveGestureRecognizer(shouldRecognizeSimultaneouslyWith:)`: by
      default simultaneous exactly with recognizers that are neither pans nor
      swipes. */
  function ShouldRecognizeSimultaneously(vc: VC, ov: ModalOverrides, other: GestureKind): (r: bool)
    ensures r == FirstOverride(Chain(vc, ModalRelation), (w: VC) => ov.simultaneous(w.id, other)).GetOr(!IsPanOrSwipe(other))
  {
    Dispatch(vc, ModalRelation, (w: VC) => ov.simultaneous(w.id, other), (w: VC) => !IsPanOrSwipe(other))
  }

  /** `viewControllerForInteractivePresentTo()`: nil unless an override on
      the chain supplies a controller. */
  function ViewControllerForInteractivePresentTo(vc: VC, ov: ModalOverrides): (r: Option<VcId>)
    ensures r == FirstOverride(Chain(vc, ModalRelation), (w: VC) => ov.presentToTarget(w.id)).GetOr(None)
  {
    Dispatch(vc, ModalRelation, (w: VC) => ov.presentToTarget(w.id), (w: VC) => None)
  }

  /** `viewControllerAnimatedTransitioning(for:)`: nil (the delegate then
      uses its default animator) unless an override on the chain supplies one. */
  function ViewControllerAnimatedTransitioning(vc: VC, ov: ModalOverrides, t: ModalTransitioningType): (r: Option<AnimatorId>)
    ensures r == FirstOverride(Chain(vc, ModalRelation), (w: VC) => ov.animator(w.id, t)).GetOr(None)
  {
    Dispatch(vc, ModalRelation, (w: VC) => ov.animator(w.id, t), (w: VC) => None)
  }

  /** `presentationController(for:presenting:source:)`: nil unless an
      override on the chain supplies one. */
  function PresentationControllerFor(vc: VC, ov: ModalOverrides): (r: Option<PresentationControllerId>)
    ensures r == FirstOverride(Chain(vc, ModalRelation), (w: VC) => ov.presentationController(w.id)).GetOr(None)
  {
    Dispatch(vc, ModalRelation, (w: VC) => ov.presentationController(w.id), (w: VC) => None)
  }

  /** `startInteractive(for:)`, `finishInteractive(for:)` and
      `cancelInteractive(for:)` do nothing by default but forward to the
      child. The controllers that act on callback `cb` for type `t` are the
      overriding controllers down the chain, up to and including the first
      whose override does not call `super`. */
  function InteractiveCallbackReceivers(vc: VC, ov: ModalOverrides, cb: InteractiveCallback, t: ModalTransitioningType): (r: seq<VcId>)
    ensures r == [] <==>
      forall i :: 0 <= i < |Chain(vc, ModalRelation)| ==> ov.callbacks(Chain(vc, ModalRelation)[i].id, cb, t) == Inherits
    ensures r != [] ==>
      exists i :: FirstOverriderAt(Chain(vc, ModalRelation), i, (id: VcId) => ov.callbacks(id, cb, t))
                  && Chain(vc, ModalRelation)[i].id == r[0]
    ensures r != [] && ov.callbacks(r[0], cb, t) == Overrides(false) ==> r == [r[0]]
  {
    var own := (id: VcId) => ov.callbacks(id, cb, t);
    CallbackReceiversProperties(vc, ModalRelation, own);
    CallbackReceivers(vc, ModalRelation, own)
  }

  /** An application that overrides nothing gets the library defaults,
      evaluated on the leaf of the child chain. */
  lemma {:induction false} DefaultsWithoutOverrides(vc: VC, location: Point, translation: Point, t: ModalTransitioningType,
                                                    progress: real, other: GestureKind)
    ensures InteractiveTransitionType(vc, NoOverrides(), location, translation) == DirectionType(translation)
    ensures InteractiveTransitionCompletePercent(vc, NoOverrides(), t, progress, location, translation)
              == PercentFormula(t, translation, Leaf(vc, ModalRelation).viewSize.height)
    ensures !InteractiveTransitionShouldInterrupt(vc, NoOverrides(), t, progress)
    ensures InteractiveTransitionGestureShouldReceive(vc, NoOverrides())
    ensures ViewControllerForInteractivePresentTo(vc, NoOverrides()).None?
    ensures ViewControllerAnimatedTransitioning(vc, NoOverrides(), t).None?
    ensures ShouldRecognizeSimultaneously(vc, NoOverrides(), other) == !IsPanOrSwipe(other)
    ensures PresentationControllerFor(vc, NoOverrides()).None?
  {
    var ov := NoOverrides();
    var chain := Chain(vc, ModalRelation);
    assert FirstOverride(chain, (w: VC) => ov.classify(w.id, location, translation)).None?;
    assert FirstOverride(chain, (w: VC) => ov.percent(w.id, t, progress, location, translation)).None?;
    assert FirstOverride(chain, (w: VC) => ov.interrupt(w.id, t, progress)).None?;
    assert FirstOverride(chain, (w: VC) => ov.receiveTouch(w.id)).None?;
    assert FirstOverride(chain, (w: VC) => ov.presentToTarget(w.id)).None?;
    assert FirstOverride(chain, (w: VC) => ov.animator(w.id, t)).None?;
    assert FirstOverride(chain, (w: VC) => ov.simultaneous(w.id, other)).None?;
    assert FirstOverride(chain, (w: VC) => ov.presentationController(w.id)).None?;
  }
}
