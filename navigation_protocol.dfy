/** The `UIViewController` extension of the navigation transition protocol:
    the pop-enable flag kept in the associated-object store, the lookup of the
    `NavigationTransitioningDelegate` that drives a controller's navigation
    controller, and the overridable defaults the top controller answers the
    delegate with. The child of this protocol is the selected controller of a
    tab bar controller only. */
module NavigationProtocol {
  import opened Common
  import opened ViewControllers

  /** `UINavigationController.Operation`. */
  datatype NavigationOperation = NoOperation | Push | Pop

  type AnimatorId = nat

  /** The answers of controllers whose class overrides one of the `open`
      defaults, keyed by controller; None where the class does not override.
      The animator override gets the operation and the `interactive` flag. */
  datatype NavOverrides = NavOverrides(
    animator: (VcId, NavigationOperation, bool) -> Option<Option<AnimatorId>>,
    receiveTouch: VcId -> Option<bool>,
    shouldBegin: (VcId, Point) -> Option<bool>,
    percent: (VcId, Point, Point) -> Option<real>,
    callbacks: (VcId, PopCallback) -> CallbackOverride)

  /** The three callbacks of an interactive pop, each a separate method. */
  datatype PopCallback = StartPopCallback | FinishPopCallback | CancelPopCallback

  /** An application that overrides nothing. */
  function NoNavOverrides(): NavOverrides {
    NavOverrides((_, _, _) => None, _ => None, (_, _) => None, (_, _, _) => None, (_, _) => Inherits)
  }

  // ---------------------------------------------------------------------
  // Pop-enable flag

  /** `isNavigationInteractivePopEnabled`: the child's value when there is a
      child, otherwise the value stored on the controller, otherwise true. */
  function IsNavigationInteractivePopEnabled(vc: VC): (r: bool)
    ensures r == Leaf(vc, NavigationRelation).popEnableStore.GetOr(true)
    decreases vc
  {
    var child := NavigationChild(vc);
    var popEnable := if child.Some? then Some(IsNavigationInteractivePopEnabled(child.value)) else None;
    match vc.popEnableStore
    case None => popEnable.GetOr(true)
    case Some(value) => popEnable.GetOr(value)
  }

  /** The setter writes the store of the controller itself and nothing else. */
  function SetNavigationInteractivePopEnabled(vc: VC, value: bool): (r: VC)
    ensures r.popEnableStore == Some(value)
    ensures r.(popEnableStore := vc.popEnableStore) == vc
  {
    vc.(popEnableStore := Some(value))
  }

  /** On a controller that is not a tab bar controller with a selection the
      getter reads the set value back; otherwise the selected controller keeps
      deciding. A fresh controller allows the interactive pop. */
  lemma PopEnabledReadBack(vc: VC, value: bool, id: VcId, size: ViewSize)
    ensures NavigationChild(vc).None? ==>
      IsNavigationInteractivePopEnabled(SetNavigationInteractivePopEnabled(vc, value)) == value
    ensures NavigationChild(vc).Some? ==>
      IsNavigationInteractivePopEnabled(SetNavigationInteractivePopEnabled(vc, value)) == IsNavigationInteractivePopEnabled(vc)
    ensures IsNavigationInteractivePopEnabled(FreshController(id, size))
  {
    var r := SetNavigationInteractivePopEnabled(vc, value);
    assert NavigationChild(r) == NavigationChild(vc);
  }

  /** A navigation controller does not hand the flag to its top controller:
      the stack plays no part in the navigation controller's own answer. */
  lemma PopEnabledIgnoresStack(vc: VC, stack: seq<VC>, status: Option<NavStatus>)
    requires vc.container.NavigationController?
    ensures IsNavigationInteractivePopEnabled(vc.(container := NavigationController(stack, status)))
            == vc.popEnableStore.GetOr(true)
  {
  }

  // ---------------------------------------------------------------------
  // Delegate lookup and status flags

  /** The delegate of the navigation controller a controller uses: itself
      when it is a navigation controller, otherwise its `navigationController`.
      None when that controller's `delegate` is not a
      `NavigationTransitioningDelegate`. */
  function OwnNavigationDelegate(vc: VC): (r: Option<NavStatus>)
    ensures vc.container.NavigationController? ==> r == vc.container.navigationDelegate
    ensures !vc.container.NavigationController? && vc.navigationController.None? ==> r.None?
    ensures !vc.container.NavigationController? && vc.navigationController.Some? ==>
      r == (if vc.navigationController.value.container.NavigationController?
            then vc.navigationController.value.container.navigationDelegate else None)
  {
    var navigation := if vc.container.NavigationController? then Some(vc) else vc.navigationController;
    match navigation
    case Some(n) => if n.container.NavigationController? then n.container.navigationDelegate else None
    case None => None
  }

  /** The controller and its ancestors over `parent` links, nearest first. */
  function Ancestors(vc: VC): (r: seq<VC>)
    ensures |r| >= 1 && r[0] == vc
    decreases vc
  {
    match vc.parent
    case Some(p) => [vc] + Ancestors(p)
    case None => [vc]
  }

  /** `navigationTransitioningDelegate`: the delegate of the controller's own
      navigation controller, otherwise the parent's, recursively. */
  function NavigationDelegateOf(vc: VC): (r: Option<NavStatus>)
    ensures OwnNavigationDelegate(vc).Some? ==> r == OwnNavigationDelegate(vc)
    ensures OwnNavigationDelegate(vc).None? && vc.parent.None? ==> r.None?
    decreases vc
  {
    match OwnNavigationDelegate(vc)
    case Some(d) => Some(d)
    case None =>
      match vc.parent
      case Some(p) => NavigationDelegateOf(p)
      case None => None
  }

  /** The recursive lookup agrees with a reference definition: the delegate
      of the nearest ancestor whose navigation controller has one. */
  lemma {:induction false} NavigationDelegateIsFirstAncestor(vc: VC)
    ensures NavigationDelegateOf(vc) == FirstOverride(Ancestors(vc), OwnNavigationDelegate)
    decreases vc
  {
    if OwnNavigationDelegate(vc).None? && vc.parent.Some? {
      var p := vc.parent.value;
      NavigationDelegateIsFirstAncestor(p);
      assert Ancestors(vc)[1..] == Ancestors(p);
    }
  }

  /** The lookup finds a delegate exactly when some ancestor's navigation
      controller has one, and then it is that of the nearest such ancestor. */
  lemma NavigationDelegateNearest(vc: VC)
    ensures NavigationDelegateOf(vc).None? <==>
      forall i :: 0 <= i < |Ancestors(vc)| ==> OwnNavigationDelegate(Ancestors(vc)[i]).None?
    ensures NavigationDelegateOf(vc).Some? ==>
      exists i :: 0 <= i < |Ancestors(vc)| && OwnNavigationDelegate(Ancestors(vc)[i]) == NavigationDelegateOf(vc)
                  && forall j :: 0 <= j < i ==> OwnNavigationDelegate(Ancestors(vc)[j]).None?
  {
    NavigationDelegateIsFirstAncestor(vc);
    FirstOverrideIsFirst(Ancestors(vc), OwnNavigationDelegate);
  }

  /** `isNavigationInteractivePoping`: the found delegate's flag; false
      without one. */
  function IsNavigationInteractivePoping(vc: VC): (r: bool)
    ensures NavigationDelegateOf(vc).None? ==> !r
    ensures NavigationDelegateOf(vc).Some? ==> r == NavigationDelegateOf(vc).value.isInteractivePoping
  {
    match NavigationDelegateOf(vc)
    case None => false
    case Some(d) => d.isInteractivePoping
  }

  /** `isNavigationTransitioning`: the found delegate's flag; false without one. */
  function IsNavigationTransitioning(vc: VC): (r: bool)
    ensures NavigationDelegateOf(vc).None? ==> !r
    ensures NavigationDelegateOf(vc).Some? ==> r == NavigationDelegateOf(vc).value.isTransitioning
  {
    match NavigationDelegateOf(vc)
    case None => false
    case Some(d) => d.isTransitioning
  }

  // ---------------------------------------------------------------------
  // Overridable defaults

  /** `navigationControllerAnimatedTransitioning(forOperation:interactive:)`:
      nil (the delegate then uses its default animator) unless an override on
      the chain supplies one. */
  function NavigationControllerAnimatedTransitioning(vc: VC, ov: NavOverrides, op: NavigationOperation, interactive: bool): (r: Option<AnimatorId>)
    ensures r == FirstOverride(Chain(vc, NavigationRelation), (w: VC) => ov.animator(w.id, op, interactive)).GetOr(None)
  {
    Dispatch(vc, NavigationRelation, (w: VC) => ov.animator(w.id, op, interactive), (w: VC) => None)
  }

  /** `interactivePopGestureShouldReceive(touch:)`: true unless an override
      on the chain says otherwise. */
  function InteractivePopGestureShouldReceive(vc: VC, ov: NavOverrides): (r: bool)
    ensures r == FirstOverride(Chain(vc, NavigationRelation), (w: VC) => ov.receiveTouch(w.id)).GetOr(true)
  {
    Dispatch(vc, NavigationRelation, (w: VC) => ov.receiveTouch(w.id), (w: VC) => true)
  }

  /** `interactivePopGestureShouldBegin(translation:)`: true unless an
      override on the chain says otherwise. */
  function InteractivePopGestureShouldBegin(vc: VC, ov: NavOverrides, translation: Point): (r: bool)
    ensures r == FirstOverride(Chain(vc, NavigationRelation), (w: VC) => ov.shouldBegin(w.id, translation)).GetOr(true)
  {
    Dispatch(vc, NavigationRelation, (w: VC) => ov.shouldBegin(w.id, translation), (w: VC) => true)
  }

  /** The library's pop progress on a controller with no child: the
      horizontal translation over the view width. */
  function PopPercentFormula(translation: Point, width: Positive): (r: real)
    ensures r * width == translation.x
    ensures translation.x >= 0.0 ==> r >= 0.0
    ensures 0.0 <= translation.x <= width ==> r <= 1.0
  {
    translation.x / width
  }

  /** `navigationInteractivePopCompletePercent(forTranslation:startPoint:)`:
      the first override on the chain, otherwise the formula on the leaf's
      view width. */
  function NavigationInteractivePopCompletePercent(vc: VC, ov: NavOverrides, translation: Point, startPoint: Point): (r: real)
    ensures r == FirstOverride(Chain(vc, NavigationRelation), (w: VC) => ov.percent(w.id, translation, startPoint))
                   .GetOr(PopPercentFormula(translation, Leaf(vc, NavigationRelation).viewSize.width))
  {
    Dispatch(vc, NavigationRelation, (w: VC) => ov.percent(w.id, translation, startPoint),
             (w: VC) => PopPercentFormula(translation, w.viewSize.width))
  }

  /** `startInteractivePop`, `finishInteractivePop` and
      `cancleInteractivePop` forward to the child and do nothing by default.
      The controllers that act on callback `cb` are the overriding
      controllers down the chain, up to and including the first whose
      override does not call `super`. */
  function InteractivePopCallbackReceivers(vc: VC, ov: NavOverrides, cb: PopCallback): (r: seq<VcId>)
    ensures r == [] <==>
      forall i :: 0 <= i < |Chain(vc, NavigationRelation)| ==> ov.callbacks(Chain(vc, NavigationRelation)[i].id, cb) == Inherits
    ensures r != [] ==>
      exists i :: FirstOverriderAt(Chain(vc, NavigationRelation), i, (id: VcId) => ov.callbacks(id, cb))
                  && Chain(vc, NavigationRelation)[i].id == r[0]
    ensures r != [] && ov.callbacks(r[0], cb) == Overrides(false) ==> r == [r[0]]
  {
    var own := (id: VcId) => ov.callbacks(id, cb);
    CallbackReceiversProperties(vc, NavigationRelation, own);
    CallbackReceivers(vc, NavigationRelation, own)
  }

  /** An application that overrides nothing gets the library defaults,
      evaluated on the leaf of the child chain. */
  lemma {:induction false} NavigationDefaultsWithoutOverrides(vc: VC, op: NavigationOperation, interactive: bool,
                                                              translation: Point, startPoint: Point)
    ensures NavigationControllerAnimatedTransitioning(vc, NoNavOverrides(), op, interactive).None?
    ensures InteractivePopGestureShouldReceive(vc, NoNavOverrides())
    ensures InteractivePopGestureShouldBegin(vc, NoNavOverrides(), translation)
    ensures NavigationInteractivePopCompletePercent(vc, NoNavOverrides(), translation, startPoint)
              == PopPercentFormula(translation, Leaf(vc, NavigationRelation).viewSize.width)
  {
    var ov := NoNavOverrides();
    var chain := Chain(vc, NavigationRelation);
    assert FirstOverride(chain, (w: VC) => ov.animator(w.id, op, interactive)).None?;
    assert FirstOverride(chain, (w: VC) => ov.receiveTouch(w.id)).None?;
    assert FirstOverride(chain, (w: VC) => ov.shouldBegin(w.id, translation)).None?;
    assert FirstOverride(chain, (w: VC) => ov.percent(w.id, translation, startPoint)).None?;
  }

  /** A navigation controller is its own leaf: the defaults it answers with
      are those of its own view, whatever its top controller overrides. */
  lemma NavigationControllerIsLeaf(vc: VC)
    requires vc.container.NavigationController?
    ensures Chain(vc, NavigationRelation) == [vc] && Leaf(vc, NavigationRelation) == vc
  {
  }
}
