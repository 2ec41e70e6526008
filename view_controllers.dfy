/** The view controllers that the two protocol extensions work on, as a finite
    tree of values. A node carries the library's associated-object store as
    optional fields, its view size, and the links the lookups follow: its
    child controllers (through the container it is), the navigation controller
    it sits in, its parent and the controller it presents. The objects the
    links point to are copies inside the node, so every recursion over the
    tree is structural.

    This module also holds the dispatch pattern that every overridable
    default of the protocols shares: a view controller answers with its own
    override when it has one, otherwise passes the question to its child, and
    the controller at the end of the chain answers with the library default. */
module ViewControllers {
  import opened Common

  /** The flags a `ViewControllerTransitionDelegate` exposes to the view
      controllers that find it. */
  datatype ModalStatus = ModalStatus(isInteractiveDismissing: bool, isInteractivePresentTo: bool, isTransitioning: bool)

  /** The flags a `NavigationTransitioningDelegate` exposes. */
  datatype NavStatus = NavStatus(isInteractivePoping: bool, isTransitioning: bool)

  datatype ViewSize = ViewSize(width: Positive, height: Positive)

  /** What kind of container a view controller is. A navigation controller
      holds its stack (the top is the last element) and, when its `delegate`
      is a `NavigationTransitioningDelegate`, that delegate's flags. */
  datatype Container =
    | PlainController
    | NavigationController(stack: seq<VC>, navigationDelegate: Option<NavStatus>)
    | TabBarController(selected: Option<VC>)

  datatype VC = VC(
    id: VcId,
    container: Container,
    viewSize: ViewSize,
    // the associated-object store of the three enable flags
    presentToEnableStore: Option<bool>,
    dismissEnableStore: Option<bool>,
    popEnableStore: Option<bool>,
    // `presentingViewController`, which is non-nil exactly when this
    // controller is presented modally
    presentingViewController: Option<VcId>,
    // `transitioningDelegate` when it is a `ViewControllerTransitionDelegate`
    transitioningDelegate: Option<ModalStatus>,
    navigationController: Option<VC>,
    parent: Option<VC>,
    presentedViewController: Option<VC>)

  /** A view controller as `UIViewController()` creates it: no container, no
      stored flags, no links, no delegate. */
  function FreshController(id: VcId, size: ViewSize): (r: VC)
    ensures r.container == PlainController && r.id == id
    ensures r.presentToEnableStore.None? && r.dismissEnableStore.None? && r.popEnableStore.None?
  {
    VC(id, PlainController, size, None, None, None, None, None, None, None, None)
  }

  /** `topViewController` of a navigation controller: the last element of its
      stack, nil when the stack is empty. */
  function TopViewController(stack: seq<VC>): (r: Option<VC>)
    ensures r.None? <==> stack == []
    ensures r.Some? ==> r.value == stack[|stack| - 1]
  {
    if stack == [] then None else Some(stack[|stack| - 1])
  }

  /** `childViewControllerForViewControllerTransitioning`: the top controller
      of a navigation controller, the selected controller of a tab bar
      controller, nil for anything else. */
  function ModalChild(vc: VC): (r: Option<VC>)
    ensures r.Some? ==> r.value < vc
    ensures vc.container.NavigationController? ==> r == TopViewController(vc.container.stack)
    ensures vc.container.TabBarController? ==> r == vc.container.selected
    ensures vc.container.PlainController? ==> r.None?
  {
    match vc.container
    case NavigationController(stack, _) => TopViewController(stack)
    case TabBarController(selected) => selected
    case PlainController => None
  }

  /** `childViewControllerForNavigationControllerTransitioning`: the selected
      controller of a tab bar controller and nil for anything else; a
      navigation controller is not unwrapped here. */
  function NavigationChild(vc: VC): (r: Option<VC>)
    ensures r.Some? ==> r.value < vc
    ensures vc.container.TabBarController? ==> r == vc.container.selected
    ensures !vc.container.TabBarController? ==> r.None?
  {
    match vc.container
    case TabBarController(selected) => selected
    case _ => None
  }

  /** Which of the two child relations a protocol follows. */
  datatype Relation = ModalRelation | NavigationRelation

  function Child(vc: VC, rel: Relation): (r: Option<VC>)
    ensures r.Some? ==> r.value < vc
  {
    match rel
    case ModalRelation => ModalChild(vc)
    case NavigationRelation => NavigationChild(vc)
  }

  /** The controllers a forwarded call visits: the controller itself, then its
      child, its child's child, down to the first one without a child. */
  function Chain(vc: VC, rel: Relation): (r: seq<VC>)
    ensures |r| >= 1 && r[0] == vc
    ensures Child(r[|r| - 1], rel).None?
    decreases vc
  {
    match Child(vc, rel)
    case Some(c) => [vc] + Chain(c, rel)
    case None => [vc]
  }

  /** The controller at the end of the chain: the one whose library default
      answers when no controller on the way overrides. */
  function Leaf(vc: VC, rel: Relation): (r: VC)
    decreases vc
  {
    match Child(vc, rel)
    case Some(c) => Leaf(c, rel)
    case None => vc
  }

  /** The answer of the first controller in `chain` that overrides. */
  function FirstOverride<A>(chain: seq<VC>, own: VC -> Option<A>): (r: Option<A>)
    ensures r.None? <==> forall i :: 0 <= i < |chain| ==> own(chain[i]).None?
  {
    if chain == [] then None
    else if own(chain[0]).Some? then own(chain[0])
    else FirstOverride(chain[1..], own)
  }

  /** The answer `FirstOverride` gives is that of a controller on the chain
      before which no controller answers. */
  lemma {:induction false} FirstOverrideIsFirst<A>(chain: seq<VC>, own: VC -> Option<A>)
    ensures FirstOverride(chain, own).Some? ==>
      exists i :: 0 <= i < |chain| && own(chain[i]) == FirstOverride(chain, own)
                  && forall j :: 0 <= j < i ==> own(chain[j]).None?
    decreases |chain|
  {
    if chain != [] && own(chain[0]).Some? {
      assert own(chain[0]) == FirstOverride(chain, own);
    } else if chain != [] {
      var rest := chain[1..];
      FirstOverrideIsFirst(rest, own);
      if FirstOverride(chain, own).Some? {
        var k :| 0 <= k < |rest| && own(rest[k]) == FirstOverride(rest, own)
                 && forall j :: 0 <= j < k ==> own(rest[j]).None?;
        forall j | 0 <= j < k + 1
          ensures own(chain[j]).None?
        {
          if j > 0 {
            assert chain[j] == rest[j - 1];
          }
        }
        assert chain[k + 1] == rest[k];
      }
    }
  }

  /** The shape of every overridable default in the two protocols:
      `own(vc)` is the answer of `vc`'s own override (None when its class does
      not override), and `atLeaf(w)` is the library's answer on a controller
      `w` that has no child.  */
  function Dispatch<A>(vc: VC, rel: Relation, own: VC -> Option<A>, atLeaf: VC -> A): (r: A)
    ensures r == FirstOverride(Chain(vc, rel), own).GetOr(atLeaf(Leaf(vc, rel)))
    decreases vc
  {
    if own(vc).Some? then own(vc).value
    else match Child(vc, rel)
      case Some(c) => Dispatch(c, rel, own, atLeaf)
      case None => atLeaf(vc)
  }

  /** How the class of a controller treats a callback that, like the
      interactive start, finish and cancel callbacks, does nothing by
      default but forward to the child: it inherits the default, or it
      overrides and acts, forwarding as well when it calls `super`. */
  datatype CallbackOverride = Inherits | Overrides(callsSuper: bool)

  /** The controllers that act on such a callback, in chain order: every
      overriding controller down the chain, up to and including the first
      one whose override does not call `super`. */
  function CallbackReceivers(vc: VC, rel: Relation, own: VcId -> CallbackOverride): (r: seq<VcId>)
    ensures forall k :: 0 <= k < |r| ==> own(r[k]).Overrides?
    decreases vc
  {
    var rest := match Child(vc, rel)
      case Some(c) => CallbackReceivers(c, rel, own)
      case None => [];
    match own(vc.id)
    case Inherits => rest
    case Overrides(callsSuper) => if callsSuper then [vc.id] + rest else [vc.id]
  }

  /** A reference definition of the controllers that act, read off the
      chain itself. */
  function ReceiversOn(chain: seq<VC>, own: VcId -> CallbackOverride): (r: seq<VcId>)
    decreases |chain|
  {
    if chain == [] then []
    else
      var rest := ReceiversOn(chain[1..], own);
      match own(chain[0].id)
      case Inherits => rest
      case Overrides(callsSuper) => if callsSuper then [chain[0].id] + rest else [chain[0].id]
  }

  /** The forwarding through the children acts as the reference definition
      on the chain. */
  lemma {:induction false} CallbackReceiversOnChainDef(vc: VC, rel: Relation, own: VcId -> CallbackOverride)
    ensures CallbackReceivers(vc, rel, own) == ReceiversOn(Chain(vc, rel), own)
    decreases vc
  {
    match Child(vc, rel)
    case Some(c) =>
      CallbackReceiversOnChainDef(c, rel, own);
      assert Chain(vc, rel)[1..] == Chain(c, rel);
    case None =>
      assert Chain(vc, rel)[1..] == [];
  }

  /** `chain[i]` overrides the callback and no controller before it does. */
  predicate FirstOverriderAt(chain: seq<VC>, i: int, own: VcId -> CallbackOverride) {
    && 0 <= i < |chain| && own(chain[i].id).Overrides?
    && forall j :: 0 <= j < i ==> own(chain[j].id) == Inherits
  }

  lemma {:induction false} ReceiversEmpty(chain: seq<VC>, own: VcId -> CallbackOverride)
    ensures ReceiversOn(chain, own) == [] <==> forall i :: 0 <= i < |chain| ==> own(chain[i].id) == Inherits
    decreases |chain|
  {
    if chain != [] {
      var rest := chain[1..];
      ReceiversEmpty(rest, own);
      if forall i :: 0 <= i < |chain| ==> own(chain[i].id) == Inherits {
        assert forall i :: 0 <= i < |rest| ==> own(rest[i].id) == Inherits by {
          forall i | 0 <= i < |rest| ensures own(rest[i].id) == Inherits {
            assert rest[i] == chain[i + 1];
          }
        }
      }
    }
  }

  lemma {:induction false} ReceiversFirst(chain: seq<VC>, own: VcId -> CallbackOverride)
    ensures var r := ReceiversOn(chain, own);
      r != [] ==> exists i :: FirstOverriderAt(chain, i, own) && chain[i].id == r[0]
    ensures var r := ReceiversOn(chain, own);
      r != [] && own(r[0]) == Overrides(false) ==> r == [r[0]]
    decreases |chain|
  {
    if chain != [] {
      if own(chain[0].id).Overrides? {
        assert FirstOverriderAt(chain, 0, own);
      } else {
        var rest := chain[1..];
        ReceiversFirst(rest, own);
        var r := ReceiversOn(rest, own);
        if r != [] {
          var i :| FirstOverriderAt(rest, i, own) && rest[i].id == r[0];
          forall j | 0 <= j < i + 1 ensures own(chain[j].id) == Inherits {
            if j > 0 {
              assert chain[j] == rest[j - 1];
            }
          }
          assert chain[i + 1] == rest[i];
          assert FirstOverriderAt(chain, i + 1, own);
        }
      }
    }
  }

  lemma {:induction false} ReceiversOnChain(chain: seq<VC>, own: VcId -> CallbackOverride)
    ensures forall x :: x in ReceiversOn(chain, own) ==> exists i :: 0 <= i < |chain| && chain[i].id == x
    ensures (forall i :: 0 <= i < |chain| ==> own(chain[i].id) != Overrides(false)) ==>
      forall i :: 0 <= i < |chain| && own(chain[i].id).Overrides? ==> chain[i].id in ReceiversOn(chain, own)
    decreases |chain|
  {
    if chain != [] {
      var rest := chain[1..];
      ReceiversOnChain(rest, own);
      var r := ReceiversOn(chain, own);
      forall x | x in r ensures exists i :: 0 <= i < |chain| && chain[i].id == x {
        if x == chain[0].id {
          assert chain[0].id == x;
        } else {
          assert x in ReceiversOn(rest, own);
          var i :| 0 <= i < |rest| && rest[i].id == x;
          assert chain[i + 1].id == x;
        }
      }
      if forall i :: 0 <= i < |chain| ==> own(chain[i].id) != Overrides(false) {
        forall i | 0 <= i < |rest| ensures own(rest[i].id) != Overrides(false) {
          assert rest[i] == chain[i + 1];
        }
        forall i | 0 <= i < |chain| && own(chain[i].id).Overrides? ensures chain[i].id in r {
          if i > 0 {
            assert chain[i] == rest[i - 1];
          }
        }
      }
    }
  }

  /** Nobody acts exactly when no controller on the chain overrides; the
      first to act is the first controller on the chain that overrides, and
      when its override does not call `super` it is the only one; every
      controller that acts is on the chain, and when no override on the
      chain stops the forwarding, every overriding controller acts. */
  lemma CallbackReceiversProperties(vc: VC, rel: Relation, own: VcId -> CallbackOverride)
    ensures var r := CallbackReceivers(vc, rel, own);
      r == [] <==> forall i :: 0 <= i < |Chain(vc, rel)| ==> own(Chain(vc, rel)[i].id) == Inherits
    ensures var r := CallbackReceivers(vc, rel, own);
      r != [] ==> exists i :: FirstOverriderAt(Chain(vc, rel), i, own) && Chain(vc, rel)[i].id == r[0]
    ensures var r := CallbackReceivers(vc, rel, own);
      r != [] && own(r[0]) == Overrides(false) ==> r == [r[0]]
    ensures var r := CallbackReceivers(vc, rel, own);
      forall x :: x in r ==> exists i :: 0 <= i < |Chain(vc, rel)| && Chain(vc, rel)[i].id == x
    ensures var r := CallbackReceivers(vc, rel, own);
      (forall i :: 0 <= i < |Chain(vc, rel)| ==> own(Chain(vc, rel)[i].id) != Overrides(false)) ==>
        forall i :: 0 <= i < |Chain(vc, rel)| && own(Chain(vc, rel)[i].id).Overrides? ==> Chain(vc, rel)[i].id in r
  {
    CallbackReceiversOnChainDef(vc, rel, own);
    ReceiversEmpty(Chain(vc, rel), own);
    ReceiversFirst(Chain(vc, rel), own);
    ReceiversOnChain(Chain(vc, rel), own);
  }

  /** The last controller of the chain is the leaf, and every controller on
      the chain has the same leaf. */
  lemma {:induction false} ChainEndsAtLeaf(vc: VC, rel: Relation)
    ensures Chain(vc, rel)[|Chain(vc, rel)| - 1] == Leaf(vc, rel)
    ensures forall i :: 0 <= i < |Chain(vc, rel)| ==> Leaf(Chain(vc, rel)[i], rel) == Leaf(vc, rel)
    decreases vc
  {
    match Child(vc, rel)
    case Some(c) =>
      ChainEndsAtLeaf(c, rel);
      assert Chain(vc, rel) == [vc] + Chain(c, rel);
      forall i | 0 <= i < |Chain(vc, rel)|
        ensures Leaf(Chain(vc, rel)[i], rel) == Leaf(vc, rel)
      {
        if i > 0 {
          assert Chain(vc, rel)[i] == Chain(c, rel)[i - 1];
        }
      }
    case None =>
  }

  /** When no controller on the chain overrides, the library default of the
      leaf answers; an override on the controller itself always wins. */
  lemma DispatchCases<A>(vc: VC, rel: Relation, own: VC -> Option<A>, atLeaf: VC -> A)
    ensures (forall i :: 0 <= i < |Chain(vc, rel)| ==> own(Chain(vc, rel)[i]).None?) ==>
              Dispatch(vc, rel, own, atLeaf) == atLeaf(Leaf(vc, rel))
    ensures own(vc).Some? ==> Dispatch(vc, rel, own, atLeaf) == own(vc).value
  {
  }
}
