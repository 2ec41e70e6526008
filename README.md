# JSLTransitionLib, modelled in Dafny

JSLTransitionLib is an iOS library for custom view-controller transitions. A
presented controller can be dismissed interactively with a vertical pan, or
can interactively present another controller ("present-to") with the
opposite pan. A navigation controller gets an interactive pop with a
horizontal pan. The library also ships default animators and a sheet-style
`SemiPresentationController`. UIKit does the rendering, the gesture tracking
and the animation. What the library adds is sequential decision logic, and
that logic is what this project models and proves properties of:

- **`ViewControllerTransitionDelegate`** (module `ModalDelegate`,
  `modal_delegate.dfy`). This is the modal interactive-transition state
  machine. The class keeps the Swift fields. Each handler is a method whose
  `ensures` ties the new state to a step function on a `ModalState` value.
  The effects on UIKit are appended to an `events` sequence: dismissal and
  presentation requests, the `update`/`finish`/`cancel` calls on the
  percent-driven transition, and the start/finish/cancel callbacks. The
  `...StepProperties` lemmas state what each step does. Among them:
  - the percent stays in [0, 1] after the end step;
  - exactly one of finish or cancel fires, and finish fires iff the 0.4 / == 1 rule holds;
  - the reset keeps the transition only for a present-to;
  - the gates grant or refuse exactly as the source does;
  - the end-of-animation hand-off installs a fresh delegate on the present-to target.
- **`ViewControllerTransitionProtocol`** (`ModalProtocol`,
  `modal_protocol.dfy`). This covers:
  - `supportInteractive`;
  - the enable-flag getters and setters, with their precedence: the child, then the store, then the default;
  - the recursive `viewControllerTransitioningDelegate` lookup and the status flags read through it;
  - the direction classifier and the percent formula;
  - every overridable default.
- **`NavigationTransitioningDelegate`** and
  **`NavigationTransitioningProtocol`** (`NavigationDelegate` and
  `NavigationProtocol`). These are the pop state machine, with its 0.5
  threshold and the unclamped velocity step; the gate that needs a stack
  deeper than one; the push/pop animator choice; the pop-enable precedence;
  and the delegate lookup that climbs through the parents.
- **Animators** (`BasicAnimator`, `PresentAnimator`, `PushPopAnimator`).
  These cover:
  - completion reporting, where success is "not cancelled";
  - the duration, which is 0 unless the context is animated;
  - the `PushPopAnimatedOption` bit set and the frame directions it selects;
  - the present/dismiss frames and the appearance-transition order.

  Each `animateTransition` is a method that appends its calls to the
  base object's log. The log is proved equal to a function of the context,
  and the lemmas prove that function reports completion exactly once.
- **`SemiPresentationController`** (`SemiPresentation`). This covers the
  bottom-aligned frame arithmetic, the size for the presented child, the
  lifecycle of the wrapping and dimming views, and the dimming alpha. It
  also covers the tap-to-dismiss gate.

View controllers are a finite tree datatype `VC` (module `ViewControllers`).
Each `VC` records its container kind, its stored (associated-object) flags, and
its `presentingViewController`, `parent`, `navigationController` and
`presentedViewController` links. It also records a snapshot of the delegate
its transitioning or navigation delegate exposes. Recursion over these links
terminates structurally.

An application may subclass and override the modal protocol's `open`
methods. Such overrides are inputs: a record of partial answers per
controller (`ModalOverrides`). The navigation protocol and its extension
members are internal to the library (neither `open` nor `public`), so
`NavOverrides` stands for overrides that only code inside the library's
module (or an Objective-C method with the same selector) can make; an
application outside the module always gets `NoNavOverrides()`, and cannot
set the pop-enable flag either. Each default is modelled as "the first
controller on the child chain that overrides answers; otherwise the library
default of the last controller". `ViewControllers.Dispatch` states this
shape once. The interactive start, finish and cancel callbacks return nothing, so
several controllers may act on one: each controller's class inherits the
callback or overrides it, calling `super` or not (`CallbackOverride`), per
callback and, for the modal ones, per transition type;
`ViewControllers.CallbackReceivers` lists the controllers that act.

Gesture readings (state, location, translation and velocity) are inputs. So
is whether a controller's `transitioningDelegate` or a navigation
controller's `delegate` is still the delegate object (`delegateIsSelf`).
The `vc` argument of the modal delegate's gesture methods is the caller's view of the delegate's presented controller; the model does not tie it to the stored reference. `CGFloat` is `real`. Divisions need a positive view width or height
(`Positive`).

Where the code and the library's own documentation disagree, the model
follows the code:

- **Pop-percent signature.** The interactive pop calls the pop-percent
  function with three arguments (progress, translation, start) at
  `NavigationTransitioningDelegate.swift:106` and `:116`. The protocol
  declares two arguments (`NavigationTransitioningProtocol.swift:48`,
  `:131`). The delegate therefore takes the pop percent as an abstract input
  `popPercent` of the top controller, the progress, the translation and the
  location.
- **Pop-enable flag.** `isInteractivePopEnabled`
  (`NavigationTransitioningDelegate.swift:178`) is read as
  `isNavigationInteractivePopEnabled`.
- **`interactive:` argument.** The animator query receives
  `interactiveTransition == nil` (`NavigationTransitioningDelegate.swift:217`,
  `:221`). That is the inverse of the protocol's documentation, and the model
  passes `s.transition.None?` as the code does.

## Model

| member | source | states |
|---|---|---|
| ViewControllers.TopViewController | JSLTransitionLib/Classes/TransitionControllers/ViewControllerTransitionProtocol.swift:247-250 | `topViewController` is absent exactly for an empty stack, otherwise the last element |
| ViewControllers.ModalChild | JSLTransitionLib/Classes/TransitionControllers/ViewControllerTransitionProtocol.swift:247-256 | the modal child is the top controller of a navigation controller, the selected controller of a tab bar controller, and none otherwise; it is a structurally smaller controller |
| ViewControllers.NavigationChild | JSLTransitionLib/Classes/TransitionControllers/NavigationTransitioningProtocol.swift:151-156 | the navigation child is the selected controller of a tab bar controller only; a navigation controller is not unwrapped |
| ViewControllers.Chain | JSLTransitionLib/Classes/TransitionControllers/ViewControllerTransitionProtocol.swift:159-161 | a forwarded call visits the controller first and stops at a controller without a child |
| ViewControllers.FirstOverride | JSLTransitionLib/Classes/TransitionControllers/ViewControllerTransitionProtocol.swift:177-179 | the first answer on the chain; none exactly when no controller on the chain answers |
| ViewControllers.FirstOverrideIsFirst | JSLTransitionLib/Classes/TransitionControllers/ViewControllerTransitionProtocol.swift:177-179 | an answer of the chain is that of a controller before which no controller answers |
| ViewControllers.Dispatch | JSLTransitionLib/Classes/TransitionControllers/ViewControllerTransitionProtocol.swift:177-179 | every forwarded default is the first override on the chain, or else the library default of the last controller |
| ViewControllers.CallbackReceivers | JSLTransitionLib/Classes/TransitionControllers/ViewControllerTransitionProtocol.swift:226-238 | every controller that acts on a forwarded callback overrides it; the forwarding goes down the chain until an override that does not call `super` |
| ViewControllers.CallbackReceiversOnChainDef | JSLTransitionLib/Classes/TransitionControllers/ViewControllerTransitionProtocol.swift:226-238 | the forwarding through the children gives the same controllers as the reference definition read off the chain |
| ViewControllers.ReceiversEmpty | JSLTransitionLib/Classes/TransitionControllers/ViewControllerTransitionProtocol.swift:226-238 | on a chain nobody acts iff no controller on it overrides |
| ViewControllers.ReceiversFirst | JSLTransitionLib/Classes/TransitionControllers/ViewControllerTransitionProtocol.swift:226-238 | the first to act is the first overriding controller on the chain, and it is the only one when its override does not call `super` |
| ViewControllers.ReceiversOnChain | JSLTransitionLib/Classes/TransitionControllers/ViewControllerTransitionProtocol.swift:226-238 | every controller that acts is on the chain; when no override stops the forwarding, every overriding controller on the chain acts |
| ViewControllers.CallbackReceiversProperties | JSLTransitionLib/Classes/TransitionControllers/ViewControllerTransitionProtocol.swift:226-238 | for the forwarding through the children: nobody acts iff nobody on the chain overrides; the first overrider acts first, alone when it does not call `super`; receivers lie on the chain, and all overriders act when none stops the forwarding |
| ViewControllers.ChainEndsAtLeaf | JSLTransitionLib/Classes/TransitionControllers/ViewControllerTransitionProtocol.swift:247-256 | the chain ends at the leaf, and every controller on the chain has the same leaf |
| ViewControllers.DispatchCases | JSLTransitionLib/Classes/TransitionControllers/ViewControllerTransitionProtocol.swift:177-179 | without any override on the chain the leaf's default is returned; an override on the controller itself wins |
| ModalProtocol.SupportInteractive | JSLTransitionLib/Classes/TransitionControllers/ViewControllerTransitionProtocol.swift:17-19 | true iff the type is dismiss or present-to |
| ModalProtocol.IsInteractivePresentToEnable | JSLTransitionLib/Classes/TransitionControllers/ViewControllerTransitionProtocol.swift:97-104 | the value stored on the end of the child chain, false when none is stored |
| ModalProtocol.SetInteractivePresentToEnable | JSLTransitionLib/Classes/TransitionControllers/ViewControllerTransitionProtocol.swift:106-108 | the setter stores the value on the controller itself and changes nothing else |
| ModalProtocol.IsInteractiveDismissEnable | JSLTransitionLib/Classes/TransitionControllers/ViewControllerTransitionProtocol.swift:131-138 | the value stored on the end of the child chain, true when none is stored |
| ModalProtocol.SetInteractiveDismissEnable | JSLTransitionLib/Classes/TransitionControllers/ViewControllerTransitionProtocol.swift:139-141 | the setter stores the value on the controller itself and changes nothing else |
| ModalProtocol.SetterReadBack | JSLTransitionLib/Classes/TransitionControllers/ViewControllerTransitionProtocol.swift:97-141 | without a child a setter's value is read back; with a child the getter ignores the controller's own store |
| ModalProtocol.FreshControllerFlags | JSLTransitionLib/Classes/TransitionControllers/ViewControllerTransitionProtocol.swift:97-104 | a controller as created reports present-to disabled and dismiss enabled |
| ModalProtocol.ModalDelegateOf | JSLTransitionLib/Classes/TransitionControllers/ViewControllerTransitionProtocol.swift:119-129 | the base cases of the lookup: a presented controller with its own delegate uses it; a presented controller without one and without a parent, or a controller that neither is presented nor presents, finds none |
| ModalProtocol.OwnModalDelegate | JSLTransitionLib/Classes/TransitionControllers/ViewControllerTransitionProtocol.swift:121-125 | a presented controller answers with its own delegate, one that is not presented answers with none by itself |
| ModalProtocol.ModalLookupPath | JSLTransitionLib/Classes/TransitionControllers/ViewControllerTransitionProtocol.swift:119-129 | the visited controllers start at the one asked; a presented controller is followed by its parent, one that is not by the controller it presents |
| ModalProtocol.ModalDelegateIsFirstOnPath | JSLTransitionLib/Classes/TransitionControllers/ViewControllerTransitionProtocol.swift:119-129 | the recursive lookup equals the own delegate of the first controller on the path that has one |
| ModalProtocol.ModalDelegateNearest | JSLTransitionLib/Classes/TransitionControllers/ViewControllerTransitionProtocol.swift:119-129 | the lookup finds none iff no presented controller on the path has a delegate; otherwise it finds the delegate of the first such controller on the path |
| ModalProtocol.IsInteractivePresentTo | JSLTransitionLib/Classes/TransitionControllers/ViewControllerTransitionProtocol.swift:111-116 | the found delegate's flag, false without a delegate |
| ModalProtocol.IsInteractiveDismissing | JSLTransitionLib/Classes/TransitionControllers/ViewControllerTransitionProtocol.swift:144-149 | the found delegate's flag, false without a delegate |
| ModalProtocol.IsTransitioning | JSLTransitionLib/Classes/TransitionControllers/ViewControllerTransitionProtocol.swift:151-156 | the found delegate's flag, false without a delegate |
| ModalProtocol.DirectionType | JSLTransitionLib/Classes/TransitionControllers/ViewControllerTransitionProtocol.swift:188-194 | dismiss iff the pan is mostly vertical and downwards, present-to iff mostly vertical and not downwards, none iff not mostly vertical |
| ModalProtocol.InteractiveTransitionType | JSLTransitionLib/Classes/TransitionControllers/ViewControllerTransitionProtocol.swift:182-195 | the first override on the chain, otherwise the direction rule |
| ModalProtocol.PercentFormula | JSLTransitionLib/Classes/TransitionControllers/ViewControllerTransitionProtocol.swift:210-217 | y / height for dismiss, -y / height for present-to, 0 for the other types |
| ModalProtocol.InteractiveTransitionCompletePercent | JSLTransitionLib/Classes/TransitionControllers/ViewControllerTransitionProtocol.swift:198-218 | the first override on the chain, otherwise the formula on the leaf's view height |
| ModalProtocol.InteractiveTransitionShouldInterrupt | JSLTransitionLib/Classes/TransitionControllers/ViewControllerTransitionProtocol.swift:221-223 | the first override on the chain, otherwise false |
| ModalProtocol.InteractiveTransitionGestureShouldReceive | JSLTransitionLib/Classes/TransitionControllers/ViewControllerTransitionProtocol.swift:177-179 | the first override on the chain, otherwise true |
| ModalProtocol.ShouldRecognizeSimultaneously | JSLTransitionLib/Classes/TransitionControllers/ViewControllerTransitionProtocol.swift:241-245 | the first override on the chain, otherwise true iff the other gesture is neither a pan nor a swipe |
| ModalProtocol.ViewControllerForInteractivePresentTo | JSLTransitionLib/Classes/TransitionControllers/ViewControllerTransitionProtocol.swift:167-169 | the first override on the chain, otherwise none |
| ModalProtocol.ViewControllerAnimatedTransitioning | JSLTransitionLib/Classes/TransitionControllers/ViewControllerTransitionProtocol.swift:159-161 | the first override on the chain, otherwise none |
| ModalProtocol.PresentationControllerFor | JSLTransitionLib/Classes/TransitionControllers/ViewControllerTransitionProtocol.swift:172-174 | the first override on the chain, otherwise none |
| ModalProtocol.InteractiveCallbackReceivers | JSLTransitionLib/Classes/TransitionControllers/ViewControllerTransitionProtocol.swift:226-238 | for each of start, finish and cancel and each transition type separately: nobody acts iff no controller on the chain overrides that callback for that type; the first overrider acts first, and alone when its override does not call `super` |
| ModalProtocol.DefaultsWithoutOverrides | JSLTransitionLib/Classes/TransitionControllers/ViewControllerTransitionProtocol.swift:159-245 | without overrides: the direction rule, the leaf's formula, no interrupt, every touch received, no present-to target, no custom animator or presentation controller, simultaneous iff not a pan or swipe |
| ModalDelegate.Status | JSLTransitionLib/Classes/TransitionControllers/ViewControllerTransitionDelegate.swift:25-29 | the three flags the protocol's status getters read |
| ModalDelegate.EnableRecognizer | JSLTransitionLib/Classes/TransitionControllers/ViewControllerTransitionDelegate.swift:305 | re-enabling keeps the recognizer and its touch limit |
| ModalDelegate.InitState | JSLTransitionLib/Classes/TransitionControllers/ViewControllerTransitionDelegate.swift:42-57 | after init the recognizer exists, is disabled and limited to one touch; the presented controller gets the custom style, the recognizer and this delegate; nothing is in progress |
| ModalDelegate.ResetStepProperties | JSLTransitionLib/Classes/TransitionControllers/ViewControllerTransitionDelegate.swift:220-230 | reset leaves the type none, both interactive flags false and the presenting controller nil; the transition survives exactly when a present-to was running; nothing else changes |
| ModalDelegate.ResetTwice | JSLTransitionLib/Classes/TransitionControllers/ViewControllerTransitionDelegate.swift:220-230 | a second reset only drops the transition, since the present-to flag is already cleared |
| ModalDelegate.DismissalRequest | JSLTransitionLib/Classes/TransitionControllers/ViewControllerTransitionDelegate.swift:117-119 | the presenting controller, if any, is asked to dismiss |
| ModalDelegate.BeginStepProperties | JSLTransitionLib/Classes/TransitionControllers/ViewControllerTransitionDelegate.swift:107-150 | began sets the percent to 0; a dismissal sets the dismissing flag, asks the presenting controller to dismiss and starts; a present-to with a target sets the present-to flag, installs this delegate on the target and presents it, then starts; any other type or a missing target resets, clears `isTransitioning` and does not start |
| ModalDelegate.ChangedPercent | JSLTransitionLib/Classes/TransitionControllers/ViewControllerTransitionDelegate.swift:165-170 | the percent moves to max(0, percent + delta) |
| ModalDelegate.ChangedStepProperties | JSLTransitionLib/Classes/TransitionControllers/ViewControllerTransitionDelegate.swift:155-180 | without a transition nothing changes; otherwise the percent moves, the update value is min(1, percent) in [0, 1], and the recognizer is interrupted exactly when the protocol asks; nothing else changes |
| ModalDelegate.ShouldFinish | JSLTransitionLib/Classes/TransitionControllers/ViewControllerTransitionDelegate.swift:206-208 | every end at 100% finishes; a release at 40% or more finishes, and so does a disabled recognizer at 40% or more; below 40% never; an enabled recognizer that did not end finishes only at 100% |
| ModalDelegate.EndPercent | JSLTransitionLib/Classes/TransitionControllers/ViewControllerTransitionDelegate.swift:198-204 | the velocity delta added to the percent, clamped to [0, 1] |
| ModalDelegate.EndStepProperties | JSLTransitionLib/Classes/TransitionControllers/ViewControllerTransitionDelegate.swift:186-217 | without a transition nothing changes; otherwise the percent is in [0, 1], exactly one of finish or cancel is issued together with the matching callback, finish iff the finish rule holds, and the state is reset |
| ModalDelegate.HandleStepProperties | JSLTransitionLib/Classes/TransitionControllers/ViewControllerTransitionDelegate.swift:88-103 | every gesture state keeps the invariant; while the presented controller is known, a changed state ends by resetting the translation |
| ModalDelegate.CheckDelegateStepProperties | JSLTransitionLib/Classes/TransitionControllers/ViewControllerTransitionDelegate.swift:61-78 | the check passes iff the presented controller still uses this delegate and then changes nothing; otherwise the recognizer is removed and the presented and presenting controllers are dropped |
| ModalDelegate.CheckDelegateFailsForGood | JSLTransitionLib/Classes/TransitionControllers/ViewControllerTransitionDelegate.swift:61-78 | once the check fails it keeps failing and changes nothing more |
| ModalDelegate.AdoptedType | JSLTransitionLib/Classes/TransitionControllers/ViewControllerTransitionDelegate.swift:251-256 | a dismissal is always adopted; present-to only when enabled; otherwise the type is kept |
| ModalDelegate.ShouldBeginStepProperties | JSLTransitionLib/Classes/TransitionControllers/ViewControllerTransitionDelegate.swift:236-263 | the present-to cancelling recognizer never begins and cancels a running present-to on a downward pan; the main recognizer adopts the type and begins iff it supports interaction; every other case begins and changes nothing: a foreign recognizer, an own recognizer whose stored reference is gone, and the main recognizer without a presented controller |
| ModalDelegate.ShouldBeginByClassification | JSLTransitionLib/Classes/TransitionControllers/ViewControllerTransitionDelegate.swift:246-258 | a pan classified as dismissal begins; one classified as none begins only if an earlier type was left behind; a disabled present-to keeps the type |
| ModalDelegate.ShouldReceiveStepProperties | JSLTransitionLib/Classes/TransitionControllers/ViewControllerTransitionDelegate.swift:265-273 | the main recognizer receives iff the delegate is still installed, no transition runs, dismiss or present-to is enabled, and the protocol accepts the touch; other recognizers always receive |
| ModalDelegate.RequiredToFail | JSLTransitionLib/Classes/TransitionControllers/ViewControllerTransitionDelegate.swift:275-292 | the cancelling recognizer requires pans and swipes to fail; the main one requires what the protocol does not recognise simultaneously, or pans and swipes without a presented controller; a foreign recognizer, or one of its own whose stored reference is gone, requires nothing |
| ModalDelegate.RequiredToFailWithoutOverrides | JSLTransitionLib/Classes/TransitionControllers/ViewControllerTransitionDelegate.swift:275-292 | without overrides both recognizers require exactly pans and swipes to fail |
| ModalDelegate.RecognizesSimultaneously | JSLTransitionLib/Classes/TransitionControllers/ViewControllerTransitionDelegate.swift:294-296 | only the main recognizer recognises simultaneously |
| ModalDelegate.DidEndStepProperties | JSLTransitionLib/Classes/TransitionControllers/ViewControllerTransitionDelegate.swift:302-317 | the end of the animation resets the percent, clears `isTransitioning` and re-enables the recognizer; with a present-to target the target gets a new delegate iff completed, and the target, the cancelling recognizer and the transition are cleared |
| ModalDelegate.HandedOffState | JSLTransitionLib/Classes/TransitionControllers/ViewControllerTransitionDelegate.swift:308-309 | the handed-off delegate is a freshly initialised one whose recognizer is enabled |
| ModalDelegate.ChooseAnimator | JSLTransitionLib/Classes/TransitionControllers/ViewControllerTransitionDelegate.swift:323-341 | an override's animator, otherwise the present animator of the right type |
| ModalDelegate.AnimatorStep | JSLTransitionLib/Classes/TransitionControllers/ViewControllerTransitionDelegate.swift:323-341 | handing out an animator sets `isTransitioning` and makes this delegate its delegate, nothing else |
| ModalDelegate.DefaultAnimators | JSLTransitionLib/Classes/TransitionControllers/ViewControllerTransitionDelegate.swift:323-341 | without overrides presentation uses the present animator and dismissal the dismiss animator |
| ModalDelegate.InteractiveDismissal | JSLTransitionLib/Classes/TransitionControllers/ViewControllerTransitionDelegate.swift:107-217 | a dismissal from began to its end: the dismissal request, the start, then finish and its callback iff the finish rule holds (cancel otherwise); the state is reset |
| ModalDelegate.ViewControllerTransitionDelegate.constructor | JSLTransitionLib/Classes/TransitionControllers/ViewControllerTransitionDelegate.swift:42-57 | the initial state |
| ModalDelegate.ViewControllerTransitionDelegate.CheckDelegate | JSLTransitionLib/Classes/TransitionControllers/ViewControllerTransitionDelegate.swift:61-78 | the check step on the fields; the invariant `Valid()` is required and kept |
| ModalDelegate.ViewControllerTransitionDelegate.HandleInteractiveGesture | JSLTransitionLib/Classes/TransitionControllers/ViewControllerTransitionDelegate.swift:88-103 | the handler step on the fields; the invariant `Valid()` is required and kept |
| ModalDelegate.ViewControllerTransitionDelegate.HandleBegin | JSLTransitionLib/Classes/TransitionControllers/ViewControllerTransitionDelegate.swift:107-150 | the began step on the fields; the invariant `Valid()` is required and kept |
| ModalDelegate.ViewControllerTransitionDelegate.BeginDismissal | JSLTransitionLib/Classes/TransitionControllers/ViewControllerTransitionDelegate.swift:115-119 | the dismissal branch of the began step; the invariant `Valid()` is required and kept |
| ModalDelegate.ViewControllerTransitionDelegate.BeginPresentTo | JSLTransitionLib/Classes/TransitionControllers/ViewControllerTransitionDelegate.swift:120-141 | the present-to branch of the began step; the invariant `Valid()` is required and kept |
| ModalDelegate.ViewControllerTransitionDelegate.HandleChanged | JSLTransitionLib/Classes/TransitionControllers/ViewControllerTransitionDelegate.swift:155-180 | the changed step on the fields; the invariant `Valid()` is required and kept |
| ModalDelegate.ViewControllerTransitionDelegate.HandleEnd | JSLTransitionLib/Classes/TransitionControllers/ViewControllerTransitionDelegate.swift:186-217 | the end step on the fields; the invariant `Valid()` is required and kept |
| ModalDelegate.ViewControllerTransitionDelegate.ResetInteractiveTransition | JSLTransitionLib/Classes/TransitionControllers/ViewControllerTransitionDelegate.swift:220-230 | the reset on the fields; the invariant `Valid()` is required and kept |
| ModalDelegate.ViewControllerTransitionDelegate.GestureRecognizerShouldBegin | JSLTransitionLib/Classes/TransitionControllers/ViewControllerTransitionDelegate.swift:236-263 | the should-begin gate: its answer, and the state it leaves; the invariant `Valid()` is required and kept |
| ModalDelegate.ViewControllerTransitionDelegate.GestureRecognizerShouldReceive | JSLTransitionLib/Classes/TransitionControllers/ViewControllerTransitionDelegate.swift:265-273 | the should-receive gate: its answer, and the state it leaves; the invariant `Valid()` is required and kept |
| ModalDelegate.ViewControllerTransitionDelegate.ShouldBeRequiredToFailBy | JSLTransitionLib/Classes/TransitionControllers/ViewControllerTransitionDelegate.swift:275-292 | the required-to-fail rule on the fields |
| ModalDelegate.ViewControllerTransitionDelegate.ShouldRecognizeSimultaneouslyWith | JSLTransitionLib/Classes/TransitionControllers/ViewControllerTransitionDelegate.swift:294-296 | the simultaneity rule on the fields |
| ModalDelegate.ViewControllerTransitionDelegate.DidEndTransitioning | JSLTransitionLib/Classes/TransitionControllers/ViewControllerTransitionDelegate.swift:302-317 | the end-of-animation step; a new delegate object is created exactly for a completed present-to, in the handed-off state; the invariant `Valid()` is required and kept |
| ModalDelegate.ViewControllerTransitionDelegate.ReleasePresentTo | JSLTransitionLib/Classes/TransitionControllers/ViewControllerTransitionDelegate.swift:306-316 | the present-to branch: the new delegate exactly when completed, the cancelling recognizer removed from the target it was added to, the target and the transition dropped; the invariant `Valid()` is required and kept |
| ModalDelegate.ViewControllerTransitionDelegate.HandOff | JSLTransitionLib/Classes/TransitionControllers/ViewControllerTransitionDelegate.swift:308-309 | a fresh delegate for the target in the handed-off state, which satisfies `Valid()` |
| ModalDelegate.ViewControllerTransitionDelegate.AnimationControllerForPresented | JSLTransitionLib/Classes/TransitionControllers/ViewControllerTransitionDelegate.swift:323-332 | the chosen animator, and the state with `isTransitioning` set; the invariant `Valid()` is required and kept |
| ModalDelegate.ViewControllerTransitionDelegate.AnimationControllerForDismissed | JSLTransitionLib/Classes/TransitionControllers/ViewControllerTransitionDelegate.swift:334-341 | the chosen animator, and the state with `isTransitioning` set; the invariant `Valid()` is required and kept |
| ModalDelegate.ViewControllerTransitionDelegate.InteractionController | JSLTransitionLib/Classes/TransitionControllers/ViewControllerTransitionDelegate.swift:343-349 | an interaction controller is offered exactly while a transition exists |
| ModalDelegate.ViewControllerTransitionDelegate.PresentationControllerForPresented | JSLTransitionLib/Classes/TransitionControllers/ViewControllerTransitionDelegate.swift:351-356 | an override's presentation controller, otherwise a plain one |
| NavigationProtocol.IsNavigationInteractivePopEnabled | JSLTransitionLib/Classes/TransitionControllers/NavigationTransitioningProtocol.swift:67-74 | the value stored on the end of the navigation child chain, true when none is stored |
| NavigationProtocol.SetNavigationInteractivePopEnabled | JSLTransitionLib/Classes/TransitionControllers/NavigationTransitioningProtocol.swift:75-77 | the setter stores the value on the controller itself and changes nothing else |
| NavigationProtocol.PopEnabledReadBack | JSLTransitionLib/Classes/TransitionControllers/NavigationTransitioningProtocol.swift:67-77 | without a child the stored value is read back; with a child the own store is ignored; a fresh controller reports true |
| NavigationProtocol.PopEnabledIgnoresStack | JSLTransitionLib/Classes/TransitionControllers/NavigationTransitioningProtocol.swift:67-74 | a navigation controller's pop flag does not depend on its stack |
| NavigationProtocol.OwnNavigationDelegate | JSLTransitionLib/Classes/TransitionControllers/NavigationTransitioningProtocol.swift:96-103 | self's delegate for a navigation controller; otherwise the delegate of its `navigationController` when that is a navigation controller, and none when there is no such controller |
| NavigationProtocol.Ancestors | JSLTransitionLib/Classes/TransitionControllers/NavigationTransitioningProtocol.swift:104 | the parent chain starts at the controller itself |
| NavigationProtocol.NavigationDelegateOf | JSLTransitionLib/Classes/TransitionControllers/NavigationTransitioningProtocol.swift:95-107 | the controller's own navigation delegate when there is one, none without one and without a parent |
| NavigationProtocol.NavigationDelegateIsFirstAncestor | JSLTransitionLib/Classes/TransitionControllers/NavigationTransitioningProtocol.swift:95-107 | the recursive lookup equals the delegate of the first ancestor whose navigation controller has one |
| NavigationProtocol.NavigationDelegateNearest | JSLTransitionLib/Classes/TransitionControllers/NavigationTransitioningProtocol.swift:95-107 | none iff no ancestor has a navigation delegate; otherwise the delegate of the nearest ancestor that has one |
| NavigationProtocol.IsNavigationInteractivePoping | JSLTransitionLib/Classes/TransitionControllers/NavigationTransitioningProtocol.swift:80-85 | the found delegate's flag, false without a delegate |
| NavigationProtocol.IsNavigationTransitioning | JSLTransitionLib/Classes/TransitionControllers/NavigationTransitioningProtocol.swift:87-92 | the found delegate's flag, false without a delegate |
| NavigationProtocol.NavigationControllerAnimatedTransitioning | JSLTransitionLib/Classes/TransitionControllers/NavigationTransitioningProtocol.swift:109-111 | the first override on the navigation chain, otherwise none |
| NavigationProtocol.InteractivePopGestureShouldReceive | JSLTransitionLib/Classes/TransitionControllers/NavigationTransitioningProtocol.swift:113-120 | the first override on the navigation chain, otherwise true |
| NavigationProtocol.InteractivePopGestureShouldBegin | JSLTransitionLib/Classes/TransitionControllers/NavigationTransitioningProtocol.swift:122-129 | the first override on the navigation chain, otherwise true |
| NavigationProtocol.PopPercentFormula | JSLTransitionLib/Classes/TransitionControllers/NavigationTransitioningProtocol.swift:135 | translation.x / width, within [0, 1] for a translation within the width |
| NavigationProtocol.NavigationInteractivePopCompletePercent | JSLTransitionLib/Classes/TransitionControllers/NavigationTransitioningProtocol.swift:131-137 | the first override on the navigation chain, otherwise the formula on the leaf's width |
| NavigationProtocol.InteractivePopCallbackReceivers | JSLTransitionLib/Classes/TransitionControllers/NavigationTransitioningProtocol.swift:139-149 | for each of the three pop callbacks separately: nobody acts iff no controller on the chain overrides it; the first overrider acts first, and alone when its override does not call `super` |
| NavigationProtocol.NavigationDefaultsWithoutOverrides | JSLTransitionLib/Classes/TransitionControllers/NavigationTransitioningProtocol.swift:109-137 | without overrides: no custom animator, both gates true, the pop percent is the formula |
| NavigationProtocol.NavigationControllerIsLeaf | JSLTransitionLib/Classes/TransitionControllers/NavigationTransitioningProtocol.swift:151-156 | a navigation controller is its own navigation chain |
| NavigationDelegate.NavStatusOf | JSLTransitionLib/Classes/TransitionControllers/NavigationTransitioningDelegate.swift:15-17 | the two flags the protocol reads |
| NavigationDelegate.InitNavState | JSLTransitionLib/Classes/TransitionControllers/NavigationTransitioningDelegate.swift:31-42 | after init the recognizer is added, the delegate is installed, and nothing is in progress |
| NavigationDelegate.CheckDelegateStepProperties | JSLTransitionLib/Classes/TransitionControllers/NavigationTransitioningDelegate.swift:49-67 | the check passes iff the navigation controller still uses this delegate; otherwise the recognizer is dropped (and removed from the navigation controller's view only while that controller is still known) and the navigation and top controllers are dropped |
| NavigationDelegate.NavCheckDelegateFailsForGood | JSLTransitionLib/Classes/TransitionControllers/NavigationTransitioningDelegate.swift:49-67 | once the check fails it keeps failing |
| NavigationDelegate.TopId | JSLTransitionLib/Classes/TransitionControllers/NavigationTransitioningDelegate.swift:86 | the top controller of the stack, none for an empty stack |
| NavigationDelegate.PopBeganStepProperties | JSLTransitionLib/Classes/TransitionControllers/NavigationTransitioningDelegate.swift:81-94 | began proceeds only while the delegate is installed: it records the top controller, creates the transition at 0, sets the poping flag and asks for the pop; a failed check is the check's state |
| NavigationDelegate.PopFraction | JSLTransitionLib/Classes/TransitionControllers/NavigationTransitioningDelegate.swift:104-109 | the delta plus the progress, clamped to [0, 1] |
| NavigationDelegate.PopEndFraction | JSLTransitionLib/Classes/TransitionControllers/NavigationTransitioningDelegate.swift:114-117 | the velocity delta is added to the clamped fraction without clamping |
| NavigationDelegate.PopChangedStepProperties | JSLTransitionLib/Classes/TransitionControllers/NavigationTransitioningDelegate.swift:104-111 | changed updates the transition to the clamped fraction and changes nothing else |
| NavigationDelegate.PopEndStepProperties | JSLTransitionLib/Classes/TransitionControllers/NavigationTransitioningDelegate.swift:114-130 | the end finishes iff the state is ended and the fraction is at least 0.5, exactly one of finish or cancel fires with its callback, and the transition, the top controller and the poping flag are cleared |
| NavigationDelegate.PopHandleStepProperties | JSLTransitionLib/Classes/TransitionControllers/NavigationTransitioningDelegate.swift:75-135 | every gesture state keeps the invariant; after an end with a recorded top controller the transition is over; while the navigation controller is known every non-began state resets the translation |
| NavigationDelegate.InteractivePop | JSLTransitionLib/Classes/TransitionControllers/NavigationTransitioningDelegate.swift:81-133 | a pop from began to its end: the pop request and start, then finish iff the rule holds (cancel otherwise), and nothing left in progress |
| NavigationDelegate.PopShouldReceiveStepProperties | JSLTransitionLib/Classes/TransitionControllers/NavigationTransitioningDelegate.swift:165-183 | the own recognizer receives iff the delegate is valid, no transition runs, the stack is deeper than one, pop is enabled and the top controller accepts; other recognizers always receive |
| NavigationDelegate.PopShouldBegin | JSLTransitionLib/Classes/TransitionControllers/NavigationTransitioningDelegate.swift:185-197 | the top controller decides for the own recognizer; every other case begins |
| NavigationDelegate.PopRequiredToFail | JSLTransitionLib/Classes/TransitionControllers/NavigationTransitioningDelegate.swift:150-157 | the own recognizer requires exactly the other pans to fail |
| NavigationDelegate.PopRecognizesSimultaneously | JSLTransitionLib/Classes/TransitionControllers/NavigationTransitioningDelegate.swift:159-163 | only the own recognizer recognises simultaneously |
| NavigationDelegate.PopGatesWithoutOverrides | JSLTransitionLib/Classes/TransitionControllers/NavigationTransitioningDelegate.swift:165-197 | without overrides, a valid idle delegate over a deep enough stack receives and begins |
| NavigationDelegate.NavAnimatorFor | JSLTransitionLib/Classes/TransitionControllers/NavigationTransitioningDelegate.swift:214-225 | push asks the incoming controller, pop the outgoing one, and falls back to the navigation push or pop animator; no operation gives none |
| NavigationDelegate.NavAnimatorStep | JSLTransitionLib/Classes/TransitionControllers/NavigationTransitioningDelegate.swift:227-228 | an animator sets `isTransitioning`; none leaves everything unchanged |
| NavigationDelegate.NavDefaultAnimators | JSLTransitionLib/Classes/TransitionControllers/NavigationTransitioningDelegate.swift:214-222 | without overrides push uses the navigation push and pop the navigation pop |
| NavigationDelegate.NavDidEndStep | JSLTransitionLib/Classes/TransitionControllers/NavigationTransitioningDelegate.swift:141-144 | the end of the animation only clears `isTransitioning` |
| NavigationDelegate.AnimatorThenEnd | JSLTransitionLib/Classes/TransitionControllers/NavigationTransitioningDelegate.swift:141-230 | an animator followed by its end leaves `isTransitioning` false |
| NavigationDelegate.NavigationTransitioningDelegate.constructor | JSLTransitionLib/Classes/TransitionControllers/NavigationTransitioningDelegate.swift:31-42 | the initial state |
| NavigationDelegate.NavigationTransitioningDelegate.CheckDelegate | JSLTransitionLib/Classes/TransitionControllers/NavigationTransitioningDelegate.swift:49-67 | the check step on the fields; the invariant `Valid()` is required and kept |
| NavigationDelegate.NavigationTransitioningDelegate.HandleInteractiveGesture | JSLTransitionLib/Classes/TransitionControllers/NavigationTransitioningDelegate.swift:75-135 | the handler step on the fields; the invariant `Valid()` is required and kept |
| NavigationDelegate.NavigationTransitioningDelegate.PopChanged | JSLTransitionLib/Classes/TransitionControllers/NavigationTransitioningDelegate.swift:110-111 | the changed step on the fields; the invariant `Valid()` is required and kept |
| NavigationDelegate.NavigationTransitioningDelegate.PopEnd | JSLTransitionLib/Classes/TransitionControllers/NavigationTransitioningDelegate.swift:112-131 | the end step on the fields; the invariant `Valid()` is required and kept |
| NavigationDelegate.NavigationTransitioningDelegate.DidEndTransitioning | JSLTransitionLib/Classes/TransitionControllers/NavigationTransitioningDelegate.swift:141-144 | the end-of-animation step on the fields; the invariant `Valid()` is required and kept |
| NavigationDelegate.NavigationTransitioningDelegate.GestureRecognizerShouldReceive | JSLTransitionLib/Classes/TransitionControllers/NavigationTransitioningDelegate.swift:165-183 | the should-receive gate: its answer, and the state it leaves; the invariant `Valid()` is required and kept |
| NavigationDelegate.NavigationTransitioningDelegate.GestureRecognizerShouldBegin | JSLTransitionLib/Classes/TransitionControllers/NavigationTransitioningDelegate.swift:185-197 | the should-begin gate on the fields |
| NavigationDelegate.NavigationTransitioningDelegate.ShouldBeRequiredToFailBy | JSLTransitionLib/Classes/TransitionControllers/NavigationTransitioningDelegate.swift:150-157 | the required-to-fail rule on the fields |
| NavigationDelegate.NavigationTransitioningDelegate.ShouldRecognizeSimultaneouslyWith | JSLTransitionLib/Classes/TransitionControllers/NavigationTransitioningDelegate.swift:159-163 | the simultaneity rule on the fields |
| NavigationDelegate.NavigationTransitioningDelegate.InteractionController | JSLTransitionLib/Classes/TransitionControllers/NavigationTransitioningDelegate.swift:203-206 | an interaction controller is offered exactly while a transition exists |
| NavigationDelegate.NavigationTransitioningDelegate.AnimationControllerFor | JSLTransitionLib/Classes/TransitionControllers/NavigationTransitioningDelegate.swift:208-230 | the chosen animator, and the state it leaves; the invariant `Valid()` is required and kept |
| BasicAnimator.TransitionDuration | JSLTransitionLib/Classes/Animators/BasicViewControllerAnimatedTransitioning.swift:46-48 | the configured duration for an animated context, 0 otherwise or without a context |
| BasicAnimator.CompletionCount | JSLTransitionLib/Classes/Animators/BasicViewControllerAnimatedTransitioning.swift:40 | how often the calls report the transition complete |
| BasicAnimator.CompletionCountZero | JSLTransitionLib/Classes/Animators/BasicViewControllerAnimatedTransitioning.swift:40 | no completion is counted iff no call reports completion |
| BasicAnimator.CompletionCountAppend | JSLTransitionLib/Classes/Animators/BasicViewControllerAnimatedTransitioning.swift:40 | completions of a concatenation add up |
| BasicAnimator.CompletionCalls | JSLTransitionLib/Classes/Animators/BasicViewControllerAnimatedTransitioning.swift:38-42 | the context is told "not cancelled" first, then the delegate, if any, the same flag; exactly one completion |
| BasicAnimator.BasicViewControllerAnimatedTransitioning.constructor | JSLTransitionLib/Classes/Animators/BasicViewControllerAnimatedTransitioning.swift:28-31 | no delegate, duration 0.3, no call made |
| BasicAnimator.BasicViewControllerAnimatedTransitioning.SetDelegate | JSLTransitionLib/Classes/Animators/BasicViewControllerAnimatedTransitioning.swift:28 | the delegate is set |
| BasicAnimator.BasicViewControllerAnimatedTransitioning.TransitionDurationUsing | JSLTransitionLib/Classes/Animators/BasicViewControllerAnimatedTransitioning.swift:46-48 | the duration rule on the configured duration |
| BasicAnimator.BasicViewControllerAnimatedTransitioning.DidEndTransitioningAnimation | JSLTransitionLib/Classes/Animators/BasicViewControllerAnimatedTransitioning.swift:38-42 | appends the completion calls; `isFinished` is ignored |
| BasicAnimator.BasicViewControllerAnimatedTransitioning.AnimateTransition | JSLTransitionLib/Classes/Animators/BasicViewControllerAnimatedTransitioning.swift:50-52 | the default reports completion at once |
| PresentAnimator.PresentStartFrame | JSLTransitionLib/Classes/Animators/PresentAnimatedTransitioning.swift:43 | the final frame moved down by its own height |
| PresentAnimator.DismissEndFrame | JSLTransitionLib/Classes/Animators/PresentAnimatedTransitioning.swift:55-57 | x = 0, y = the container's height, the initial frame's size |
| PresentAnimator.PresentSetup | JSLTransitionLib/Classes/Animators/PresentAnimatedTransitioning.swift:41-47 | on presentation with a `to` view: add it and place it below; then begin-appearance(false) of `from` and begin-appearance(true) of `to`; no completion |
| PresentAnimator.PresentAnimationBlock | JSLTransitionLib/Classes/Animators/PresentAnimatedTransitioning.swift:49-62 | the presented view moves to the final frame, or the dismissed view to the dismissal frame; the custom animations run last iff given |
| PresentAnimator.PresentCompletion | JSLTransitionLib/Classes/Animators/PresentAnimatedTransitioning.swift:63-71 | end-appearance on both controllers only when cancelled, then the base completion |
| PresentAnimator.PresentCalls | JSLTransitionLib/Classes/Animators/PresentAnimatedTransitioning.swift:27-72 | nothing without both controllers; otherwise the setup, then the animation |
| PresentAnimator.PresentCallsCompleteOnce | JSLTransitionLib/Classes/Animators/PresentAnimatedTransitioning.swift:27-72 | completion is reported exactly once with both controllers, never without |
| PresentAnimator.PresentCallsEndWithCompletion | JSLTransitionLib/Classes/Animators/PresentAnimatedTransitioning.swift:63-71 | the completion calls come last |
| PresentAnimator.PresentCallsOrder | JSLTransitionLib/Classes/Animators/PresentAnimatedTransitioning.swift:46-49 | both begin-appearance calls come right before the animation, and nothing is reported complete before it |
| PresentAnimator.PresentAnimatedTransitioning.constructor | JSLTransitionLib/Classes/Animators/PresentAnimatedTransitioning.swift:13-15 | the no-argument init presents and has no custom animations |
| PresentAnimator.PresentAnimatedTransitioning.OfType | JSLTransitionLib/Classes/Animators/PresentAnimatedTransitioning.swift:17-25 | the given type and animations |
| PresentAnimator.PresentAnimatedTransitioning.AnimateTransition | JSLTransitionLib/Classes/Animators/PresentAnimatedTransitioning.swift:27-72 | the calls made are exactly the modelled sequence for the context |
| PresentAnimator.PresentAnimatedTransitioning.Setup | JSLTransitionLib/Classes/Animators/PresentAnimatedTransitioning.swift:41-47 | appends the setup calls |
| PresentAnimator.PresentAnimatedTransitioning.Animations | JSLTransitionLib/Classes/Animators/PresentAnimatedTransitioning.swift:49-62 | appends the animation-block calls |
| PresentAnimator.PresentAnimatedTransitioning.Completion | JSLTransitionLib/Classes/Animators/PresentAnimatedTransitioning.swift:63-71 | appends the completion calls |
| PushPopAnimator.Union | JSLTransitionLib/Classes/Animators/PushPopAnimatedTransitioning.swift:15-18 | a union contains both of its operands |
| PushPopAnimator.NamedOptions | JSLTransitionLib/Classes/Animators/PushPopAnimatedTransitioning.swift:10-21 | the composite raw values are 5, 9, 6 and 10; navigation push is left and push only; navigation pop is right and pop only |
| PushPopAnimator.SignedWidth | JSLTransitionLib/Classes/Animators/PushPopAnimatedTransitioning.swift:54-68 | plus the width for the named direction, minus it otherwise |
| PushPopAnimator.ToViewStartFrame | JSLTransitionLib/Classes/Animators/PushPopAnimatedTransitioning.swift:54-58 | on push a whole width to the left or right of the final frame; on pop 30% of that |
| PushPopAnimator.FromViewEndFrame | JSLTransitionLib/Classes/Animators/PushPopAnimatedTransitioning.swift:64-68 | on push 30% of a width; on pop a whole width |
| PushPopAnimator.PushPopSetup | JSLTransitionLib/Classes/Animators/PushPopAnimatedTransitioning.swift:54-60 | the incoming view is placed and then added on top for push, or inserted below the outgoing view for pop |
| PushPopAnimator.PushPopAnimationBlock | JSLTransitionLib/Classes/Animators/PushPopAnimatedTransitioning.swift:62-71 | the incoming view moves to its final frame, the outgoing view to its end frame, then the custom animations iff given |
| PushPopAnimator.PushPopCalls | JSLTransitionLib/Classes/Animators/PushPopAnimatedTransitioning.swift:39-76 | nothing unless both controllers and both views are there; otherwise the setup, then the animation |
| PushPopAnimator.PushPopCallsCompleteOnce | JSLTransitionLib/Classes/Animators/PushPopAnimatedTransitioning.swift:39-76 | completion is reported exactly once, as the last calls, when everything is there, and never otherwise |
| PushPopAnimator.NavigationDirections | JSLTransitionLib/Classes/Animators/PushPopAnimatedTransitioning.swift:54-68 | the navigation push and pop slide in the directions of a navigation controller |
| PushPopAnimator.PushPopAnimatedTransitioning.constructor | JSLTransitionLib/Classes/Animators/PushPopAnimatedTransitioning.swift:27-37 | the given options and animations |
| PushPopAnimator.PushPopAnimatedTransitioning.AnimateTransition | JSLTransitionLib/Classes/Animators/PushPopAnimatedTransitioning.swift:39-76 | the calls made are exactly the modelled sequence for the context |
| PushPopAnimator.PushPopAnimatedTransitioning.Animations | JSLTransitionLib/Classes/Animators/PushPopAnimatedTransitioning.swift:62-71 | appends the animation-block calls |
| SemiPresentation.InitSemiState | JSLTransitionLib/Classes/Animators/SemiPresentationController.swift:14-21 | dimming alpha 0.5, tap-to-dismiss enabled, no views |
| SemiPresentation.SizeForChildContentContainer | JSLTransitionLib/Classes/Animators/SemiPresentationController.swift:119-124 | the presented child's preferred size, otherwise the inherited size |
| SemiPresentation.FrameOfPresentedView | JSLTransitionLib/Classes/Animators/SemiPresentationController.swift:126-136 | the container's x and width, the preferred height, and the bottom edge on the container's bottom edge; a zero container without one |
| SemiPresentation.WrappingFor | JSLTransitionLib/Classes/Animators/SemiPresentationController.swift:33-49 | the sheet at the given frame, the rounded view one corner radius taller, and the wrapper and presented view covering the sheet |
| SemiPresentation.WrappingGeometry | JSLTransitionLib/Classes/Animators/SemiPresentationController.swift:35-44 | the presented view covers the sheet, and only the top corners show rounded |
| SemiPresentation.PresentationWillBeginStep | JSLTransitionLib/Classes/Animators/SemiPresentationController.swift:28-69 | nothing without a presented view; otherwise the sheet; with a container also a tappable dimming view over it, at alpha 0 animated to `dimmingAlpha` |
| SemiPresentation.DimmingTappedStep | JSLTransitionLib/Classes/Animators/SemiPresentationController.swift:72-77 | a tap asks for dismissal exactly when tap-to-dismiss is enabled |
| SemiPresentation.PresentationDidEndStep | JSLTransitionLib/Classes/Animators/SemiPresentationController.swift:80-86 | a presentation that did not complete drops both views; one that did changes nothing |
| SemiPresentation.DismissalWillBeginStep | JSLTransitionLib/Classes/Animators/SemiPresentationController.swift:89-95 | the dimming view fades to 0 alongside the transition |
| SemiPresentation.DismissalDidEndStep | JSLTransitionLib/Classes/Animators/SemiPresentationController.swift:98-105 | a completed dismissal drops both views; one that did not changes nothing |
| SemiPresentation.PreferredSizeChangedStep | JSLTransitionLib/Classes/Animators/SemiPresentationController.swift:112-117 | a size change of the presented controller lays the container out again |
| SemiPresentation.LayoutStep | JSLTransitionLib/Classes/Animators/SemiPresentationController.swift:138-145 | the dimming view covers the container and the sheet moves to the presented frame; no view is created or dropped |
| SemiPresentation.CancelledPresentation | JSLTransitionLib/Classes/Animators/SemiPresentationController.swift:28-86 | a cancelled presentation leaves no view behind |
| SemiPresentation.PresentationCycle | JSLTransitionLib/Classes/Animators/SemiPresentationController.swift:28-105 | a full presentation and dismissal: the sheet on the bottom edge, dimming at `dimmingAlpha`, fading to 0, and no view left afterwards |
| SemiPresentation.LayoutIdempotent | JSLTransitionLib/Classes/Animators/SemiPresentationController.swift:138-145 | laying out twice is laying out once |
| SemiPresentation.SemiPresentationController.constructor | JSLTransitionLib/Classes/Animators/SemiPresentationController.swift:12-21 | the initial state |
| SemiPresentation.SemiPresentationController.PresentedView | JSLTransitionLib/Classes/Animators/SemiPresentationController.swift:23-25 | the presented view is the wrapping view |
| SemiPresentation.SemiPresentationController.ShouldRemovePresentersView | JSLTransitionLib/Classes/Animators/SemiPresentationController.swift:147-149 | always true |
| SemiPresentation.SemiPresentationController.PresentationTransitionWillBegin | JSLTransitionLib/Classes/Animators/SemiPresentationController.swift:28-69 | the will-begin step on the fields |
| SemiPresentation.SemiPresentationController.DimmingViewTapped | JSLTransitionLib/Classes/Animators/SemiPresentationController.swift:72-77 | the tap step on the fields |
| SemiPresentation.SemiPresentationController.PresentationTransitionDidEnd | JSLTransitionLib/Classes/Animators/SemiPresentationController.swift:80-86 | the presentation-did-end step on the fields |
| SemiPresentation.SemiPresentationController.DismissalTransitionWillBegin | JSLTransitionLib/Classes/Animators/SemiPresentationController.swift:89-95 | the dismissal-will-begin step on the fields |
| SemiPresentation.SemiPresentationController.DismissalTransitionDidEnd | JSLTransitionLib/Classes/Animators/SemiPresentationController.swift:98-105 | the dismissal-did-end step on the fields |
| SemiPresentation.SemiPresentationController.PreferredContentSizeDidChange | JSLTransitionLib/Classes/Animators/SemiPresentationController.swift:112-117 | the size-change step on the fields |
| SemiPresentation.SemiPresentationController.ContainerViewWillLayoutSubviews | JSLTransitionLib/Classes/Animators/SemiPresentationController.swift:138-145 | the layout step on the fields |

## Left out

- UIKit itself is not modelled: rendering; `UIView.animate` and its curves; `transitionCoordinator`; the percent-driven transition's own animation; and adding and removing views and gesture recognizers. These calls become entries in an `events` or `calls` log.
- Gesture mechanics are not modelled. Location, translation and velocity are inputs. The disable/enable toggle that interrupts a gesture is the `InterruptRecognizer` event. UIKit may then deliver a cancelled state to the handler; that later call is a separate `HandleInteractiveGesture` with that reading, and is not chained automatically. Because the model re-enables the recognizer when it records the interrupt, that later call reads the recognizer as enabled, so no model run reaches the "recognizer disabled and percent at least 0.4" finish arm through an interrupt; in UIKit a cancelled state delivered during the toggle can take that arm.
- `deinit`, which removes the recognizers, is not modelled, and neither are weak references or ARC. A weak reference is an optional id that the model clears only where the code assigns nil.
- Objective-C associated-object storage is an optional field per controller, and the key constants of `AssociatedKeys.swift` are not modelled. `presentationTransitioningDelegateS` is modelled only as the hand-off to the new delegate in `DidEndTransitioning`.
- ModalProtocol.SetInteractivePresentToEnable, ModalProtocol.SetInteractiveDismissEnable and NavigationProtocol.SetNavigationInteractivePopEnabled: controllers are values in a finite tree, so a setter returns an updated copy of the controller. A parent, child or presenter that holds the old copy does not see the stored value, and callers must pass the current hierarchy. The aliasing of UIKit's object graph, where every holder sees the store at once, is not modelled.
- Overriding the enable-flag getters themselves (they are `open`) is not modelled. Only the stored values and the defaults are.
- `CGFloat` is `real`. NaN, infinities, zero view sizes and rounding are out of scope, and divisions require a positive width or height.
- ViewControllers.CallbackReceivers, ModalProtocol.InteractiveCallbackReceivers and NavigationProtocol.InteractivePopCallbackReceivers list the controllers that act in chain order. An override may do its own work before or after its `super` call, and the model does not record which, so the order in which those controllers act is not promised. What an override does besides forwarding is not modelled either.
- Concurrency is not modelled. All callbacks run one after another on one thread.
- The example application files and the tests are not part of this model.
- ModalDelegate.ShouldBeginStep: the branch that returns false when the main recognizer has no translation or location (line 260) cannot occur here, because a reading always has both.
- NavigationDelegate.NavigationTransitioningDelegate.HandleInteractiveGesture: the pop percent of the top controller is the input `popPercent` (see the pop-percent signature note above). The protocol's two-argument default is `NavigationProtocol.NavigationInteractivePopCompletePercent`.
- SemiPresentation.SizeForChildContentContainer: `super.size(forChildContentContainer:withParentContainerSize:)` is the input `inherited`.
- SemiPresentation.LayoutStep: the inner views follow the sheet through autoresizing; the model recomputes them with `WrappingFor`.
- SemiPresentation.SemiPresentationController: `dimmingColor`, opacity and corner masking carry no logic and are not modelled. An animation alongside the transition is modelled by the alpha it animates to.
- PresentAnimator and PushPopAnimator: the `animations` closure is modelled as one `RunCustomAnimations` call. What it does is not modelled. The `UIView.animate` block and its completion are appended in order, right after the animation starts.
- PushPopAnimator.PushPopAnimatedTransitioning.constructor: the property's initial value, the navigation push (line 27), is replaced by every initialiser and so cannot be observed.
