/**
 The views table handed to barba: eight namespaces, each with an optional
 `afterEnter` and an optional `beforeLeave` hook. A hook is modelled by the
 list of commands it issues to its collaborators (the camera, the menu, the
 per-view animations, the DOM and the host's interval timers), in the order
 it issues them.
 */
module Views {
  import opened Countdown

  datatype Option<T> = None | Some(value: T)

  /** The view identifiers; `Home` is the landing gate. */
  datatype Namespace = Home | Ring | Partner | Location | Quote | Story | Gift | Comments

  /** An opaque handle on a view's container element. */
  type Container = nat

  /** A handle returned by `setInterval`. */
  type IntervalId = nat

  /** The two elements of the location view whose `onclick` toggles the detail panel. */
  datatype Toggle = CloseButton | GeoLink

  /** The value `resetMenuAndTransition` writes into the overlay's `style.transform`, kept verbatim. */
  const OverlayCover: string := "translateY(-100%);"

  /** One command a hook issues. */
  datatype Effect =
    | GateTransition                              // gateTransition(camera)
    | DisableZoom                                 // camera.controls.enableZoom = false
    | DisableControls                             // camera.controls.enabled = false
    | ResetFar                                    // camera.resetFar()
    | DisableTracking                             // partner().disableTracking()
    | HideMenu(c: Container)                      // #navigation-menu style.opacity = 0
    | InitMenu(c: Container)                      // menu(container)
    | ShowMenuButton(c: Container)                // showMenuButton(container)
    | SetOverlayTransform(value: string)          // .transition style.transform = value
    | ResetMenu(c: Container)                     // resetMenu(container)
    | StartInterval(id: IntervalId, c: Container) // setInterval(() => countdown(c), 1000)
    | StopInterval(handle: Option<IntervalId>)    // clearInterval(updateDate)
    | RingEnterTransition(c: Container, notFromGate: bool)
    | EnterTransition(ns: Namespace, c: Container) // the other views' *EnterTransition
    | SetSceneContainer(c: Container)             // experience.World.container = container
    | BindDetailToggle(c: Container, on: Toggle)  // element.onclick = toggle .loc-detail active
    | CopyToClipboard(c: Container)
    | SetCommentsZIndex(c: Container, z: int)     // #comments-container style.zIndex = z
    | InitComments(c: Container)                  // comment(container)
    | ShowRemaining(c: Container, r: Remaining)   // the .days/.hours/.minutes innerText writes

  /** Effect `a` is issued before effect `b`. */
  predicate Precedes(fx: seq<Effect>, a: Effect, b: Effect)
  {
    exists i, j :: 0 <= i < j < |fx| && fx[i] == a && fx[j] == b
  }

  /** `resetMenuAndTransition(container)`: write `translateY(-100%);` to the overlay's `style.transform`, then reset the menu. */
  function ResetMenuAndTransition(c: Container): (fx: seq<Effect>)
    ensures Precedes(fx, SetOverlayTransform(OverlayCover), ResetMenu(c))
    ensures forall e <- fx :: e == SetOverlayTransform(OverlayCover) || e == ResetMenu(c)
  {
    var fx := [SetOverlayTransform(OverlayCover), ResetMenu(c)];
    assert fx[0] == SetOverlayTransform(OverlayCover) && fx[1] == ResetMenu(c);
    fx
  }

  /** The menu-button reveal that closes every enter hook but the gate's: only when not coming from inside. */
  function Reveal(c: Container, notFromGate: bool): seq<Effect>
  {
    if notFromGate then [] else [ShowMenuButton(c)]
  }

  /**
   The `afterEnter` hook of `ns` on the new container `c`, with `notFromGate`
   as it is when the hook starts and `id` the handle `setInterval` would return.
   The gate view has no `afterEnter`; every other view issues something.
   */
  function AfterEnter(ns: Namespace, c: Container, notFromGate: bool, id: IntervalId): (fx: seq<Effect>)
    ensures fx == [] <==> ns == Home
  {
    match ns
    case Home => []
    case Ring =>
      if notFromGate then
        [DisableZoom, InitMenu(c), StartInterval(id, c), RingEnterTransition(c, notFromGate)]
      else
        var fx := [DisableZoom, HideMenu(c), InitMenu(c), StartInterval(id, c), RingEnterTransition(c, notFromGate),
                   ShowMenuButton(c)];
        assert fx[1] == HideMenu(c) && fx[4] == RingEnterTransition(c, notFromGate);
        fx
    case Partner =>
      [DisableZoom, InitMenu(c), SetSceneContainer(c), EnterTransition(Partner, c)] + Reveal(c, notFromGate)
    case Location =>
      [InitMenu(c), BindDetailToggle(c, CloseButton), BindDetailToggle(c, GeoLink), EnterTransition(Location, c)]
        + Reveal(c, notFromGate)
    case Quote =>
      [DisableZoom, InitMenu(c), EnterTransition(Quote, c)] + Reveal(c, notFromGate)
    case Story =>
      [DisableZoom, InitMenu(c), EnterTransition(Story, c)] + Reveal(c, notFromGate)
    case Gift =>
      [DisableZoom, InitMenu(c), CopyToClipboard(c), EnterTransition(Gift, c)] + Reveal(c, notFromGate)
    case Comments =>
      [DisableZoom, InitMenu(c), SetCommentsZIndex(c, 2), InitComments(c), EnterTransition(Comments, c)]
        + Reveal(c, notFromGate)
  }

  /** The menu button is revealed by every view but the gate exactly when the flag was false, as its last step. */
  lemma RevealOnlyFromGate(ns: Namespace, c: Container, notFromGate: bool, id: IntervalId)
    requires ns != Home
    ensures var fx := AfterEnter(ns, c, notFromGate, id);
      (ShowMenuButton(c) in fx <==> !notFromGate) &&
      (!notFromGate ==> fx[|fx| - 1] == ShowMenuButton(c))
  {
  }

  /** Every view but the gate initialises its menu; all but the gate and location switch zoom off first, before the menu. */
  lemma ZoomOffBeforeMenu(ns: Namespace, c: Container, notFromGate: bool, id: IntervalId)
    ensures var fx := AfterEnter(ns, c, notFromGate, id);
      (ns != Home ==> InitMenu(c) in fx) &&
      (DisableZoom in fx <==> ns != Home && ns != Location) &&
      (DisableZoom in fx ==> fx[0] == DisableZoom && Precedes(fx, DisableZoom, InitMenu(c)))
  {
  }

  /**
   Ring alone dims its menu, only when the flag was false, and does so before its
   animation, which receives the flag as it was before the hook set it.
   */
  lemma RingDimsMenuBeforeAnimating(ns: Namespace, c: Container, notFromGate: bool, id: IntervalId)
    ensures var fx := AfterEnter(ns, c, notFromGate, id);
      (HideMenu(c) in fx <==> ns == Ring && !notFromGate) &&
      (ns == Ring ==> RingEnterTransition(c, notFromGate) in fx) &&
      (ns == Ring && !notFromGate ==> Precedes(fx, HideMenu(c), RingEnterTransition(c, notFromGate)))
  {
  }

  /** Ring alone starts an interval, the one with the fresh handle, bound to its container; no enter hook clears one. */
  lemma OnlyRingStartsInterval(ns: Namespace, c: Container, notFromGate: bool, id: IntervalId)
    ensures var fx := AfterEnter(ns, c, notFromGate, id);
      (StartInterval(id, c) in fx <==> ns == Ring) &&
      (forall e <- fx :: e.StartInterval? ==> e == StartInterval(id, c)) &&
      (forall e <- fx :: !e.StopInterval?)
  {
  }

  /** The views other than the gate and ring run their own animation; the per-view extras belong to one view each. */
  lemma EnterExtras(ns: Namespace, c: Container, notFromGate: bool, id: IntervalId)
    ensures var fx := AfterEnter(ns, c, notFromGate, id);
      (ns != Home && ns != Ring ==> EnterTransition(ns, c) in fx) &&
      (SetSceneContainer(c) in fx <==> ns == Partner) &&
      (BindDetailToggle(c, CloseButton) in fx <==> ns == Location) &&
      (BindDetailToggle(c, GeoLink) in fx <==> ns == Location) &&
      (CopyToClipboard(c) in fx <==> ns == Gift) &&
      (SetCommentsZIndex(c, 2) in fx <==> ns == Comments) &&
      (InitComments(c) in fx <==> ns == Comments)
  {
  }

  /** An enter hook never tears anything down. */
  lemma EnterNeverTearsDown(ns: Namespace, c: Container, notFromGate: bool, id: IntervalId)
    ensures forall e <- AfterEnter(ns, c, notFromGate, id) ::
      !e.ResetMenu? && !e.SetOverlayTransform? && !e.DisableTracking? && !e.ResetFar? && !e.DisableControls?
      && !e.GateTransition?
  {
  }

  /** An ordering survives adding commands on either side. */
  lemma {:induction false} PrecedesExtend(pre: seq<Effect>, fx: seq<Effect>, post: seq<Effect>, a: Effect, b: Effect)
    requires Precedes(fx, a, b)
    ensures Precedes(pre + fx + post, a, b)
  {
    var i, j :| 0 <= i < j < |fx| && fx[i] == a && fx[j] == b;
    var all := pre + fx + post;
    assert all[|pre| + i] == a && all[|pre| + j] == b;
  }

  /**
   The `beforeLeave` hook of `ns` on the outgoing container `c`, with `handle`
   the value of `updateDate` when the hook starts. Leaving the gate runs the
   outward camera move and nothing else; every other view writes
   `translateY(-100%);` to the overlay's `style.transform` and then resets its menu.
   */
  function BeforeLeave(ns: Namespace, c: Container, handle: Option<IntervalId>): (fx: seq<Effect>)
    ensures ns == Home ==> fx == [GateTransition]
    ensures ns != Home ==> Precedes(fx, SetOverlayTransform(OverlayCover), ResetMenu(c))
  {
    var reset := ResetMenuAndTransition(c);
    match ns
    case Home => [GateTransition]
    case Ring => Around([StopInterval(handle)], [], c)
    case Partner => Around([DisableTracking], [], c)
    case Location => Around([DisableControls], [], c)
    case Quote => reset
    case Story => Around([], [ResetFar], c)
    case Gift => reset
    case Comments => Around([SetCommentsZIndex(c, 0)], [], c)
  }

  /** A view's own teardown commands placed before and after `resetMenuAndTransition`. */
  function Around(pre: seq<Effect>, post: seq<Effect>, c: Container): (fx: seq<Effect>)
    ensures Precedes(fx, SetOverlayTransform(OverlayCover), ResetMenu(c))
  {
    var reset := ResetMenuAndTransition(c);
    PrecedesExtend(pre, reset, post, SetOverlayTransform(OverlayCover), ResetMenu(c));
    pre + reset + post
  }

  /** The gate's leave hook alone runs the outward camera move. */
  lemma GateLeaveOnly(ns: Namespace, c: Container, handle: Option<IntervalId>)
    ensures GateTransition in BeforeLeave(ns, c, handle) <==> ns == Home
  {
  }

  /**
   Ring's leave hook alone clears the interval, the one `updateDate` holds, first
   and before the menu reset; no leave hook starts one.
   */
  lemma RingLeaveClearsFirst(ns: Namespace, c: Container, handle: Option<IntervalId>)
    ensures var fx := BeforeLeave(ns, c, handle);
      (StopInterval(handle) in fx <==> ns == Ring) &&
      (ns == Ring ==> fx[0] == StopInterval(handle) && Precedes(fx, StopInterval(handle), ResetMenu(c))) &&
      (forall e <- fx :: e.StopInterval? ==> e == StopInterval(handle)) &&
      (forall e <- fx :: !e.StartInterval?)
  {
  }

  /** The per-view teardown extras belong to one view each; story resets the far plane last. */
  lemma LeaveExtras(ns: Namespace, c: Container, handle: Option<IntervalId>)
    ensures var fx := BeforeLeave(ns, c, handle);
      (DisableTracking in fx <==> ns == Partner) &&
      (DisableControls in fx <==> ns == Location) &&
      (ResetFar in fx <==> ns == Story) &&
      (ns == Story ==> fx[|fx| - 1] == ResetFar && Precedes(fx, ResetMenu(c), ResetFar)) &&
      (SetCommentsZIndex(c, 0) in fx <==> ns == Comments)
  {
  }

  /** A leave hook never reveals the menu or animates a view in. */
  lemma LeaveNeverSetsUp(ns: Namespace, c: Container, handle: Option<IntervalId>)
    ensures forall e <- BeforeLeave(ns, c, handle) ::
      !e.ShowMenuButton? && !e.InitMenu? && !e.HideMenu? && !e.EnterTransition? && !e.RingEnterTransition?
      && !e.DisableZoom?
  {
  }

  /** The host's running intervals after one command: `clearInterval` of a dead or undefined handle does nothing. */
  function LiveStep(live: set<IntervalId>, e: Effect): set<IntervalId>
  {
    match e
    case StartInterval(id, _) => live + {id}
    case StopInterval(h) => if h.Some? then live - {h.value} else live
    case _ => live
  }

  /** The intervals a log of commands leaves running, replayed from a page with none. */
  function Live(log: seq<Effect>): set<IntervalId>
    decreases |log|
  {
    if log == [] then {} else LiveStep(Live(log[..|log| - 1]), log[|log| - 1])
  }

  /** No command of the log starts an interval while another is still running. */
  predicate Disciplined(log: seq<Effect>)
    decreases |log|
  {
    log == [] ||
    (Disciplined(log[..|log| - 1]) && (log[|log| - 1].StartInterval? ==> Live(log[..|log| - 1]) == {}))
  }

  /** Appending one command replays one step. */
  lemma Snoc(log: seq<Effect>, e: Effect)
    ensures Live(log + [e]) == LiveStep(Live(log), e)
    ensures Disciplined(log + [e]) <==> Disciplined(log) && (e.StartInterval? ==> Live(log) == {})
  {
  }

  /** A batch of commands that neither starts nor clears an interval. */
  predicate Quiet(fx: seq<Effect>)
  {
    forall e <- fx :: !e.StartInterval? && !e.StopInterval?
  }

  /** Appending a quiet batch leaves the running intervals and the discipline as they were. */
  lemma {:induction false} QuietAppend(log: seq<Effect>, fx: seq<Effect>)
    requires Quiet(fx)
    ensures Live(log + fx) == Live(log)
    ensures Disciplined(log + fx) <==> Disciplined(log)
  {
    if fx == [] {
      assert log + fx == log;
    } else {
      var init, last := fx[..|fx| - 1], fx[|fx| - 1];
      assert forall e <- init :: e in fx;
      QuietAppend(log, init);
      assert log + fx == (log + init) + [last];
      assert last in fx;
      Snoc(log + init, last);
    }
  }

  /**
   An enter hook touches the running intervals only if it is ring's, which adds
   its fresh handle, and keeps the log disciplined exactly when none was running.
   */
  lemma EnterLive(log: seq<Effect>, ns: Namespace, c: Container, notFromGate: bool, id: IntervalId)
    ensures var after := log + AfterEnter(ns, c, notFromGate, id);
      Live(after) == (if ns == Ring then Live(log) + {id} else Live(log)) &&
      (Disciplined(after) <==> Disciplined(log) && (ns == Ring ==> Live(log) == {}))
  {
    var fx := AfterEnter(ns, c, notFromGate, id);
    if ns == Ring {
      var k := if notFromGate then 2 else 3;
      var pre, post := fx[..k], fx[k + 1..];
      assert fx == pre + [StartInterval(id, c)] + post;
      QuietAppend(log, pre);
      Snoc(log + pre, StartInterval(id, c));
      QuietAppend(log + pre + [StartInterval(id, c)], post);
      assert log + fx == log + pre + [StartInterval(id, c)] + post;
    } else {
      OnlyRingStartsInterval(ns, c, notFromGate, id);
      QuietAppend(log, fx);
    }
  }

  /**
   A leave hook touches the running intervals only if it is ring's, which clears
   the handle it is given, and it always keeps the log disciplined.
   */
  lemma LeaveLive(log: seq<Effect>, ns: Namespace, c: Container, handle: Option<IntervalId>)
    ensures var after := log + BeforeLeave(ns, c, handle);
      Live(after) == (if ns == Ring then LiveStep(Live(log), StopInterval(handle)) else Live(log)) &&
      (Disciplined(after) <==> Disciplined(log))
  {
    var fx := BeforeLeave(ns, c, handle);
    if ns == Ring {
      var post := fx[1..];
      assert post == ResetMenuAndTransition(c);
      Snoc(log, StopInterval(handle));
      QuietAppend(log + [StopInterval(handle)], post);
      assert log + fx == log + [StopInterval(handle)] + post;
    } else {
      RingLeaveClearsFirst(ns, c, handle);
      QuietAppend(log, fx);
    }
  }

  /** A disciplined log never has two intervals running at once. */
  lemma {:induction false} DisciplinedAtMostOneLive(log: seq<Effect>)
    requires Disciplined(log)
    ensures |Live(log)| <= 1
  {
    if log != [] {
      var prefix := log[..|log| - 1];
      DisciplinedAtMostOneLive(prefix);
      match log[|log| - 1]
      case StartInterval(id, _) =>
        assert Live(log) == {id};
      case StopInterval(h) =>
        assert Live(log) <= Live(prefix);
      case _ =>
    }
  }

  /** `clearInterval` on a handle already cleared changes nothing. */
  lemma {:induction false} StopTwiceIsNoOp(log: seq<Effect>, h: Option<IntervalId>)
    ensures Live(log + [StopInterval(h), StopInterval(h)]) == Live(log + [StopInterval(h)])
    ensures h.Some? ==> h.value !in Live(log + [StopInterval(h)])
  {
    Snoc(log, StopInterval(h));
    Snoc(log + [StopInterval(h)], StopInterval(h));
    assert log + [StopInterval(h)] + [StopInterval(h)] == log + [StopInterval(h), StopInterval(h)];
  }
}
