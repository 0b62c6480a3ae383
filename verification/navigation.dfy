/**
 The state `app.js` keeps between navigations and the hooks that change it.
 The host runs one navigation at a time (`preventRunning: true`): the
 outgoing view's `beforeLeave`, the container swap, then the incoming view's
 `afterEnter`. Interval ticks arrive between navigations.
 */
module Navigation {
  import opened Countdown
  import opened Views

  /** The view on screen: its namespace and its container. */
  datatype View = View(ns: Namespace, container: Container)

  class App {
    /** The module-level `notFromGate` flag: false until a view other than the gate has been entered. */
    var notFromGate: bool
    /** The module-level `updateDate`: the last handle `setInterval` returned; `clearInterval` does not reset it. */
    var updateDate: Option<IntervalId>
    /** The intervals the host is running, each with the container its `countdown` closure captured. */
    var live: map<IntervalId, Container>
    /** The handle the host's next `setInterval` returns. */
    var nextId: IntervalId
    /** The view on screen; `None` before the first page is entered and while a navigation swaps containers. */
    var shown: Option<View>
    /** Every command the hooks and ticks have issued, oldest first. */
    var log: seq<Effect>

    /**
     The running intervals are the ones the log leaves running, the log never
     starts an interval while another runs, and an interval runs only while
     ring is on screen, bound to ring's container and held in `updateDate`.
     */
    ghost predicate Valid()
      reads this
    {
      && Disciplined(log)
      && live.Keys == Live(log)
      && (forall id | id in live :: updateDate == Some(id) && shown == Some(View(Ring, live[id])))
    }

    /** Page load: no flag, no interval, nothing on screen yet. */
    constructor ()
      ensures Valid()
      ensures !notFromGate && updateDate == None && live == map[] && nextId == 0 && shown == None && log == []
    {
      notFromGate := false;
      updateDate := None;
      live := map[];
      nextId := 0;
      shown := None;
      log := [];
    }

    /** Issues one command. */
    method Emit(e: Effect)
      modifies this`log
      ensures log == old(log) + [e]
    {
      log := log + [e];
    }

    /**
     The host swaps in container `c` of view `ns` and runs that view's
     `afterEnter`. The flag ends true unless the view is the gate, which has
     no hook; ring starts the one interval, and no other view touches it.
     */
    method Enter(ns: Namespace, c: Container)
      requires Valid() && shown == None
      modifies this
      ensures Valid()
      ensures shown == Some(View(ns, c))
      ensures log == old(log) + AfterEnter(ns, c, old(notFromGate), old(nextId))
      ensures notFromGate == (ns != Home || old(notFromGate))
      ensures ns == Ring ==> updateDate == Some(old(nextId)) && live == map[old(nextId) := c] && nextId == old(nextId) + 1
      ensures ns != Ring ==> updateDate == old(updateDate) && live == map[] && nextId == old(nextId)
    {
      shown := Some(View(ns, c));
      match ns {
        case Home =>
        case Ring => RingAfterEnter(c);
        case Partner => PartnerAfterEnter(c);
        case Location => LocationAfterEnter(c);
        case Quote => QuoteAfterEnter(c);
        case Story => StoryAfterEnter(c);
        case Gift => GiftAfterEnter(c);
        case Comments => CommentsAfterEnter(c);
      }
      EnterLive(old(log), ns, c, old(notFromGate), old(nextId));
    }

    /** Ring's `afterEnter`: dim the menu if coming from the gate, start the countdown interval, animate, reveal. */
    method RingAfterEnter(c: Container)
      modifies this`log, this`notFromGate, this`nextId, this`updateDate, this`live
      ensures log == old(log) + AfterEnter(Ring, c, old(notFromGate), old(nextId))
      ensures notFromGate
      ensures updateDate == Some(old(nextId)) && live == old(live)[old(nextId) := c] && nextId == old(nextId) + 1
    {
      Emit(DisableZoom);
      if !notFromGate {
        Emit(HideMenu(c));
      }
      Emit(InitMenu(c));
      var id := nextId;
      nextId := nextId + 1;
      updateDate := Some(id);
      live := live[id := c];
      Emit(StartInterval(id, c));
      Emit(RingEnterTransition(c, notFromGate));
      if !notFromGate {
        Emit(ShowMenuButton(c));
      }
      notFromGate := true;
    }

    /** Partner's `afterEnter`: the new container becomes the scene's container for the photo interaction. */
    method PartnerAfterEnter(c: Container)
      modifies this`log, this`notFromGate
      ensures notFromGate
      ensures log == old(log) + AfterEnter(Partner, c, old(notFromGate), nextId)
    {
      Emit(DisableZoom);
      Emit(InitMenu(c));
      Emit(SetSceneContainer(c));
      Emit(EnterTransition(Partner, c));
      RevealAndSetFlag(c);
    }

    /** Location's `afterEnter`: no zoom change; two click handlers toggle the detail panel. */
    method LocationAfterEnter(c: Container)
      modifies this`log, this`notFromGate
      ensures notFromGate
      ensures log == old(log) + AfterEnter(Location, c, old(notFromGate), nextId)
    {
      Emit(InitMenu(c));
      Emit(BindDetailToggle(c, CloseButton));
      Emit(BindDetailToggle(c, GeoLink));
      Emit(EnterTransition(Location, c));
      RevealAndSetFlag(c);
    }

    /** Quote's `afterEnter`. */
    method QuoteAfterEnter(c: Container)
      modifies this`log, this`notFromGate
      ensures notFromGate
      ensures log == old(log) + AfterEnter(Quote, c, old(notFromGate), nextId)
    {
      Emit(DisableZoom);
      Emit(InitMenu(c));
      Emit(EnterTransition(Quote, c));
      RevealAndSetFlag(c);
    }

    /** Story's `afterEnter`, which runs the gallery animation. */
    method StoryAfterEnter(c: Container)
      modifies this`log, this`notFromGate
      ensures notFromGate
      ensures log == old(log) + AfterEnter(Story, c, old(notFromGate), nextId)
    {
      Emit(DisableZoom);
      Emit(InitMenu(c));
      Emit(EnterTransition(Story, c));
      RevealAndSetFlag(c);
    }

    /** Gift's `afterEnter`: wires the copy-to-clipboard control. */
    method GiftAfterEnter(c: Container)
      modifies this`log, this`notFromGate
      ensures notFromGate
      ensures log == old(log) + AfterEnter(Gift, c, old(notFromGate), nextId)
    {
      Emit(DisableZoom);
      Emit(InitMenu(c));
      Emit(CopyToClipboard(c));
      Emit(EnterTransition(Gift, c));
      RevealAndSetFlag(c);
    }

    /** Comments' `afterEnter`: raises the comments layer to z-index 2 and loads the comment list. */
    method CommentsAfterEnter(c: Container)
      modifies this`log, this`notFromGate
      ensures notFromGate
      ensures log == old(log) + AfterEnter(Comments, c, old(notFromGate), nextId)
    {
      Emit(DisableZoom);
      Emit(InitMenu(c));
      Emit(SetCommentsZIndex(c, 2));
      Emit(InitComments(c));
      Emit(EnterTransition(Comments, c));
      RevealAndSetFlag(c);
    }

    /** The tail of every enter hook but ring's and the gate's: reveal the menu button unless coming from inside, then set the flag. */
    method RevealAndSetFlag(c: Container)
      modifies this`log, this`notFromGate
      ensures notFromGate
      ensures log == old(log) + Reveal(c, old(notFromGate))
    {
      if !notFromGate {
        Emit(ShowMenuButton(c));
      }
      notFromGate := true;
    }

    /** Issues `resetMenuAndTransition(c)`. */
    method ResetMenuAndTransitionOn(c: Container)
      modifies this`log
      ensures log == old(log) + ResetMenuAndTransition(c)
    {
      Emit(SetOverlayTransform(OverlayCover));
      Emit(ResetMenu(c));
    }

    /**
     The host runs the `beforeLeave` of the view on screen and takes its
     container away. Leaving the gate clears the flag and no other view
     touches it; afterwards no interval is running, whichever view it was.
     */
    method Leave()
      requires Valid() && shown.Some?
      modifies this
      ensures Valid()
      ensures shown == None
      ensures log == old(log) + BeforeLeave(old(shown).value.ns, old(shown).value.container, old(updateDate))
      ensures notFromGate == (old(notFromGate) && old(shown).value.ns != Home)
      ensures live == map[]
      ensures updateDate == old(updateDate) && nextId == old(nextId)
    {
      var ns, c := shown.value.ns, shown.value.container;
      ghost var before := log;
      LeaveLive(before, ns, c, updateDate);
      if ns == Ring {
        RingBeforeLeave(c);
        assert notFromGate == old(notFromGate);
        assert Live(log) == LiveStep(Live(before), StopInterval(updateDate)) == {};
      } else {
        assert old(live) == map[];
        OtherBeforeLeave(ns, c);
        assert Live(log) == Live(before) == {};
      }
      shown := None;
    }

    /** Ring's `beforeLeave`: clear `updateDate`'s interval, then `resetMenuAndTransition`. */
    method RingBeforeLeave(c: Container)
      modifies this`log, this`live
      ensures live == Cleared(old(live), updateDate)
      ensures log == old(log) + BeforeLeave(Ring, c, updateDate)
    {
      Emit(StopInterval(updateDate));
      live := Cleared(live, updateDate);
      ResetMenuAndTransitionOn(c);
    }

    /** The `beforeLeave` of every view but ring; none of them touches the interval, and only the gate's touches the flag. */
    method OtherBeforeLeave(ns: Namespace, c: Container)
      requires ns != Ring
      modifies this`log, this`notFromGate
      ensures log == old(log) + BeforeLeave(ns, c, updateDate)
      ensures notFromGate == (old(notFromGate) && ns != Home)
    {
      match ns {
        case Home =>
          Emit(GateTransition);
          notFromGate := false;
        case Partner =>
          Emit(DisableTracking);
          ResetMenuAndTransitionOn(c);
        case Location =>
          Emit(DisableControls);
          ResetMenuAndTransitionOn(c);
        case Quote =>
          ResetMenuAndTransitionOn(c);
        case Story =>
          ResetMenuAndTransitionOn(c);
          Emit(ResetFar);
        case Gift =>
          ResetMenuAndTransitionOn(c);
        case Comments =>
          Emit(SetCommentsZIndex(c, 0));
          ResetMenuAndTransitionOn(c);
      }
    }

    /**
     One serialised navigation to container `c` of view `ns`. Afterwards at most
     one interval runs, and the flag is true exactly when the new view is not
     the gate or it was already true and the view left was not the gate.
     */
    method Navigate(ns: Namespace, c: Container)
      requires Valid() && shown.Some?
      modifies this
      ensures Valid()
      ensures shown == Some(View(ns, c))
      ensures |live| <= 1
      ensures ns == Ring ==> live == map[old(nextId) := c] && nextId == old(nextId) + 1
      ensures ns != Ring ==> live == map[] && nextId == old(nextId)
      ensures updateDate == (if ns == Ring then Some(old(nextId)) else old(updateDate))
      ensures notFromGate == (ns != Home || (old(notFromGate) && old(shown).value.ns != Home))
    {
      Leave();
      Enter(ns, c);
      DisciplinedAtMostOneLive(log);
    }

    /**
     One firing of interval `id`: `countdown` on the container it captured.
     With time left it shows the days, hours and minutes and the interval
     keeps running; otherwise it clears `updateDate` and nothing runs any more.
     */
    method Tick(id: IntervalId, deadline: int, now: int)
      requires Valid() && id in live
      modifies this`log, this`live
      ensures Valid()
      ensures deadline - now > 0 ==>
        live == old(live) && log == old(log) + [ShowRemaining(old(live)[id], CalcDate(deadline - now))]
      ensures deadline - now <= 0 ==>
        live == map[] && log == old(log) + [StopInterval(updateDate)]
    {
      var gap := deadline - now;
      Snoc(log, if gap > 0 then ShowRemaining(live[id], CalcDate(gap)) else StopInterval(updateDate));
      if gap > 0 {
        Emit(ShowRemaining(live[id], CalcDate(gap)));
      } else {
        Emit(StopInterval(updateDate));
        live := Cleared(live, updateDate);
      }
    }
  }

  /**
   The host's intervals after `clearInterval(handle)`: the handle's interval, if
   any, no longer runs and the others are untouched; on an undefined or already
   cleared handle nothing changes.
   */
  function Cleared(live: map<IntervalId, Container>, handle: Option<IntervalId>): (r: map<IntervalId, Container>)
    ensures handle.Some? ==> handle.value !in r
    ensures forall id | id in live :: (id in r <==> handle != Some(id))
    ensures forall id | id in r :: id in live && r[id] == live[id]
    ensures handle.None? || handle.value !in live ==> r == live
    ensures r.Keys == LiveStep(live.Keys, StopInterval(handle))
  {
    if handle.Some? then live - {handle.value} else live
  }

  /**
   Ring, gift, ring from the gate: the countdown runs on each ring visit and
   never twice at once; the gift visit runs none.
   */
  method RingGiftRing() returns (running: seq<nat>)
    ensures running == [1, 0, 1]
  {
    var app := new App();
    app.Enter(Home, 0);
    app.Navigate(Ring, 1);
    assert app.updateDate == Some(0);
    assert app.live == map[0 := 1];
    running := [|app.live|];
    app.Navigate(Gift, 2);
    assert app.updateDate == Some(0);
    assert app.live == map[];
    running := running + [|app.live|];
    app.Navigate(Ring, 3);
    assert app.updateDate == Some(1);
    assert app.live == map[1 := 3];
    running := running + [|app.live|];
  }
}
