# Wedding site view transitions, modelled in Dafny

The site is a single page. The barba navigation library swaps one view's
container for the next one, and a persistent WebGL camera scene stays in
place behind it. `src/js/app.js` gives barba a table of eight views: `home`
(the landing gate), `ring`, `partner`, `location`, `quote`, `story`, `gift`
and `comments`. Each view has an optional `afterEnter` hook and an optional
`beforeLeave` hook. The hooks share two module-level variables:

- `notFromGate`: false until a view other than the gate has been entered. It
  is reset when the gate is left. It decides whether the menu button is
  revealed and whether ring first dims its menu.
- `updateDate`: the handle of the countdown interval. Ring starts that
  interval and ring clears it. The interval also clears itself once the
  wedding date has passed.

The model has three modules:

- `Countdown` (`countdown.dfy`) is `calcDate`'s integer arithmetic. It uses
  JavaScript's truncating `Math.trunc(a / b)` and `%`, written out for any sign.
  It proves the triple's bounds, that the triple is the gap rounded down to the
  minute, that the triple is unique, and two worked cases.
- `Views` (`views.dfy`) describes each hook as the list of commands it issues,
  in order. These are camera flags, menu calls, animations, DOM writes and
  `setInterval`/`clearInterval`. The module's lemmas state how the eight views
  differ. It also replays the host's running intervals from a command log. A
  "disciplined" log (one that never starts an interval while another runs)
  never has two intervals running at once.
- `Navigation` (`navigation.dfy`) has the class `App`. Its fields are
  `notFromGate`, `updateDate`, the host's running intervals, the view on screen
  and the command log. There is one method per hook, plus `Enter`, `Leave`,
  `Navigate` and `Tick`. `preventRunning: true` makes the host run one
  navigation at a time. The model expresses that through the `shown` field:
  `Leave` needs a view on screen and removes it, and `Enter` needs none and
  puts one there. The invariant `Valid()` is established by the constructor and
kept by `Enter`, `Leave`, `Navigate` and `Tick`. It says the
  running intervals are exactly those the log leaves running, that the log is
  disciplined, and that an interval runs only while ring is on screen and is
  the one `updateDate` holds.

Three points of `app.js` a reader might expect otherwise:

- No "configuration error" for an unknown namespace. The views table never
  rejects one.
- `notFromGate` starts false at page load, not only after leaving the gate.
- `location` does not switch zoom off on enter. It sets `controls.enabled = false` on leave instead.

## Model

| member | source | states |
|---|---|---|
| Countdown.ConversionChain | src/js/app.js:249-252 | the minute, hour and day constants are 60 seconds, 60 minutes and 24 hours of 1000 ms |
| Countdown.TruncDiv | src/js/app.js:268-270 | `Math.trunc(a / b)` rounds toward zero: for a ≥ 0 it is the floor (q·b ≤ a < q·b + b); for a < 0 it is the ceiling |
| Countdown.TruncRem | src/js/app.js:269-270 | JavaScript `%` takes the dividend's sign and equals a − trunc(a/b)·b; it lies in [0, b) for a ≥ 0 and in (−b, 0] for a < 0 |
| Countdown.CalcDate | src/js/app.js:265-275 | for gap > 0: days ≥ 0, 0 ≤ hours < 24, 0 ≤ minutes < 60, and days·86400000 + hours·3600000 + minutes·60000 ≤ gap < that sum + 60000 |
| Countdown.CalcDateUnique | src/js/app.js:249-252 | any in-range triple whose span is the gap rounded down to the minute equals `calcDate`'s triple, so the bounds above specify it completely |
| Countdown.OneDayLeft | src/js/app.js:268-270 | a gap of 86400000 ms (target 2022-07-16T00:00, now a day earlier) shows 1 day, 0 hours, 0 minutes |
| Countdown.HourAndAHalfLeft | src/js/app.js:268-270 | a gap of 5400000 ms shows 0 days, 1 hour, 30 minutes |
| Views.ResetMenuAndTransition | src/js/app.js:49-53 | writes `translateY(-100%);` to the overlay's `style.transform` before resetting the menu of the given container, and issues nothing else |
| Views.AfterEnter | src/js/app.js:69-226 | the gate view has no `afterEnter`; every other view's hook issues at least one command |
| Views.RevealOnlyFromGate | src/js/app.js:93-218 | every non-gate enter reveals the menu button exactly when `notFromGate` was false on entry, as its last command |
| Views.ZoomOffBeforeMenu | src/js/app.js:82-213 | every non-gate enter calls `menu` on its container; zoom is switched off exactly by the views other than the gate and location, as the first command and before `menu` |
| Views.RingDimsMenuBeforeAnimating | src/js/app.js:84-93 | only ring sets the menu opacity to 0, only when `notFromGate` was false, and before `ringEnterTransition`; that animation receives the flag as it was before the hook set it |
| Views.OnlyRingStartsInterval | src/js/app.js:80-96 | only ring's enter calls `setInterval`: once, with the fresh handle, bound to ring's container; no enter hook calls `clearInterval` |
| Views.EnterExtras | src/js/app.js:105-219 | the non-gate, non-ring views run their own animation on the container; the scene container, the two detail toggles, the clipboard wiring, comments z-index 2 and the comment list each belong to exactly one view |
| Views.EnterNeverTearsDown | src/js/app.js:78-219 | no enter hook resets the menu, writes the overlay's transform, disables tracking or controls, resets the far plane or runs the gate transition |
| Views.BeforeLeave | src/js/app.js:71-225 | leaving the gate issues exactly `gateTransition`; leaving any other view writes `translateY(-100%);` to the overlay's `style.transform` and then resets that view's menu |
| Views.GateLeaveOnly | src/js/app.js:71-75 | `gateTransition` is issued by the gate's leave hook and by no other |
| Views.RingLeaveClearsFirst | src/js/app.js:98-102 | only ring's leave clears an interval (the `updateDate` handle), as its first command and before `resetMenuAndTransition`; no leave hook starts an interval |
| Views.LeaveExtras | src/js/app.js:118-225 | `disableTracking` only leaving partner, `controls.enabled = false` only leaving location, `resetFar` only leaving story and after the menu reset, comments z-index 0 only leaving comments |
| Views.LeaveNeverSetsUp | src/js/app.js:71-225 | no leave hook reveals, dims or initialises the menu, switches zoom off or animates a view in |
| Views.EnterLive | src/js/app.js:78-219 | an enter hook changes the running intervals only if it is ring's, which adds its fresh handle; the log stays disciplined exactly when no interval was running |
| Views.LeaveLive | src/js/app.js:71-225 | a leave hook changes the running intervals only if it is ring's, which clears the handle it is given; every leave keeps the log disciplined |
| Views.DisciplinedAtMostOneLive | src/js/app.js:86-101 | a log that never starts an interval while another runs never has more than one interval running |
| Views.StopTwiceIsNoOp | src/js/app.js:259-262 | clearing a handle a second time changes nothing, and a cleared handle is no longer running |
| Navigation.Cleared | src/js/app.js:259-262 | `clearInterval(handle)` stops that handle's interval and no other; an undefined or already-cleared handle changes nothing; its running handles are those `Views.LiveStep` replays for the same call |
| Navigation.App.constructor | src/js/app.js:55-59 | at page load `notFromGate` is false, `updateDate` is undefined, no interval runs and no view is on screen |
| Navigation.App.Enter | src/js/app.js:69-226 | appends the view's `afterEnter` commands to the log. The flag ends true unless the view is the gate. Ring sets `updateDate` to a fresh handle that becomes the only running interval. Other views leave the handle alone, and nothing runs after them. The invariant is kept |
| Navigation.App.RingAfterEnter | src/js/app.js:80-96 | ring's hook, command by command; ends with the flag true and the fresh handle running on ring's container |
| Navigation.App.PartnerAfterEnter | src/js/app.js:107-116 | partner's hook, command by command; ends with the flag true |
| Navigation.App.LocationAfterEnter | src/js/app.js:127-144 | location's hook, command by command; ends with the flag true |
| Navigation.App.QuoteAfterEnter | src/js/app.js:156-163 | quote's hook, command by command; ends with the flag true |
| Navigation.App.StoryAfterEnter | src/js/app.js:173-180 | story's hook, command by command; ends with the flag true |
| Navigation.App.GiftAfterEnter | src/js/app.js:191-200 | gift's hook, command by command; ends with the flag true |
| Navigation.App.CommentsAfterEnter | src/js/app.js:210-219 | comments' hook, command by command; ends with the flag true |
| Navigation.App.ResetMenuAndTransitionOn | src/js/app.js:49-53 | issues exactly the `resetMenuAndTransition` commands |
| Navigation.App.Leave | src/js/app.js:71-225 | appends the on-screen view's `beforeLeave` commands to the log and removes the view. The flag is cleared only when the gate is left. Afterwards no interval runs. `updateDate` keeps its value. The invariant is kept |
| Navigation.App.RingBeforeLeave | src/js/app.js:98-102 | clears `updateDate`'s interval and then issues `resetMenuAndTransition` |
| Navigation.App.OtherBeforeLeave | src/js/app.js:71-225 | the leave hooks other than ring's; only the gate's touches the flag (setting it false) |
| Navigation.App.Navigate | src/js/app.js:229 | one serialised navigation. Afterwards at most one interval runs, and one runs exactly when the new view is ring. `updateDate` then holds ring's fresh handle, or for any other view keeps its old (possibly stale) value. The flag is true unless the new view is the gate, in which case it stays true only if it was true and the view left was not the gate |
| Navigation.App.Tick | src/js/app.js:236-263 | one firing of a running interval. With a positive gap it shows `CalcDate(gap)` in the interval's container and the interval keeps running. Otherwise it clears `updateDate` and shows nothing. Afterwards no interval runs |
| Navigation.RingGiftRing | src/js/app.js:86-101 | from the gate, visiting ring, gift, ring runs 1, 0, 1 countdown intervals: never two at once |

## Left out

- Barba itself is not modelled: the prefetch plugin, fetching pages, swapping the DOM, the `timeout: 600000` setting and `logLevel`. A navigation is a `Leave` followed by an `Enter`. Failed or timed-out navigations are not modelled.
- Hooks are assumed to run to completion; a hook that throws part-way is not modelled. The `partner` getter (app.js:43) returns `undefined` until `experience.World.partnerPhotos` is set, so the `.disableTracking()` call at app.js:120 can throw before `resetMenuAndTransition` at app.js:121 runs. The `querySelector(...).style` writes at app.js:51, 84, 214 and 223 throw when the element is missing. If `ringEnterTransition` (app.js:91) throws, the interval is already started but `notFromGate = true` (app.js:95) never runs. In each case the model's command list is longer than what the page actually does.
- The DOM is not modelled. `querySelector`, `style`, `innerText`, `classList.toggle` and the `onclick` handlers are recorded as commands on an opaque container handle. What the two location click handlers do when clicked is not modelled.
- The overlay's transform value is kept as the code writes it, trailing semicolon included. Whether the browser accepts that value is not modelled.
- The WebGL `Experience`, the `animationTargets` getters and the animation functions are recorded as commands and not modelled further. Those animation functions are the GSAP-based ones in `./Animation`, plus `menu`, `resetMenu`, `showMenuButton`, `comment` and `copyToClipboard`. Their source is not part of this model.
- The countdown's deadline comes from `new Date("2022-07-16T00:00:00")` in the local time zone, and "now" from `new Date().getTime()`. Both are `Tick` parameters in integer milliseconds.
- The 1000 ms period of `setInterval` is not modelled. Each firing is an explicit `Tick` call made between navigations. There is no clock and no concurrency.
- Countdown.TruncDiv: uses exact integer division. JavaScript divides in double precision, which gives the same result only for gaps below 2^53 ms.
- Navigation.App.Navigate: does not repeat the command log in its contract. `Leave` and `Enter` state it exactly, and `Navigate` is those two calls in sequence.
