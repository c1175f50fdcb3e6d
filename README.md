# f-to-pay-a-visit, modelled in Dafny

`f-to-pay-a-visit.js` is a browser script that adds keyboard hints to a page.
It has four modes. In `INACTIVE`, `f` shows a short letter label on every
visible clickable element, and the mode becomes `ACTIVE`. In `ACTIVE`,
typing a label's letters narrows the shown labels until one remains, and
that element is then clicked. `y` then `f` does the same in copy mode
(`yank`): the chosen link's address is copied instead of clicked. `,`
opens a short chord window (`ESCAPED`). A 500 ms timer ends the two chord
states.

The model has six modules:

- `Automaton` (`automaton.dfy`): the generic automaton `dfa`. It covers
  registration, including how a self-loop on a new state gets lost. It also
  covers lookup: the throws, the silent no-op, an exact key before `ANY`, and
  committing `result ?? to`. This is a class `Dfa` with the two fields the
  source mutates, specified by pure functions.
- `Dom` (`dom.dfy`): the document. Elements are indices in document order,
  and each has a parent index below its own. This module holds
  `getNAncestors`, `isContentEditable` and `isInputElement`.
- `Targets` (`targets.dfy`): the loop in `getTargetableElements` that
  collapses nested clickable elements. It is a loop method, specified by a
  fold, and proved to leave no kept element within five levels below
  another kept element. A target below a kept link with an address is
  dropped, and any other kept ancestor is swapped for the target.
- `Labels` (`labels.dfy`): `generateIdxes`, the breadth-first queue loop.
  It is proved to return every string of the chosen width, each spelling a
  base-15 numeral. The strings come in lexicographic order and are pairwise
  distinct.
- `Filter` (`filter.dfy`): `partition`, the upper-casing and backspace
  update of `filterString`, and hiding the tags that do not match.
- `Hinter` (`hinter.dfy`): the mode table, the actions it runs, and the
  module variables those actions update (`tagsInDom`, `filterString`,
  `yank`, `timeoutId`). They are collected in a class `Session`. Each method
  is proved against a pure step function on a `World` value. The invariants
  of the mode switcher are proved about that function:
  - the automaton never leaves its four modes;
  - exactly one timer is armed in `YANK` and `ESCAPED`, and none otherwise;
  - tags and filter text exist only in `ACTIVE`.

The script has no disabled mode and handles no focus or blur events.
`Escape` in `INACTIVE` blurs only the focused element. A selection's
effects run synchronously inside the dispatch.

## Model

| member | source | states |
|---|---|---|
| Automaton.Register | f-to-pay-a-visit.js:9-17 | after `addTransition`, both `from` and `to` are known states and no other state is added |
| Automaton.Registered | f-to-pay-a-visit.js:9-17 | `from`'s transition on `k` is `{to, f}` and its other transitions are unchanged, unless this is a self-loop on a new state, whose record is left empty; `to` keeps its record or gets an empty one; every other state is untouched |
| Automaton.ReRegisterReplaces | f-to-pay-a-visit.js:10-15 | registering the same `(from, k)` twice leaves `from`'s old record with only the second transition on `k`, always (the first registration makes `from` known, so a second self-loop is kept); this is the record registering the second alone gives, unless that alone would be the lost self-loop on a new state |
| Automaton.Resolve | f-to-pay-a-visit.js:41-47 | the exact-key transition is chosen when present, otherwise the `ANY` one; none exists only when both are absent |
| Automaton.Lookup | f-to-pay-a-visit.js:23-53 | `input` throws exactly when the state is undefined or has no record; it does nothing exactly when neither the exact key nor `ANY` has a transition; otherwise it fires what `Resolve` picks |
| Automaton.Next | f-to-pay-a-visit.js:55-57 | the committed state is the action's result when it is defined, otherwise the registered `to` |
| Automaton.RegisteredExactIsSelected | f-to-pay-a-visit.js:13-43 | after registering an exact key (not a lost self-loop), `input` on that key from `from` fires exactly that transition |
| Automaton.AnyNeverShadowsExact | f-to-pay-a-visit.js:41-47 | adding an `ANY` transition leaves every key that already had an exact transition selecting it |
| Automaton.Dfa.Empty | f-to-pay-a-visit.js:4-8 | no states, state undefined |
| Automaton.Dfa.AddTransition | f-to-pay-a-visit.js:9-17 | the table becomes `Register` of the old one; the current state is untouched |
| Automaton.Dfa.SetState | f-to-pay-a-visit.js:18-21 | the state becomes `s`; the table is untouched |
| Automaton.Dfa.Input | f-to-pay-a-visit.js:22-59 | the outcome is `Lookup` of the old state; only a fired transition changes the state, to `Next` of the action's result; the table never changes |
| Dom.NAncestors | f-to-pay-a-visit.js:62-75 | at most `n` proper ancestors, farthest first (each entry lies as many levels up as its distance from the end of the list plus one), the last being the parent; fewer than `n` only when the root is reached |
| Dom.AncestorsPrecede | f-to-pay-a-visit.js:62-75 | every returned ancestor precedes the element in document order |
| Dom.AncestorWithin | f-to-pay-a-visit.js:62-75 | every ancestor at most `n` levels up is among the returned ones |
| Dom.FartherIsAncestorOfNearer | f-to-pay-a-visit.js:97-98 | a farther returned ancestor is among the `n` nearest ancestors of a nearer one |
| Dom.IsContentEditable | f-to-pay-a-visit.js:272-281 | the recursion up the parent chain holds exactly when the element or some ancestor has `contenteditable` equal to `''` or `'true'`; it stops with false at the root |
| Dom.IsInputElement | f-to-pay-a-visit.js:283-284 | an `INPUT` or `TEXTAREA`, or an element that is content-editable through itself or an ancestor |
| Targets.Add | f-to-pay-a-visit.js:102-105 | `Set.add`: the members become the old ones plus `e`, still without duplicates |
| Targets.Delete | f-to-pay-a-visit.js:101 | `Set.delete`: exactly `x` is removed, with no duplicates introduced |
| Targets.Find | f-to-pay-a-visit.js:98 | `find` returns the first ancestor in the list, which is the farthest, that is kept; none is kept when it finds nothing |
| Targets.Step | f-to-pay-a-visit.js:96-106 | one round: with no kept ancestor within five levels `e` is added and nothing is dropped; if the found ancestor is a link with an address the set is unchanged; otherwise that ancestor is swapped for `e` |
| Targets.CollapseAll | f-to-pay-a-visit.js:95-107 | the collapsed set has no duplicates, is drawn from the input and is no longer than it |
| Targets.StepKeepsNoNested | f-to-pay-a-visit.js:96-106 | a round on an element after everything kept keeps "no kept element is among the five nearest ancestors of another kept element" |
| Targets.CollapseNoNested | f-to-pay-a-visit.js:95-107 | with the elements in document order, the collapsed set has that no-nesting property |
| Targets.Collapse | f-to-pay-a-visit.js:95-108 | the `forEach` loop computes `CollapseAll`: no duplicates, a subset of the input, no longer than it, and no nesting for input in document order |
| Labels.Width | f-to-pay-a-visit.js:158 | the width is the least `w >= 1` with `count <= base ** w` |
| Labels.SmallCountWidthOne | f-to-pay-a-visit.js:158 | up to `base` targets get width 1 |
| Labels.OneMoreThanBaseWidthTwo | f-to-pay-a-visit.js:158 | `base + 1` targets get width 2 |
| Labels.ExpandSnoc | f-to-pay-a-visit.js:162-172 | expanding one more queued string appends its children in letter order, which is the order the queue emits them |
| Labels.WordsCount | f-to-pay-a-visit.js:157-174 | there are `base ** n` strings of width `n` |
| Labels.WordIsNumeral | f-to-pay-a-visit.js:164-165 | the `i`-th string of width `n` spells `i` in base of the alphabet size with `n` digits |
| Labels.DigitsOrdered | f-to-pay-a-visit.js:157-174 | smaller numbers have lexicographically smaller digit sequences |
| Labels.WordsProperties | f-to-pay-a-visit.js:157-174 | `base ** n` strings, each of length `n`, in lexicographic order of letter position, pairwise distinct when the letters are |
| Labels.PushChildren | f-to-pay-a-visit.js:164-171 | the inner `for` loop: the children `str + l` go to `names` on the last level and to the back of the queue at level `i + 1` otherwise |
| Labels.QueueStepInner | f-to-pay-a-visit.js:162-171 | dequeuing a string below the last level keeps the queue holding the rest of its level followed by the children of those already expanded |
| Labels.QueueStepLast | f-to-pay-a-visit.js:162-171 | dequeuing a string of the last level sends its children to `names` in order |
| Labels.QueueDone | f-to-pay-a-visit.js:162 | an empty queue means `names` holds every string of the width |
| Labels.GenerateIdxes | f-to-pay-a-visit.js:157-174 | returns exactly the strings of width `Width(count, base)` in lexicographic order; there are `base ** width` of them, at least `count` |
| Filter.Keep | f-to-pay-a-visit.js:426-427 | `filter` keeps exactly the elements satisfying the predicate and never lengthens the list |
| Filter.KeepAppend | f-to-pay-a-visit.js:426-427 | filtering keeps the original order: it distributes over concatenation |
| Filter.KeepSingle | f-to-pay-a-visit.js:426-427 | a single element is kept exactly when it satisfies the predicate |
| Filter.Partition | f-to-pay-a-visit.js:423-430 | `matches` holds exactly the elements satisfying the predicate and `rest` exactly the others |
| Filter.PartitionPermutes | f-to-pay-a-visit.js:423-430 | together the two parts hold every element exactly once |
| Filter.Upper | f-to-pay-a-visit.js:437 | `toUpperCase` on ASCII: same length, lower-case letters raised by 32, nothing else changed |
| Filter.UpperIdempotent | f-to-pay-a-visit.js:437 | upper-casing twice equals upper-casing once |
| Filter.Edit | f-to-pay-a-visit.js:433-438 | `Backspace` removes the last character and leaves an empty string empty; any other key appends its upper-cased name |
| Filter.TypeThenErase | f-to-pay-a-visit.js:433-438 | a one-character key followed by `Backspace` restores the filter string |
| Filter.NarrowingPrefix | f-to-pay-a-visit.js:439 | a name that starts with a longer prefix starts with the shorter one |
| Filter.KeepMono | f-to-pay-a-visit.js:426-427 | a predicate that implies another keeps no more elements than it |
| Filter.TypingNarrows | f-to-pay-a-visit.js:436-439 | after typing a key the matches are among the previous matches, and there are never more of them |
| Filter.EmptyMatchesAll | f-to-pay-a-visit.js:435-439 | with an empty filter string every tag matches |
| Filter.Shade | f-to-pay-a-visit.js:449-454 | with several matches, exactly the matches are shown and the rest hidden; target and name unchanged |
| Hinter.BuiltIsModeTable | f-to-pay-a-visit.js:330-344 | the ten registrations in source order produce exactly the intended four-state table, with both self-loops kept |
| Hinter.TableLookup | f-to-pay-a-visit.js:332-344 | from every mode, `input` never throws: each key fires the listed transition, and only `INACTIVE` ignores keys other than `y`, `f`, `Escape` and `,` |
| Hinter.DisplayIsActive | f-to-pay-a-visit.js:386 | `displayIsActive()` holds exactly when some tag is on screen |
| Hinter.DisplayOnlyWhenActive | f-to-pay-a-visit.js:386 | `displayIsActive()` implies the mode is `ACTIVE` |
| Hinter.Armed | f-to-pay-a-visit.js:316-321 | `delayTransition` arms one fresh timer, adding exactly it to the armed ones, and `timeoutId` names it; nothing else changes |
| Hinter.Cancelled | f-to-pay-a-visit.js:323 | `escaped` disarms exactly the timer `timeoutId` names (nothing when it is undefined) and changes nothing else |
| Hinter.Cleared | f-to-pay-a-visit.js:379-386 | `clear` leaves no tags (so `displayIsActive()` is false), an empty filter string and `yank` false, and keeps the mode, the armed timers, `timeoutId` and the timer counter |
| Hinter.Label | f-to-pay-a-visit.js:193-195 | the `i`-th target gets the `i`-th name and is shown |
| Hinter.LettersDistinct | f-to-pay-a-visit.js:180-184 | the fifteen label letters are pairwise distinct |
| Hinter.Shown | f-to-pay-a-visit.js:361-377 | `display` puts one shown tag on screen per collapsed target, in the collapse order |
| Hinter.ShownTags | f-to-pay-a-visit.js:361-377 | `display` labels each collapsed target once, in order, with distinct names of one width, all shown; up to 15 targets get one-letter names |
| Hinter.SelectEffect | f-to-pay-a-visit.js:388-419 | when yanking, the address is copied exactly when the target is an `A`, and nothing else happens; otherwise the target is clicked with the key's modifiers, and focused first if it is an input |
| Hinter.Filtered | f-to-pay-a-visit.js:432-455 | no match: clear and return `INACTIVE`; one match: select it, clear and return `INACTIVE`; several: keep the new filter string, show exactly the matches, return undefined |
| Hinter.Activated | f-to-pay-a-visit.js:298-305 | with a modifier held, `activate` only returns `INACTIVE`; otherwise it stops the event and puts the tags of `display` on screen |
| Hinter.HasModKey | f-to-pay-a-visit.js:261-266 | a modifier is held exactly when not all four of Ctrl, Shift, Alt and Meta are up |
| Hinter.EventIsRelevant | f-to-pay-a-visit.js:348-352 | an event is relevant exactly when the page has not handled it, it is not a modifier key itself, and its target is neither an `INPUT`/`TEXTAREA` nor inside an editable region |
| Hinter.Run | f-to-pay-a-visit.js:298-344 | no action sets the mode itself; an action returns `INACTIVE` or nothing; timers are only allocated fresh and at most the new one is armed; the actions that neither show, filter nor clear tags leave the tags and filter text alone |
| Hinter.Dispatch | f-to-pay-a-visit.js:22-59 | `dfa.input` on the table: the outcome is `Lookup`; a key without a transition changes nothing and is not stopped; a fired transition commits `Next` of the transition and the mode its action returned (`stateOverride ?? to`) |
| Hinter.Handle | f-to-pay-a-visit.js:354-359 | an irrelevant event never reaches the automaton and changes nothing; a relevant one goes through `Lookup` of the current mode |
| Hinter.Fired | f-to-pay-a-visit.js:318-320 | the timer callback sets `INACTIVE`, disarms exactly the timer that fired and changes nothing else |
| Hinter.InitialInv | f-to-pay-a-visit.js:346 | the start state satisfies the invariant |
| Hinter.HandleKeepsInv | f-to-pay-a-visit.js:314-359 | every handled key keeps the invariant: a defined mode, exactly one armed timer (the one `timeoutId` names) in `YANK` and `ESCAPED` and none otherwise, and no tags or filter text outside `ACTIVE` |
| Hinter.InactiveKeepsInv | f-to-pay-a-visit.js:332-335 | the transitions from `INACTIVE` keep the invariant |
| Hinter.YankKeepsInv | f-to-pay-a-visit.js:337-339 | the transitions from `YANK` keep the invariant |
| Hinter.ActiveKeepsInv | f-to-pay-a-visit.js:343-344 | the transitions from `ACTIVE` keep the invariant |
| Hinter.FiredKeepsInv | f-to-pay-a-visit.js:318-320 | only the timer of `YANK` or `ESCAPED` can fire, and its `setState(INACTIVE)` keeps the invariant |
| Hinter.InactiveChord | f-to-pay-a-visit.js:332-335 | `y` and `,` in `INACTIVE` arm a fresh return timer (`Armed`) and enter `YANK` and `ESCAPED` respectively, stopping the event |
| Hinter.InactiveActivate | f-to-pay-a-visit.js:298-305 | `f` in `INACTIVE` without a modifier stops the event and enters `ACTIVE` with the tags of `display`; with a modifier it changes nothing and leaves the event alone |
| Hinter.InactiveEscape | f-to-pay-a-visit.js:334 | `Escape` in `INACTIVE` blurs the focused element, stays `INACTIVE` and changes nothing else |
| Hinter.YankChord | f-to-pay-a-visit.js:337 | `,` in `YANK` disarms the pending timer, arms a fresh one and enters `ESCAPED`, stopping the event |
| Hinter.YankActivate | f-to-pay-a-visit.js:338 | `f` without a modifier in `YANK` disarms the timer, sets `yank`, stops the event and enters `ACTIVE` with the tags of `display` |
| Hinter.EscapedReturns | f-to-pay-a-visit.js:341 | any key in `ESCAPED` returns to `INACTIVE` with no timer armed |
| Hinter.YankOtherKeyReturns | f-to-pay-a-visit.js:339 | any key but `,` and `f` in `YANK` returns to `INACTIVE` with no timer armed |
| Hinter.YankSurvivesModifiedF | f-to-pay-a-visit.js:338 | `f` with a modifier held in `YANK` reaches `INACTIVE` with `yank` still true, without stopping the event |
| Hinter.IrrelevantIgnored | f-to-pay-a-visit.js:348-358 | a key the page already handled, a modifier key itself, or a key typed into an `INPUT`, a `TEXTAREA` or anywhere inside an editable region changes nothing and reaches no action |
| Hinter.ActiveKey | f-to-pay-a-visit.js:440-454 | a key other than `Escape` in `ACTIVE` is stopped; with no match or one match it clears and returns to `INACTIVE`, selecting the single match; with several it stays `ACTIVE`, keeps the new filter string, and shows exactly the tags whose name starts with it |
| Hinter.ActiveEscape | f-to-pay-a-visit.js:344 | `Escape` in `ACTIVE` clears and returns to `INACTIVE`, stopping the event |
| Hinter.NewMachine | f-to-pay-a-visit.js:330-346 | the start-up code yields the intended table in state `INACTIVE` |
| Hinter.Session.constructor | f-to-pay-a-visit.js:198-200 | a session starts in `INACTIVE` with no tags, an empty filter string, `yank` false and no timer, satisfying the invariant |
| Hinter.Session.DelayTransition | f-to-pay-a-visit.js:316-321 | the state becomes `Armed` of the old one |
| Hinter.Session.CancelTimeout | f-to-pay-a-visit.js:323 | the state becomes `Cancelled` of the old one |
| Hinter.Session.Clear | f-to-pay-a-visit.js:379-384 | the state becomes `Cleared` of the old one |
| Hinter.Session.Display | f-to-pay-a-visit.js:361-377 | the tags become `Shown` (whose properties `ShownTags` states), computed by the collapse loop and the label queue |
| Hinter.Session.Select | f-to-pay-a-visit.js:388-421 | the effect is `SelectEffect` under the old `yank`, then the state is cleared |
| Hinter.Session.FilterKey | f-to-pay-a-visit.js:432-455 | the new state, the return value and the effect are those of `Filtered` |
| Hinter.Session.ActivateTags | f-to-pay-a-visit.js:298-305 | the new state, the return value and the event's fate are those of `Activated` |
| Hinter.Session.RunAction | f-to-pay-a-visit.js:314-344 | running an action of the table matches `Run` |
| Hinter.Session.Keydown | f-to-pay-a-visit.js:354-359 | the handler matches `Handle`: irrelevant events change nothing, relevant ones go through lookup, action and commit, and the invariant is kept |
| Hinter.Session.FireTimer | f-to-pay-a-visit.js:318-320 | an armed timer firing disarms itself and sets `INACTIVE`, keeping the invariant |

## Left out

- The geometry and style queries that decide which elements are visible and clickable (`getBoundingClientRect`, `getComputedStyle`, `matches`). Their result is an input: a sequence of element indices in document order.
- The document does not change during a session. The model gives elements no identity beyond their index.
- The distance sort in `nameTags` and `euclideanDistance` are floating point, so they are left out. Tags are named in the order the collapse loop discovers them.
- Labels.Width: the exact least width replaces `Math.ceil(Math.log2(count) / Math.log2(15))`. Rounding in the floating-point logarithms, which may disagree with the exact width near powers of 15, is not modelled.
- Labels.GenerateIdxes: requires at least two letters. The script always passes fifteen. With one letter and no targets the width is 1 and the one letter comes back. With one letter and one target the width is `NaN`, and with more it is `Infinity`; either way the queue loop never ends.
- Tag positions, z-index search, the shadow DOM, the CSS and the tag elements themselves (`positionTag`, `findZIndex`, `generateTagElement`, `displayTags`, `innerHTML` writes). Only the shown/hidden flag of a tag is kept.
- `select`'s synthetic mouse events, `focus` call and clipboard write are reduced to an `Effect` value.
- Real timing of `setTimeout`: a timer is an id in the set of armed timers, and `FireTimer` may run any armed one at any time.
- `stop` (`preventDefault` and the propagation calls) is reduced to the `stopped` flag of a reaction. `console.log`, `Date` timing and the `addEventListener` wiring are left out.
- `DFA_ANY` is an object key that JavaScript turns into the string `"[object Object]"`. It is modelled as a separate wildcard key.
- Filter.Upper: only ASCII letters are upper-cased. Unicode case mappings that change length (such as `ß` to `SS`) are not modelled.
- Hinter.Session.Keydown: repeats `dfa.input`'s lookup and commit inline, because the table's actions change the session and emit effects. `Automaton.Dfa.Input` models `input` with actions whose only result is the returned state.
- Hinter.EventIsRelevant: `getModifierState(event.key)` is an input flag of the event.
