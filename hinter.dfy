/**
 * The mode switcher of f-to-pay-a-visit.js: the four modes, the transition
 * table registered at start-up, the actions it runs, and the module state
 * they update (`tagsInDom`, `filterString`, `yank`, `timeoutId`).
 *
 * `setTimeout` is modelled by the set of armed timers: arming one takes a
 * fresh id, `clearTimeout` removes it, and `FireTimer` is the browser
 * running a callback that is still armed. The document is fixed for the
 * life of a session; the visible-and-clickable elements are an input of
 * every key event, because they depend on geometry and style.
 */
module Hinter {
  import opened Wrappers
  import opened Automaton
  import opened Dom
  import opened Targets
  import opened Labels
  import opened Filter

  /** The states `INACTIVE`, `YANK`, `ACTIVE` and `ESCAPED`. */
  datatype Mode = Inactive | Yank | Active | Escaped

  /** The actions the table registers, named after the source functions. */
  datatype Action =
    | DelayInactive      // `delayTransition(INACTIVE)`
    | Activate           // `activate`
    | Unfocus            // `unfocus`
    | CancelThenDelay    // `escaped(i); delayTransition(INACTIVE)(i)`
    | YankThenActivate   // `escaped(i); yank = true; return activate(i)`
    | Cancel             // `escaped`
    | FilterInput        // `filterInput`
    | Deactivate         // `deActivate`

  /** The label alphabet of `nameTags`. */
  const Letters: string := "ASDFGZXCVBQWERT"

  /** The registrations of lines 332-335, on top of `t`. */
  function InactiveRows(t: Table<Mode, Action>): Table<Mode, Action>
  {
    var t1 := Register(t, Inactive, Yank, Exact("y"), DelayInactive);
    var t2 := Register(t1, Inactive, Active, Exact("f"), Activate);
    var t3 := Register(t2, Inactive, Inactive, Exact("Escape"), Unfocus);
    Register(t3, Inactive, Escaped, Exact(","), DelayInactive)
  }

  /** The registrations of lines 337-339. */
  function YankRows(t: Table<Mode, Action>): Table<Mode, Action>
  {
    var t1 := Register(t, Yank, Escaped, Exact(","), CancelThenDelay);
    var t2 := Register(t1, Yank, Active, Exact("f"), YankThenActivate);
    Register(t2, Yank, Inactive, Any, Cancel)
  }

  /** The registrations of lines 341-344. */
  function LaterRows(t: Table<Mode, Action>): Table<Mode, Action>
  {
    var t1 := Register(t, Escaped, Inactive, Any, Cancel);
    var t2 := Register(t1, Active, Active, Any, FilterInput);
    Register(t2, Active, Inactive, Exact("Escape"), Deactivate)
  }

  /** The table the start-up code registers, in source order. */
  function Built(): Table<Mode, Action>
  {
    LaterRows(YankRows(InactiveRows(map[])))
  }

  /** The intended table: every transition written at its state. */
  function ModeTable(): Table<Mode, Action>
  {
    map[
      Inactive := map[Exact("y") := Transition(Yank, DelayInactive),
                      Exact("f") := Transition(Active, Activate),
                      Exact("Escape") := Transition(Inactive, Unfocus),
                      Exact(",") := Transition(Escaped, DelayInactive)],
      Yank := map[Exact(",") := Transition(Escaped, CancelThenDelay),
                  Exact("f") := Transition(Active, YankThenActivate),
                  Any := Transition(Inactive, Cancel)],
      Escaped := map[Any := Transition(Inactive, Cancel)],
      Active := map[Any := Transition(Active, FilterInput),
                    Exact("Escape") := Transition(Inactive, Deactivate)]]
  }

  lemma InactiveRowsBuilt()
    ensures InactiveRows(map[]) == map[Inactive := ModeTable()[Inactive], Yank := map[], Active := map[], Escaped := map[]]
  {
    var t1 := Register(map[], Inactive, Yank, Exact("y"), DelayInactive);
    assert t1 == map[Inactive := map[Exact("y") := Transition(Yank, DelayInactive)], Yank := map[]];
    var t2 := Register(t1, Inactive, Active, Exact("f"), Activate);
    assert t2 == map[Inactive := map[Exact("y") := Transition(Yank, DelayInactive),
                                     Exact("f") := Transition(Active, Activate)],
                     Yank := map[], Active := map[]];
  }

  lemma YankRowsBuilt()
    ensures YankRows(map[Inactive := ModeTable()[Inactive], Yank := map[], Active := map[], Escaped := map[]])
            == map[Inactive := ModeTable()[Inactive], Yank := ModeTable()[Yank], Active := map[], Escaped := map[]]
  {
  }

  lemma LaterRowsBuilt()
    ensures LaterRows(map[Inactive := ModeTable()[Inactive], Yank := ModeTable()[Yank], Active := map[], Escaped := map[]])
            == ModeTable()
  {
  }

  /**
   * The start-up registrations build exactly the intended table: the two
   * self-loops are added after their state is known, so neither is lost.
   */
  lemma BuiltIsModeTable()
    ensures Built() == ModeTable()
  {
    InactiveRowsBuilt();
    YankRowsBuilt();
    LaterRowsBuilt();
  }

  /** Where each mode goes on each key, read off the table. */
  function Expected(mode: Mode, key: string): Outcome<Mode, Action>
  {
    match mode
    case Inactive =>
      if key == "y" then Fire(Transition(Yank, DelayInactive))
      else if key == "f" then Fire(Transition(Active, Activate))
      else if key == "Escape" then Fire(Transition(Inactive, Unfocus))
      else if key == "," then Fire(Transition(Escaped, DelayInactive))
      else NoTransition
    case Yank =>
      if key == "," then Fire(Transition(Escaped, CancelThenDelay))
      else if key == "f" then Fire(Transition(Active, YankThenActivate))
      else Fire(Transition(Inactive, Cancel))
    case Escaped => Fire(Transition(Inactive, Cancel))
    case Active =>
      if key == "Escape" then Fire(Transition(Inactive, Deactivate))
      else Fire(Transition(Active, FilterInput))
  }

  /**
   * `input` on the table never throws from a mode: every key either fires
   * the transition `Expected` names or, in `INACTIVE` only, does nothing.
   */
  lemma TableLookup(mode: Mode, key: string)
    ensures Lookup(ModeTable(), Some(mode), key) == Expected(mode, key)
    ensures Lookup(ModeTable(), Some(mode), key).NoTransition? ==>
              mode == Inactive && key !in {"y", "f", "Escape", ","}
  {
  }

  /** `shiftKey`, `ctrlKey`, `altKey` and `metaKey` of a keyboard event. */
  datatype Modifiers = Modifiers(ctrl: bool, shift: bool, alt: bool, meta: bool)

  /**
   * A `keydown` event: `key`, `target` (`None` for the document or no
   * element), `defaultPrevented`, the modifier flags, and
   * `getModifierState(key)`, which holds when the key itself is an active
   * modifier.
   */
  datatype KeyEvent = KeyEvent(key: string, target: Option<nat>, defaultPrevented: bool,
                               mods: Modifiers, modifierState: bool)

  /** `hasModKey(e)`. */
  predicate HasModKey(m: Modifiers)
    ensures HasModKey(m) <==> m != Modifiers(false, false, false, false)
  {
    m.ctrl || m.shift || m.alt || m.meta
  }

  /** The event's target lies in the document (or is absent). */
  predicate TargetInDocument(doc: seq<Node>, ev: KeyEvent)
  {
    ev.target.Some? ==> ev.target.value < |doc|
  }

  /** `eventIsRelevant(e)`: not already handled, not typed into an input, and not a modifier key. */
  predicate EventIsRelevant(doc: seq<Node>, ev: KeyEvent)
    requires WellFormed(doc) && TargetInDocument(doc, ev)
    ensures EventIsRelevant(doc, ev) <==>
              !ev.defaultPrevented && !ev.modifierState &&
              (ev.target.Some? ==>
                 doc[ev.target.value].tagName !in {"INPUT", "TEXTAREA"} &&
                 forall k: nat :: !EditableAt(doc, ev.target.value, k))
  {
    !ev.defaultPrevented &&
    !(ev.target.Some? && IsInputElement(doc, ev.target.value)) &&
    !ev.modifierState
  }

  /** What an action does outside the module state. */
  datatype Effect =
    | NoEffect
    | Blur                                              // `document.activeElement.blur()`
    | Copy(text: string)                                // `navigator.clipboard.writeText`
    | Click(target: nat, focus: bool, mods: Modifiers)  // focus if an input, then the mouse events

  /** The event's fate: whether `stop` ran on it, and the effect. */
  datatype Reaction = Reaction(stopped: bool, effect: Effect)

  /** The module variables and the automaton's current state. */
  datatype World = World(state: Option<Mode>, tags: seq<Tag>, filterString: string, yank: bool,
                         timeoutId: Option<nat>, pending: set<nat>, nextTimer: nat)

  /** The document and the visible clickable elements are well formed. */
  predicate Page(doc: seq<Node>, relevant: seq<nat>)
  {
    WellFormed(doc) && InDocument(doc, relevant)
  }

  predicate TagsInDocument(doc: seq<Node>, tags: seq<Tag>)
  {
    forall t :: t in tags ==> t.target < |doc|
  }

  /**
   * What the handlers keep true between events: the automaton is in one of
   * its modes; a timer is armed exactly in `YANK` and `ESCAPED`, and then it
   * is the one `timeoutId` names; ids to come are fresh; tags and filter
   * text exist only in `ACTIVE`.
   */
  ghost predicate Inv(w: World, doc: seq<Node>)
  {
    w.state.Some? &&
    (w.pending != {} <==> w.state.value == Yank || w.state.value == Escaped) &&
    (w.pending != {} ==> w.timeoutId.Some? && w.pending == {w.timeoutId.value}) &&
    (w.timeoutId.Some? ==> w.timeoutId.value < w.nextTimer) &&
    (w.state.value != Active ==> w.tags == [] && w.filterString == "") &&
    TagsInDocument(doc, w.tags)
  }

  /** `displayIsActive()`. */
  predicate DisplayIsActive(w: World)
    ensures DisplayIsActive(w) <==> exists t :: t in w.tags
  {
    if |w.tags| != 0 then
      assert w.tags[0] in w.tags;
      true
    else false
  }

  /** Tags are on screen only in `ACTIVE`. */
  lemma DisplayOnlyWhenActive(w: World, doc: seq<Node>)
    requires Inv(w, doc) && DisplayIsActive(w)
    ensures w.state == Some(Active)
  {
  }

  /** `setTimeout` inside `delayTransition`: a fresh timer is armed and `timeoutId` names it. */
  function Armed(w: World): (r: World)
    ensures r.timeoutId == Some(w.nextTimer) && r.pending == w.pending + {w.nextTimer}
    ensures r.nextTimer > w.nextTimer
    ensures r.(timeoutId := w.timeoutId, pending := w.pending, nextTimer := w.nextTimer) == w
  {
    w.(timeoutId := Some(w.nextTimer), pending := w.pending + {w.nextTimer}, nextTimer := w.nextTimer + 1)
  }

  /** `escaped`: `clearTimeout(timeoutId)`, a no-op while `timeoutId` is undefined or already fired. */
  function Cancelled(w: World): (r: World)
    ensures r.pending == w.pending - (if w.timeoutId.Some? then {w.timeoutId.value} else {})
    ensures r.(pending := w.pending) == w
  {
    if w.timeoutId.Some? then w.(pending := w.pending - {w.timeoutId.value}) else w
  }

  /** `clear()`. */
  function Cleared(w: World): (r: World)
    ensures !DisplayIsActive(r) && r.filterString == "" && !r.yank
    ensures r.state == w.state && r.pending == w.pending && r.timeoutId == w.timeoutId && r.nextTimer == w.nextTimer
  {
    w.(tags := [], filterString := "", yank := false)
  }

  /** `nameTags` without the distance sort: the `i`-th target gets the `i`-th name. */
  function Label(targets: seq<nat>, names: seq<string>): (r: seq<Tag>)
    requires |targets| <= |names|
    ensures |r| == |targets|
    ensures forall i :: 0 <= i < |r| ==> r[i] == Tag(targets[i], names[i], true)
  {
    seq(|targets|, i requires 0 <= i < |targets| => Tag(targets[i], names[i], true))
  }

  /** The tags `display()` puts on screen. */
  function Shown(doc: seq<Node>, relevant: seq<nat>): (r: seq<Tag>)
    requires Page(doc, relevant)
    ensures |r| == |CollapseAll(doc, relevant)|
    ensures forall i :: 0 <= i < |r| ==> r[i].target == CollapseAll(doc, relevant)[i] && r[i].shown
  {
    var targets := CollapseAll(doc, relevant);
    var names := Words(Letters, Width(|targets|, |Letters|));
    WordsCount(Letters, Width(|targets|, |Letters|));
    Label(targets, names)
  }

  /** The label letters are pairwise distinct. */
  lemma LettersDistinct()
    ensures Distinct(Letters)
  {
  }

  /**
   * `display()` labels every collapsed target once, in order, with
   * pairwise distinct names of one width, all shown; up to 15 targets get
   * one-letter names.
   */
  lemma ShownTags(doc: seq<Node>, relevant: seq<nat>)
    requires Page(doc, relevant)
    ensures var tags := Shown(doc, relevant); var targets := CollapseAll(doc, relevant);
            |tags| == |targets| &&
            (forall i :: 0 <= i < |tags| ==> tags[i].target == targets[i] && tags[i].shown) &&
            (forall i :: 0 <= i < |tags| ==> |tags[i].name| == Width(|targets|, |Letters|)) &&
            (forall i, j :: 0 <= i < j < |tags| ==> tags[i].name != tags[j].name) &&
            (|targets| <= |Letters| ==> forall i :: 0 <= i < |tags| ==> |tags[i].name| == 1)
  {
    var targets := CollapseAll(doc, relevant);
    var w := Width(|targets|, |Letters|);
    LettersDistinct();
    WordsProperties(Letters, w);
    if |targets| <= |Letters| {
      SmallCountWidthOne(|targets|, |Letters|);
    }
  }

  /** `select(tag, keyEvent)` before its `clear()`: copy a link's address when yanking, otherwise click. */
  function SelectEffect(yank: bool, tag: Tag, mods: Modifiers, doc: seq<Node>): (r: Effect)
    requires WellFormed(doc) && tag.target < |doc|
    ensures yank ==> r.Copy? || r.NoEffect?
    ensures yank ==> (r.Copy? <==> doc[tag.target].tagName == "A")
    ensures yank && r.Copy? ==> r.text == doc[tag.target].href
    ensures !yank ==> r == Click(tag.target, IsInputElement(doc, tag.target), mods)
  {
    if yank then
      if doc[tag.target].tagName == "A" then Copy(doc[tag.target].href) else NoEffect
    else Click(tag.target, IsInputElement(doc, tag.target), mods)
  }

  /** What an action leaves: the new module state, its return value, and the event's fate. */
  datatype Ran = Ran(world: World, next: Option<Mode>, reaction: Reaction)

  /**
   * `filter(keyEvent)`: update the filter string, partition the tags by it,
   * then clear and return `INACTIVE` on no match, select the match, clear
   * and return `INACTIVE` on exactly one, and otherwise shade the tags and
   * return undefined.
   */
  function Filtered(w: World, ev: KeyEvent, doc: seq<Node>): (r: Ran)
    requires WellFormed(doc) && TagsInDocument(doc, w.tags)
    ensures var fs := Edit(w.filterString, ev.key);
            var matches := Partition(w.tags, Matching(fs)).0;
            (|matches| <= 1 ==> r.next == Some(Inactive) && r.world == Cleared(w)) &&
            (|matches| == 0 ==> r.reaction.effect == NoEffect) &&
            (|matches| == 1 ==> r.reaction.effect == SelectEffect(w.yank, matches[0], ev.mods, doc)) &&
            (|matches| >= 2 ==> r.next == None && r.reaction.effect == NoEffect &&
                                r.world == w.(filterString := fs, tags := Shade(w.tags, fs)))
    ensures r.reaction.stopped
  {
    var fs := Edit(w.filterString, ev.key);
    var parts := Partition(w.tags, Matching(fs));
    var matches := parts.0;
    if |matches| == 0 then
      Ran(Cleared(w.(filterString := fs)), Some(Inactive), Reaction(true, NoEffect))
    else if |matches| == 1 then
      Ran(Cleared(w.(filterString := fs)), Some(Inactive), Reaction(true, SelectEffect(w.yank, matches[0], ev.mods, doc)))
    else
      Ran(w.(filterString := fs, tags := Shade(w.tags, fs)), None, Reaction(true, NoEffect))
  }

  /** `activate(i)`: with a modifier held it only returns `INACTIVE`; otherwise it stops the event and displays. */
  function Activated(w: World, ev: KeyEvent, doc: seq<Node>, relevant: seq<nat>): (r: Ran)
    requires Page(doc, relevant)
    ensures HasModKey(ev.mods) ==> r == Ran(w, Some(Inactive), Reaction(false, NoEffect))
    ensures !HasModKey(ev.mods) ==>
              r == Ran(w.(tags := Shown(doc, relevant)), None, Reaction(true, NoEffect))
  {
    if HasModKey(ev.mods) then Ran(w, Some(Inactive), Reaction(false, NoEffect))
    else Ran(w.(tags := Shown(doc, relevant)), None, Reaction(true, NoEffect))
  }

  /** Running action `a` on the event. */
  function Run(w: World, a: Action, ev: KeyEvent, doc: seq<Node>, relevant: seq<nat>): (r: Ran)
    requires Page(doc, relevant) && TagsInDocument(doc, w.tags)
    // no action sets the mode itself: only the commit after it does
    ensures r.world.state == w.state
    // an action returns `INACTIVE` or nothing
    ensures r.next == None || r.next == Some(Inactive)
    // timers are only ever allocated, never reused
    ensures r.world.nextTimer >= w.nextTimer
    ensures r.world.pending <= w.pending + {w.nextTimer}
    // only the three actions that leave `ACTIVE` or show tags return a mode or touch the tags
    ensures a !in {Activate, YankThenActivate, FilterInput, Deactivate} ==>
              r.next == None && r.world.tags == w.tags && r.world.filterString == w.filterString
  {
    match a
    case DelayInactive => Ran(Armed(w), None, Reaction(true, NoEffect))
    case Activate => Activated(w, ev, doc, relevant)
    case Unfocus => Ran(w, None, Reaction(false, Blur))
    case CancelThenDelay => Ran(Armed(Cancelled(w)), None, Reaction(true, NoEffect))
    case YankThenActivate => Activated(Cancelled(w).(yank := true), ev, doc, relevant)
    case Cancel => Ran(Cancelled(w), None, Reaction(false, NoEffect))
    case FilterInput => Filtered(w, ev, doc)
    case Deactivate => Ran(Cleared(w), None, Reaction(true, NoEffect))
  }

  /** What a key event handed to the automaton leaves behind. */
  datatype Dispatched = Dispatched(world: World, outcome: Outcome<Mode, Action>, reaction: Reaction)

  /** `dfa.input(stateMachine, { event })` on the table: look up, run the action, commit `next ?? to`. */
  function Dispatch(w: World, ev: KeyEvent, doc: seq<Node>, relevant: seq<nat>): (r: Dispatched)
    requires Page(doc, relevant) && TagsInDocument(doc, w.tags)
    ensures r.outcome == Lookup(ModeTable(), w.state, ev.key)
    // a key without a transition changes nothing and is not stopped
    ensures !r.outcome.Fire? ==> r.world == w && r.reaction == Reaction(false, NoEffect)
    // a fired transition commits the mode its action returned, or else its target
    ensures r.outcome.Fire? ==>
              r.world.state == Some(Next(r.outcome.t, Run(w, r.outcome.t.f, ev, doc, relevant).next))
  {
    match Lookup(ModeTable(), w.state, ev.key)
    case Fire(t) =>
      var r := Run(w, t.f, ev, doc, relevant);
      Dispatched(r.world.(state := Some(Next(t, r.next))), Fire(t), r.reaction)
    case other => Dispatched(w, other, Reaction(false, NoEffect))
  }

  /** `keypressHandler(event)`. */
  function Handle(w: World, ev: KeyEvent, doc: seq<Node>, relevant: seq<nat>): (r: Dispatched)
    requires Page(doc, relevant) && TagsInDocument(doc, w.tags) && TargetInDocument(doc, ev)
    // an irrelevant event never reaches the automaton
    ensures !EventIsRelevant(doc, ev) ==> r.world == w && !r.outcome.Fire? && !r.reaction.stopped
    ensures EventIsRelevant(doc, ev) ==> r.outcome == Lookup(ModeTable(), w.state, ev.key)
  {
    if !EventIsRelevant(doc, ev) then Dispatched(w, NoTransition, Reaction(false, NoEffect))
    else Dispatch(w, ev, doc, relevant)
  }

  /** The callback of an armed timer: `dfa.setState(stateMachine, INACTIVE)`. */
  function Fired(w: World, t: nat): (r: World)
    ensures r.state == Some(Inactive) && r.pending == w.pending - {t}
    ensures r.(state := w.state, pending := w.pending) == w
  {
    w.(pending := w.pending - {t}, state := Some(Inactive))
  }

  /** The state before the first key. */
  function Initial(): World
  {
    World(Some(Inactive), [], "", false, None, {}, 1)
  }

  lemma InitialInv(doc: seq<Node>)
    ensures Inv(Initial(), doc)
  {
  }

  /** Every handled key event keeps the invariant. */
  lemma HandleKeepsInv(w: World, ev: KeyEvent, doc: seq<Node>, relevant: seq<nat>)
    requires Page(doc, relevant) && TargetInDocument(doc, ev) && Inv(w, doc)
    ensures Inv(Handle(w, ev, doc, relevant).world, doc)
  {
    if EventIsRelevant(doc, ev) {
      TableLookup(w.state.value, ev.key);
      match w.state.value
      case Inactive => InactiveKeepsInv(w, ev, doc, relevant);
      case Yank => YankKeepsInv(w, ev, doc, relevant);
      case Escaped =>
      case Active => ActiveKeepsInv(w, ev, doc, relevant);
    }
  }

  lemma InactiveKeepsInv(w: World, ev: KeyEvent, doc: seq<Node>, relevant: seq<nat>)
    requires Page(doc, relevant) && Inv(w, doc) && w.state == Some(Inactive)
    ensures Inv(Dispatch(w, ev, doc, relevant).world, doc)
  {
    TableLookup(Inactive, ev.key);
    if ev.key == "f" && !HasModKey(ev.mods) {
      ShownInDocument(doc, relevant);
    }
  }

  lemma YankKeepsInv(w: World, ev: KeyEvent, doc: seq<Node>, relevant: seq<nat>)
    requires Page(doc, relevant) && Inv(w, doc) && w.state == Some(Yank)
    ensures Inv(Dispatch(w, ev, doc, relevant).world, doc)
  {
    TableLookup(Yank, ev.key);
    if ev.key == "f" && !HasModKey(ev.mods) {
      ShownInDocument(doc, relevant);
    }
  }

  lemma ActiveKeepsInv(w: World, ev: KeyEvent, doc: seq<Node>, relevant: seq<nat>)
    requires Page(doc, relevant) && Inv(w, doc) && w.state == Some(Active)
    ensures Inv(Dispatch(w, ev, doc, relevant).world, doc)
  {
    TableLookup(Active, ev.key);
    if ev.key != "Escape" {
      var fs := Edit(w.filterString, ev.key);
      var shaded := Shade(w.tags, fs);
      forall t | t in shaded ensures t.target < |doc| {
        var i :| 0 <= i < |shaded| && shaded[i] == t;
        assert w.tags[i] in w.tags;
      }
    }
  }

  lemma ShownInDocument(doc: seq<Node>, relevant: seq<nat>)
    requires Page(doc, relevant)
    ensures TagsInDocument(doc, Shown(doc, relevant))
  {
    var targets := CollapseAll(doc, relevant);
    var tags := Shown(doc, relevant);
    forall t | t in tags ensures t.target < |doc| {
      var i :| 0 <= i < |tags| && tags[i] == t;
      assert targets[i] in relevant;
    }
  }

  /** A timer firing keeps the invariant; by it only the timer of `YANK` or `ESCAPED` can fire. */
  lemma FiredKeepsInv(w: World, t: nat, doc: seq<Node>)
    requires Inv(w, doc) && t in w.pending
    ensures Inv(Fired(w, t), doc)
    ensures w.state == Some(Yank) || w.state == Some(Escaped)
  {
  }

  /** `y` and `,` in `INACTIVE` arm the return timer and enter `YANK` and `ESCAPED`, stopping the event. */
  lemma InactiveChord(w: World, ev: KeyEvent, doc: seq<Node>, relevant: seq<nat>)
    requires Page(doc, relevant) && TargetInDocument(doc, ev) && TagsInDocument(doc, w.tags)
    requires w.state == Some(Inactive) && EventIsRelevant(doc, ev) && ev.key in {"y", ","}
    ensures Handle(w, ev, doc, relevant).world == Armed(w).(state := Some(if ev.key == "y" then Yank else Escaped))
    ensures Handle(w, ev, doc, relevant).reaction == Reaction(true, NoEffect)
  {
    TableLookup(Inactive, ev.key);
  }

  /**
   * `f` in `INACTIVE`: without a modifier the event is stopped and the tags
   * of `display` go on screen in `ACTIVE`; with one held, nothing changes
   * and the event is left to the page.
   */
  lemma InactiveActivate(w: World, ev: KeyEvent, doc: seq<Node>, relevant: seq<nat>)
    requires Page(doc, relevant) && TargetInDocument(doc, ev) && TagsInDocument(doc, w.tags)
    requires w.state == Some(Inactive) && EventIsRelevant(doc, ev) && ev.key == "f"
    ensures !HasModKey(ev.mods) ==>
              Handle(w, ev, doc, relevant).world == w.(tags := Shown(doc, relevant), state := Some(Active)) &&
              Handle(w, ev, doc, relevant).reaction == Reaction(true, NoEffect)
    ensures HasModKey(ev.mods) ==>
              Handle(w, ev, doc, relevant).world == w &&
              Handle(w, ev, doc, relevant).reaction == Reaction(false, NoEffect)
  {
    TableLookup(Inactive, ev.key);
  }

  /** `Escape` in `INACTIVE` blurs the focused element and changes nothing else. */
  lemma InactiveEscape(w: World, ev: KeyEvent, doc: seq<Node>, relevant: seq<nat>)
    requires Page(doc, relevant) && TargetInDocument(doc, ev) && TagsInDocument(doc, w.tags)
    requires w.state == Some(Inactive) && EventIsRelevant(doc, ev) && ev.key == "Escape"
    ensures Handle(w, ev, doc, relevant).world == w
    ensures Handle(w, ev, doc, relevant).reaction == Reaction(false, Blur)
  {
    TableLookup(Inactive, ev.key);
  }

  /** `,` in `YANK` swaps the pending timer for a fresh one and enters `ESCAPED`. */
  lemma YankChord(w: World, ev: KeyEvent, doc: seq<Node>, relevant: seq<nat>)
    requires Page(doc, relevant) && TargetInDocument(doc, ev) && TagsInDocument(doc, w.tags)
    requires w.state == Some(Yank) && EventIsRelevant(doc, ev) && ev.key == ","
    ensures Handle(w, ev, doc, relevant).world == Armed(Cancelled(w)).(state := Some(Escaped))
    ensures Handle(w, ev, doc, relevant).reaction == Reaction(true, NoEffect)
  {
    TableLookup(Yank, ev.key);
  }

  /** `f` without a modifier in `YANK` disarms the timer, sets `yank` and shows the tags in `ACTIVE`. */
  lemma YankActivate(w: World, ev: KeyEvent, doc: seq<Node>, relevant: seq<nat>)
    requires Page(doc, relevant) && TargetInDocument(doc, ev) && TagsInDocument(doc, w.tags)
    requires w.state == Some(Yank) && EventIsRelevant(doc, ev) && ev.key == "f" && !HasModKey(ev.mods)
    ensures Handle(w, ev, doc, relevant).world ==
              Cancelled(w).(yank := true, tags := Shown(doc, relevant), state := Some(Active))
    ensures Handle(w, ev, doc, relevant).reaction == Reaction(true, NoEffect)
  {
    TableLookup(Yank, ev.key);
  }

  /** A key event handled from `ESCAPED` returns to `INACTIVE` and disarms the timer. */
  lemma EscapedReturns(w: World, ev: KeyEvent, doc: seq<Node>, relevant: seq<nat>)
    requires Page(doc, relevant) && TargetInDocument(doc, ev) && Inv(w, doc)
    requires w.state == Some(Escaped) && EventIsRelevant(doc, ev)
    ensures Handle(w, ev, doc, relevant).world.state == Some(Inactive)
    ensures Handle(w, ev, doc, relevant).world.pending == {}
  {
    TableLookup(Escaped, ev.key);
  }

  /** From `YANK`, any key but `,` and `f` returns to `INACTIVE` and disarms the timer. */
  lemma YankOtherKeyReturns(w: World, ev: KeyEvent, doc: seq<Node>, relevant: seq<nat>)
    requires Page(doc, relevant) && TargetInDocument(doc, ev) && Inv(w, doc)
    requires w.state == Some(Yank) && EventIsRelevant(doc, ev) && ev.key != "," && ev.key != "f"
    ensures Handle(w, ev, doc, relevant).world.state == Some(Inactive)
    ensures Handle(w, ev, doc, relevant).world.pending == {}
  {
    TableLookup(Yank, ev.key);
  }

  /**
   * `f` with a modifier held in `YANK`: `yank` is set before `activate`
   * returns `INACTIVE` without clearing, so `INACTIVE` is reached with
   * `yank` still true and the next selection copies instead of clicking.
   */
  lemma YankSurvivesModifiedF(w: World, ev: KeyEvent, doc: seq<Node>, relevant: seq<nat>)
    requires Page(doc, relevant) && TargetInDocument(doc, ev) && Inv(w, doc)
    requires w.state == Some(Yank) && EventIsRelevant(doc, ev) && ev.key == "f" && HasModKey(ev.mods)
    ensures Handle(w, ev, doc, relevant).world.state == Some(Inactive)
    ensures Handle(w, ev, doc, relevant).world.yank
    ensures !Handle(w, ev, doc, relevant).reaction.stopped
  {
    TableLookup(Yank, ev.key);
  }

  /**
   * A key the page already handled, a modifier key itself, or a key typed
   * into an input field or anywhere inside an editable region is left to
   * the page.
   */
  lemma IrrelevantIgnored(w: World, ev: KeyEvent, doc: seq<Node>, relevant: seq<nat>)
    requires Page(doc, relevant) && TargetInDocument(doc, ev) && TagsInDocument(doc, w.tags)
    requires ev.defaultPrevented || ev.modifierState ||
             (ev.target.Some? &&
              (doc[ev.target.value].tagName in {"INPUT", "TEXTAREA"} ||
               exists k: nat :: EditableAt(doc, ev.target.value, k)))
    ensures Handle(w, ev, doc, relevant) == Dispatched(w, NoTransition, Reaction(false, NoEffect))
  {
  }

  /**
   * The three outcomes of a key in `ACTIVE` other than `Escape`: no match
   * clears and leaves; one match selects it, clears and leaves; several
   * stay in `ACTIVE` with exactly the matches shown.
   */
  lemma ActiveKey(w: World, ev: KeyEvent, doc: seq<Node>, relevant: seq<nat>)
    requires Page(doc, relevant) && TargetInDocument(doc, ev) && Inv(w, doc)
    requires w.state == Some(Active) && EventIsRelevant(doc, ev) && ev.key != "Escape"
    ensures var fs := Edit(w.filterString, ev.key);
            var matches := Partition(w.tags, Matching(fs)).0;
            var h := Handle(w, ev, doc, relevant);
            h.reaction.stopped &&
            (|matches| <= 1 ==> h.world.state == Some(Inactive) && !DisplayIsActive(h.world) &&
                                h.world.filterString == "" && !h.world.yank) &&
            (|matches| == 1 ==> h.reaction.effect == SelectEffect(w.yank, matches[0], ev.mods, doc)) &&
            (|matches| >= 2 ==> h.world.state == Some(Active) && h.world.filterString == fs &&
                                |h.world.tags| == |w.tags| &&
                                forall i :: 0 <= i < |w.tags| ==>
                                  h.world.tags[i].name == w.tags[i].name &&
                                  (h.world.tags[i].shown <==> StartsWith(w.tags[i].name, fs)))
  {
    TableLookup(Active, ev.key);
  }

  /** `Escape` in `ACTIVE` clears the tags and returns to `INACTIVE`. */
  lemma ActiveEscape(w: World, ev: KeyEvent, doc: seq<Node>, relevant: seq<nat>)
    requires Page(doc, relevant) && TargetInDocument(doc, ev) && Inv(w, doc)
    requires w.state == Some(Active) && EventIsRelevant(doc, ev) && ev.key == "Escape"
    ensures Handle(w, ev, doc, relevant).world == Cleared(w).(state := Some(Inactive))
    ensures Handle(w, ev, doc, relevant).reaction == Reaction(true, NoEffect)
  {
    TableLookup(Active, ev.key);
  }

  /** Lines 330-346: `stateMachine = dfa.empty()`, the ten registrations and `setState(INACTIVE)`. */
  method NewMachine() returns (m: Dfa<Mode, Action>)
    ensures fresh(m) && m.states == ModeTable() && m.state == Some(Inactive)
  {
    m := new Dfa<Mode, Action>.Empty();
    m.AddTransition(Inactive, Yank, Exact("y"), DelayInactive);
    m.AddTransition(Inactive, Active, Exact("f"), Activate);
    m.AddTransition(Inactive, Inactive, Exact("Escape"), Unfocus);
    m.AddTransition(Inactive, Escaped, Exact(","), DelayInactive);
    ghost var afterInactive := m.states;
    assert afterInactive == InactiveRows(map[]);
    m.AddTransition(Yank, Escaped, Exact(","), CancelThenDelay);
    m.AddTransition(Yank, Active, Exact("f"), YankThenActivate);
    m.AddTransition(Yank, Inactive, Any, Cancel);
    assert m.states == YankRows(afterInactive);
    ghost var afterYank := m.states;
    m.AddTransition(Escaped, Inactive, Any, Cancel);
    m.AddTransition(Active, Active, Any, FilterInput);
    m.AddTransition(Active, Inactive, Exact("Escape"), Deactivate);
    assert m.states == LaterRows(afterYank);
    BuiltIsModeTable();
    m.SetState(Inactive);
  }

  /** The module state of the script together with its automaton. */
  class Session {
    const doc: seq<Node>
    const machine: Dfa<Mode, Action>
    var tags: seq<Tag>
    var filterString: string
    var yank: bool
    var timeoutId: Option<nat>
    var pending: set<nat>
    var nextTimer: nat

    function Snapshot(): World
      reads this, machine
    {
      World(machine.state, tags, filterString, yank, timeoutId, pending, nextTimer)
    }

    ghost predicate Valid()
      reads this, machine
    {
      WellFormed(doc) && machine.states == ModeTable() && Inv(Snapshot(), doc)
    }

    /** The start-up code: the table of lines 330-346 and `setState(INACTIVE)`. */
    constructor (doc: seq<Node>)
      requires WellFormed(doc)
      ensures Valid() && Snapshot() == Initial() && this.doc == doc
    {
      var m := NewMachine();
      this.doc := doc;
      machine := m;
      tags := [];
      filterString := "";
      yank := false;
      timeoutId := None;
      pending := {};
      nextTimer := 1;
      InitialInv(doc);
    }

    /** The `setTimeout` of `delayTransition(INACTIVE)`. */
    method DelayTransition()
      modifies this
      ensures Snapshot() == Armed(old(Snapshot()))
    {
      timeoutId := Some(nextTimer);
      pending := pending + {nextTimer};
      nextTimer := nextTimer + 1;
    }

    /** `escaped`: `clearTimeout(timeoutId)`. */
    method CancelTimeout()
      modifies this
      ensures Snapshot() == Cancelled(old(Snapshot()))
    {
      if timeoutId.Some? {
        pending := pending - {timeoutId.value};
      }
    }

    /** `clear()`; removing the tag elements from the page is not modelled. */
    method Clear()
      modifies this
      ensures Snapshot() == Cleared(old(Snapshot()))
    {
      tags := [];
      filterString := "";
      yank := false;
    }

    /** `display()`: collapse the targets, name them and put the tags on screen. */
    method Display(relevant: seq<nat>)
      requires Page(doc, relevant)
      modifies this
      ensures Snapshot() == old(Snapshot()).(tags := Shown(doc, relevant))
    {
      var targets := Collapse(doc, relevant);
      var names := GenerateIdxes(|targets|, Letters);
      tags := Label(targets, names);
    }

    /** `select(tag, keyEvent)`: the effect, then `clear()`. */
    method Select(tag: Tag, mods: Modifiers) returns (effect: Effect)
      requires WellFormed(doc) && tag.target < |doc|
      modifies this
      ensures effect == SelectEffect(old(yank), tag, mods, doc)
      ensures Snapshot() == Cleared(old(Snapshot()))
    {
      if yank {
        if doc[tag.target].tagName == "A" {
          effect := Copy(doc[tag.target].href);
        } else {
          effect := NoEffect;
        }
      } else {
        effect := Click(tag.target, IsInputElement(doc, tag.target), mods);
      }
      Clear();
    }

    /** `filter(keyEvent)`. */
    method FilterKey(ev: KeyEvent) returns (next: Option<Mode>, effect: Effect)
      requires WellFormed(doc) && TagsInDocument(doc, tags)
      modifies this
      ensures Ran(Snapshot(), next, Reaction(true, effect)) == Filtered(old(Snapshot()), ev, doc)
    {
      filterString := Edit(filterString, ev.key);
      var parts := Partition(tags, Matching(filterString));
      var matches := parts.0;
      if |matches| == 0 {
        Clear();
        next, effect := Some(Inactive), NoEffect;
      } else if |matches| == 1 {
        effect := Select(matches[0], ev.mods);
        next := Some(Inactive);
      } else {
        tags := Shade(tags, filterString);
        next, effect := None, NoEffect;
      }
    }

    /** `activate(i)`. */
    method ActivateTags(ev: KeyEvent, relevant: seq<nat>) returns (next: Option<Mode>, reaction: Reaction)
      requires Page(doc, relevant)
      modifies this
      ensures Ran(Snapshot(), next, reaction) == Activated(old(Snapshot()), ev, doc, relevant)
    {
      if HasModKey(ev.mods) {
        next, reaction := Some(Inactive), Reaction(false, NoEffect);
      } else {
        Display(relevant);
        next, reaction := None, Reaction(true, NoEffect);
      }
    }

    /** Runs action `a` of the table on the event. */
    method RunAction(a: Action, ev: KeyEvent, relevant: seq<nat>) returns (next: Option<Mode>, reaction: Reaction)
      requires Page(doc, relevant) && TagsInDocument(doc, tags)
      modifies this
      ensures Ran(Snapshot(), next, reaction) == Run(old(Snapshot()), a, ev, doc, relevant)
    {
      match a
      case DelayInactive =>
        DelayTransition();
        next, reaction := None, Reaction(true, NoEffect);
      case Activate =>
        next, reaction := ActivateTags(ev, relevant);
      case Unfocus =>
        next, reaction := None, Reaction(false, Blur);
      case CancelThenDelay =>
        CancelTimeout();
        DelayTransition();
        next, reaction := None, Reaction(true, NoEffect);
      case YankThenActivate =>
        CancelTimeout();
        yank := true;
        next, reaction := ActivateTags(ev, relevant);
      case Cancel =>
        CancelTimeout();
        next, reaction := None, Reaction(false, NoEffect);
      case FilterInput =>
        var effect;
        next, effect := FilterKey(ev);
        reaction := Reaction(true, effect);
      case Deactivate =>
        Clear();
        next, reaction := None, Reaction(true, NoEffect);
    }

    /** `keypressHandler(event)`: relevance check, then `dfa.input` with the table's actions. */
    method Keydown(ev: KeyEvent, relevant: seq<nat>) returns (outcome: Outcome<Mode, Action>, reaction: Reaction)
      requires Valid() && Page(doc, relevant) && TargetInDocument(doc, ev)
      modifies this, machine
      ensures Valid()
      ensures Dispatched(Snapshot(), outcome, reaction) == Handle(old(Snapshot()), ev, doc, relevant)
    {
      ghost var before := Snapshot();
      HandleKeepsInv(before, ev, doc, relevant);
      if !EventIsRelevant(doc, ev) {
        outcome, reaction := NoTransition, Reaction(false, NoEffect);
        return;
      }
      outcome := Lookup(machine.states, machine.state, ev.key);
      if outcome.Fire? {
        var next;
        next, reaction := RunAction(outcome.t.f, ev, relevant);
        machine.SetState(Next(outcome.t, next));
      } else {
        reaction := Reaction(false, NoEffect);
      }
    }

    /** The browser running the callback of armed timer `t`. */
    method FireTimer(t: nat)
      requires Valid() && t in pending
      modifies this, machine
      ensures Valid()
      ensures Snapshot() == Fired(old(Snapshot()), t)
    {
      FiredKeepsInv(Snapshot(), t, doc);
      pending := pending - {t};
      machine.SetState(Inactive);
    }
  }
}
