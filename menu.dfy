/**
  The menu screen: a column of clickable labels for the current (sub)menu,
  hit-tested against the cursor on every move, with a two-phase click (the
  button must be hovered both when it goes down and when it comes up) that
  commits an entry of the submenu transition table.

  The value-level functions (HoverStep, PressStep, ReleaseStep) are the
  specification; class MenuState holds the mutable fields and its methods
  are proved to perform exactly those steps.
*/
module Menu {
  import opened Events

  /** A button's offset from the menu anchor (whole numbers in the Rust program). */
  datatype Point = Point(x: real, y: real)

  /** A clickable label; `hovered` is rewritten on every cursor move. */
  datatype MenuButton = MenuButton(text: string, pos: Point, hovered: bool)

  /** The open submenu; `None` in a MenuView stands for the main menu. */
  datatype SubMenu = NewMission | LoadMission | Options

  /**
    Hit-test oracle for the current cursor and window size: whether the cursor
    lies inside the label with this text drawn at this offset.  The geometry
    and the font metrics behind it are not modelled.
  */
  type HitTest = (string, Point) -> bool

  predicate Hit(inside: HitTest, b: MenuButton)
  {
    inside(b.text, b.pos)
  }

  function Labels(bs: seq<MenuButton>): seq<string>
  {
    seq(|bs|, i requires 0 <= i < |bs| => bs[i].text)
  }

  /** A button as the builders create it: in the left column, not hovered. */
  function Unhovered(text: string, y: real): MenuButton
  {
    MenuButton(text, Point(0.0, y), false)
  }

  // ---------------------------------------------------------------------
  // Button layouts

  /** The main menu: rows 50 apart, headed by "resume" only when a mission can be resumed. */
  function MainMenu(activeMission: bool): (r: seq<MenuButton>)
    ensures |r| == if activeMission then 5 else 4
    ensures Labels(r) == (if activeMission then ["resume"] else [])
                         + ["new mission", "load mission", "options", "exit"]
    ensures forall i :: 0 <= i < |r| ==> r[i] == Unhovered(r[i].text, 50.0 * i as real)
  {
    var tail := ["new mission", "load mission", "options", "exit"];
    var labels := if activeMission then ["resume"] + tail else tail;
    seq(|labels|, i requires 0 <= i < |labels| => Unhovered(labels[i], 50.0 * i as real))
  }

  /** The new-mission submenu: three difficulties 50 apart, then "back" after a double gap. */
  function NewMissionMenu(): (r: seq<MenuButton>)
    ensures Labels(r) == ["easy", "medium", "hard", "back"]
    ensures forall i :: 0 <= i < |r| ==>
              r[i] == Unhovered(r[i].text, if i < 3 then 50.0 * i as real else 200.0)
  {
    [Unhovered("easy", 0.0), Unhovered("medium", 50.0), Unhovered("hard", 100.0), Unhovered("back", 200.0)]
  }

  /** The buttons a (sub)menu is built with; load-mission and options have none yet. */
  function Layout(submenu: Option<SubMenu>, activeMission: bool): seq<MenuButton>
  {
    match submenu
    case None => MainMenu(activeMission)
    case Some(NewMission) => NewMissionMenu()
    case Some(LoadMission) => []
    case Some(Options) => []
  }

  // ---------------------------------------------------------------------
  // The submenu transition table

  /** What committing a click does: hand back an event, switch (sub)menu, or nothing. */
  datatype Action = Emit(event: AppEvent) | Open(target: Option<SubMenu>) | Stay

  /** The transition table, keyed on (submenu, active mission, committed index). */
  function Committed(submenu: Option<SubMenu>, activeMission: bool, i: nat): Action
  {
    match (submenu, activeMission, i)
    case (None, true, 0) => Emit(ResumeMission)
    case (None, true, 1) => Open(Some(SubMenu.NewMission))
    case (None, false, 0) => Open(Some(SubMenu.NewMission))
    case (None, true, 2) => Open(Some(LoadMission))
    case (None, false, 1) => Open(Some(LoadMission))
    case (None, true, 3) => Open(Some(Options))
    case (None, false, 2) => Open(Some(Options))
    case (None, true, 4) => Emit(Exit)
    case (None, false, 3) => Emit(Exit)
    case (Some(NewMission), _, 0) => Emit(AppEvent.NewMission(Easy))
    case (Some(NewMission), _, 1) => Emit(AppEvent.NewMission(Medium))
    case (Some(NewMission), _, 2) => Emit(AppEvent.NewMission(Hard))
    case (Some(NewMission), _, 3) => Open(None)
    case (Some(Options), _, _) => Stay  // only a diagnostic line is printed
    case _ => Stay
  }

  /** Reference reading of the table: what a button does, judged by its label alone. */
  function LabelAction(text: string): Action
  {
    if text == "resume" then Emit(ResumeMission)
    else if text == "new mission" then Open(Some(SubMenu.NewMission))
    else if text == "load mission" then Open(Some(LoadMission))
    else if text == "options" then Open(Some(Options))
    else if text == "exit" then Emit(Exit)
    else if text == "easy" then Emit(AppEvent.NewMission(Easy))
    else if text == "medium" then Emit(AppEvent.NewMission(Medium))
    else if text == "hard" then Emit(AppEvent.NewMission(Hard))
    else if text == "back" then Open(None)
    else Stay
  }

  // ---------------------------------------------------------------------
  // Value view of the menu state and its steps

  datatype MenuView = MenuView(
    activeMission: bool,          // whether a running mission can be resumed
    submenu: Option<SubMenu>,     // None: the main menu
    buttons: seq<MenuButton>,     // replaced whenever the submenu changes
    hovered: Option<nat>,         // index of the hovered button
    pressing: Option<nat>)        // index hovered when the button went down

  /** A menu freshly opened. */
  function Initial(activeMission: bool): MenuView
  {
    MenuView(activeMission, None, MainMenu(activeMission), None, None)
  }

  /** The buttons after a hover pass: each flag is its own hit result. */
  function Rehovered(bs: seq<MenuButton>, inside: HitTest): seq<MenuButton>
  {
    seq(|bs|, i requires 0 <= i < |bs| => bs[i].(hovered := Hit(inside, bs[i])))
  }

  /** The last button under the cursor, scanning in order. */
  function LastHit(bs: seq<MenuButton>, inside: HitTest): Option<nat>
    decreases |bs|
  {
    if |bs| == 0 then None
    else if Hit(inside, bs[|bs| - 1]) then Some(|bs| - 1)
    else LastHit(bs[..|bs| - 1], inside)
  }

  /** The scan leaves the index of the last hit button, or None exactly when no button is hit. */
  lemma {:induction false} LastHitIsLast(bs: seq<MenuButton>, inside: HitTest)
    ensures var r := LastHit(bs, inside);
            && (r.Some? ==> r.value < |bs| && Hit(inside, bs[r.value])
                            && forall j :: r.value < j < |bs| ==> !Hit(inside, bs[j]))
            && (r.None? ==> forall j :: 0 <= j < |bs| ==> !Hit(inside, bs[j]))
    decreases |bs|
  {
    if |bs| > 0 && !Hit(inside, bs[|bs| - 1]) {
      LastHitIsLast(bs[..|bs| - 1], inside);
    }
  }

  /** The indices at which a hover pass plays the tap sound, in scan order. */
  function Taps(bs: seq<MenuButton>, inside: HitTest, previous: Option<nat>): seq<nat>
    decreases |bs|
  {
    if |bs| == 0 then []
    else
      var n := |bs| - 1;
      Taps(bs[..n], inside, previous) + (if Hit(inside, bs[n]) && previous != Some(n) then [n] else [])
  }

  predicate Increasing(s: seq<nat>)
  {
    forall a, b :: 0 <= a < b < |s| ==> s[a] < s[b]
  }

  /** A hover pass taps once for each hit button other than the one hovered before, in increasing order. */
  lemma {:induction false} TapsExactly(bs: seq<MenuButton>, inside: HitTest, previous: Option<nat>)
    ensures forall k :: k in Taps(bs, inside, previous) <==> 0 <= k < |bs| && Hit(inside, bs[k]) && previous != Some(k)
    ensures Increasing(Taps(bs, inside, previous))
    decreases |bs|
  {
    if |bs| > 0 {
      var n := |bs| - 1;
      TapsExactly(bs[..n], inside, previous);
      var earlier := Taps(bs[..n], inside, previous);
      var r := Taps(bs, inside, previous);
      assert r == earlier + (if Hit(inside, bs[n]) && previous != Some(n) then [n] else []);
      forall a | 0 <= a < |earlier|
        ensures r[a] == earlier[a] < n
      {
        assert earlier[a] in earlier;
      }
      forall a, b | 0 <= a < b < |r|
        ensures r[a] < r[b]
      {
        if b < |earlier| {
          assert r[b] == earlier[b];
        } else {
          assert r[b] == n;
        }
      }
    }
  }

  /** One more button scanned: how the last hit and the taps grow. */
  lemma ScanOne(bs: seq<MenuButton>, i: nat, inside: HitTest, previous: Option<nat>)
    requires i < |bs|
    ensures LastHit(bs[..i + 1], inside) == if Hit(inside, bs[i]) then Some(i) else LastHit(bs[..i], inside)
    ensures Taps(bs[..i + 1], inside, previous)
            == Taps(bs[..i], inside, previous) + (if Hit(inside, bs[i]) && previous != Some(i) then [i] else [])
  {
    assert bs[..i + 1][..i] == bs[..i];
  }

  function HoverStep(v: MenuView, inside: HitTest): MenuView
  {
    v.(buttons := Rehovered(v.buttons, inside), hovered := LastHit(v.buttons, inside))
  }

  function PressStep(v: MenuView): MenuView
  {
    v.(pressing := v.hovered)
  }

  /** A release's new menu state and the event it hands back. */
  datatype Stepped = Stepped(view: MenuView, event: Option<AppEvent>)

  function Apply(v: MenuView, a: Action): Stepped
  {
    match a
    case Emit(e) => Stepped(v, Some(e))
    case Open(s) => Stepped(v.(submenu := s, buttons := Layout(s, v.activeMission)), None)
    case Stay => Stepped(v, None)
  }

  function ReleaseStep(v: MenuView, b: Button): Stepped
  {
    match b
    case Mouse(Left) =>
      var cleared := v.(pressing := None);
      if v.pressing == v.hovered && v.pressing.Some? then
        Apply(cleared, Committed(v.submenu, v.activeMission, v.pressing.value))
      else
        Stepped(cleared, None)
    case Keyboard(Escape) =>
      if v.submenu.Some? then Stepped(v.(submenu := None, buttons := MainMenu(v.activeMission)), None)
      else Stepped(v, Some(ResumeMission))
    case _ => Stepped(v, None)
  }

  /** The buttons are those of the current (sub)menu's layout, up to hover flags. */
  predicate WellFormed(v: MenuView)
  {
    var layout := Layout(v.submenu, v.activeMission);
    |v.buttons| == |layout| && forall i :: 0 <= i < |layout| ==> v.buttons[i].(hovered := false) == layout[i]
  }

  // ---------------------------------------------------------------------
  // Properties of the steps

  /**
    The table matches the labels: a committed index on a shown button does
    what that button's label says, and an index past the shown buttons does
    nothing.  This is where the one-place shift of the main menu is checked.
  */
  lemma CommittedFollowsLabels(submenu: Option<SubMenu>, activeMission: bool, i: nat)
    ensures i < |Layout(submenu, activeMission)| ==>
              Committed(submenu, activeMission, i) == LabelAction(Layout(submenu, activeMission)[i].text)
    ensures i >= |Layout(submenu, activeMission)| ==> Committed(submenu, activeMission, i) == Stay
  {
    var layout := Layout(submenu, activeMission);
    if i < |layout| {
      assert Labels(layout)[i] == layout[i].text;
    }
  }

  lemma InitialWellFormed(activeMission: bool)
    ensures WellFormed(Initial(activeMission))
    ensures Initial(activeMission).hovered == None && Initial(activeMission).pressing == None
  {
  }

  /** Hovering sets each flag to its hit result and `hovered` to the last hit, touching nothing else. */
  lemma HoverSetsFlags(v: MenuView, inside: HitTest)
    ensures var w := HoverStep(v, inside);
            && |w.buttons| == |v.buttons|
            && (forall i :: 0 <= i < |v.buttons| ==>
                  w.buttons[i].hovered == Hit(inside, v.buttons[i])
                  && w.buttons[i].(hovered := false) == v.buttons[i].(hovered := false))
            && (w.hovered == None <==> forall i :: 0 <= i < |v.buttons| ==> !Hit(inside, v.buttons[i]))
            && (w.hovered.Some? ==> w.hovered.value < |v.buttons| && Hit(inside, v.buttons[w.hovered.value])
                                    && forall j :: w.hovered.value < j < |v.buttons| ==> !Hit(inside, v.buttons[j]))
            && w.activeMission == v.activeMission && w.submenu == v.submenu && w.pressing == v.pressing
  {
    LastHitIsLast(v.buttons, inside);
  }

  /** At most one button is under the cursor (the labels do not overlap). */
  predicate AtMostOneHit(bs: seq<MenuButton>, inside: HitTest)
  {
    forall i, j :: 0 <= i < |bs| && 0 <= j < |bs| && Hit(inside, bs[i]) && Hit(inside, bs[j]) ==> i == j
  }

  /** When only index p could tap, the pass taps p or nothing. */
  lemma {:induction false} TapsAtMostOne(bs: seq<MenuButton>, inside: HitTest, previous: Option<nat>, p: nat)
    requires forall k :: 0 <= k < |bs| && Hit(inside, bs[k]) && previous != Some(k) ==> k == p
    ensures Taps(bs, inside, previous) == if p < |bs| && Hit(inside, bs[p]) && previous != Some(p) then [p] else []
    decreases |bs|
  {
    if |bs| > 0 {
      var n := |bs| - 1;
      TapsAtMostOne(bs[..n], inside, previous, p);
    }
  }

  /** Nothing under the cursor: no tap. */
  lemma NothingHitIsSilent(v: MenuView, inside: HitTest)
    requires forall i :: 0 <= i < |v.buttons| ==> !Hit(inside, v.buttons[i])
    ensures Taps(v.buttons, inside, v.hovered) == []
  {
    TapsAtMostOne(v.buttons, inside, v.hovered, |v.buttons|);
  }

  /** With one button under the cursor, a tap plays exactly when it was not the hovered one. */
  lemma SingleHitTaps(v: MenuView, inside: HitTest, p: nat)
    requires p < |v.buttons| && Hit(inside, v.buttons[p]) && AtMostOneHit(v.buttons, inside)
    ensures Taps(v.buttons, inside, v.hovered) == if v.hovered == Some(p) then [] else [p]
  {
    TapsAtMostOne(v.buttons, inside, v.hovered, p);
  }

  /** Hovering again at the same place plays nothing, when the labels do not overlap. */
  lemma SecondHoverIsSilent(v: MenuView, inside: HitTest)
    requires AtMostOneHit(v.buttons, inside)
    ensures var w := HoverStep(v, inside); Taps(w.buttons, inside, w.hovered) == []
  {
    var w := HoverStep(v, inside);
    LastHitIsLast(v.buttons, inside);
    assert forall i :: 0 <= i < |w.buttons| ==> Hit(inside, w.buttons[i]) == Hit(inside, v.buttons[i]);
    if w.hovered.Some? {
      SingleHitTaps(w, inside, w.hovered.value);
    } else {
      NothingHitIsSilent(w, inside);
    }
  }

  /** Press arms the click at the hovered index and changes nothing else. */
  lemma PressArms(v: MenuView)
    ensures PressStep(v).pressing == v.hovered
    ensures PressStep(v).(pressing := v.pressing) == v
  {
  }

  /**
    What a release leaves alone: the active-mission flag and the hovered index
    never change; a left release always disarms; a release that is neither
    the left button nor Escape changes nothing and hands back nothing; a
    left release whose armed index is unset or differs from the hovered one
    only disarms; Escape in a submenu rebuilds the main menu silently; and
    Escape at the main menu asks to resume and changes nothing.
  */
  lemma ReleaseFrame(v: MenuView, b: Button)
    ensures ReleaseStep(v, b).view.activeMission == v.activeMission
    ensures ReleaseStep(v, b).view.hovered == v.hovered
    ensures b == Mouse(Left) ==> ReleaseStep(v, b).view.pressing == None
    ensures b != Mouse(Left) && b != Keyboard(Escape) ==> ReleaseStep(v, b) == Stepped(v, None)
    ensures b == Mouse(Left) && (v.pressing == None || v.pressing != v.hovered) ==>
              ReleaseStep(v, b) == Stepped(v.(pressing := None), None)
    ensures b == Keyboard(Escape) && v.submenu.Some? ==>
              ReleaseStep(v, b) == Stepped(v.(submenu := None, buttons := MainMenu(v.activeMission)), None)
    ensures b == Keyboard(Escape) && v.submenu.None? ==> ReleaseStep(v, b) == Stepped(v, Some(ResumeMission))
  {
  }

  /** Press and release over the same button commit its table entry. */
  lemma ClickCommits(v: MenuView)
    requires v.hovered.Some?
    ensures ReleaseStep(PressStep(v), Mouse(Left))
            == Apply(v.(pressing := None), Committed(v.submenu, v.activeMission, v.hovered.value))
  {
  }

  /** Press over one button, move so that another (or none) is hovered, release: nothing commits. */
  lemma MovedAwayCancels(v: MenuView, inside: HitTest)
    requires HoverStep(PressStep(v), inside).hovered != v.hovered
    ensures var w := HoverStep(PressStep(v), inside);
            ReleaseStep(w, Mouse(Left)) == Stepped(w.(pressing := None), None)
  {
  }

  /** Escape inside a submenu returns to the main menu silently; a second Escape asks to resume. */
  lemma EscapeBackThenResume(v: MenuView)
    requires v.submenu.Some?
    ensures var first := ReleaseStep(v, Keyboard(Escape));
            && first.event == None
            && first.view.submenu == None
            && first.view.buttons == MainMenu(v.activeMission)
            && ReleaseStep(first.view, Keyboard(Escape)) == Stepped(first.view, Some(ResumeMission))
  {
  }

  /** Hovering keeps the buttons those of the shown (sub)menu. */
  lemma HoverKeepsWellFormed(v: MenuView, inside: HitTest)
    requires WellFormed(v)
    ensures WellFormed(HoverStep(v, inside))
  {
    var w := HoverStep(v, inside);
    var layout := Layout(v.submenu, v.activeMission);
    forall i | 0 <= i < |layout| ensures w.buttons[i].(hovered := false) == layout[i] {
      assert w.buttons[i].(hovered := false) == v.buttons[i].(hovered := false);
    }
  }

  /** A (sub)menu's layout is well formed whatever the hover state. */
  lemma LayoutWellFormed(v: MenuView)
    requires v.buttons == Layout(v.submenu, v.activeMission)
    ensures WellFormed(v)
  {
    var layout := Layout(v.submenu, v.activeMission);
    forall i | 0 <= i < |layout| ensures v.buttons[i].(hovered := false) == layout[i] {
      assert !layout[i].hovered;
    }
  }

  /** Every step keeps the buttons those of the shown (sub)menu. */
  lemma StepsKeepWellFormed(v: MenuView, inside: HitTest, b: Button)
    requires WellFormed(v)
    ensures WellFormed(HoverStep(v, inside))
    ensures WellFormed(PressStep(v))
    ensures WellFormed(ReleaseStep(v, b).view)
  {
    HoverKeepsWellFormed(v, inside);
    var r := ReleaseStep(v, b).view;
    if r.buttons != v.buttons || r.submenu != v.submenu {
      LayoutWellFormed(r);
    }
  }

  /**
    The hovered index is not reset when the buttons are swapped.  Hover over
    "new mission" in a menu with a resumable mission (index 1) and click it:
    the new-mission submenu opens with no button flagged hovered, yet
    `hovered` is still 1, so a second click without moving the cursor starts
    a Medium mission.
  */
  lemma StaleHoverCommitsUnseenButton()
    ensures var onNewMission := (t: string, p: Point) => t == "new mission";
            var shown := ReleaseStep(PressStep(HoverStep(Initial(true), onNewMission)), Mouse(Left)).view;
            && shown.submenu == Some(SubMenu.NewMission)
            && shown.hovered == Some(1)
            && (forall i :: 0 <= i < |shown.buttons| ==> !shown.buttons[i].hovered)
            && ReleaseStep(PressStep(shown), Mouse(Left)).event == Some(AppEvent.NewMission(Medium))
  {
    var onNewMission := (t: string, p: Point) => t == "new mission";
    var bs := MainMenu(true);
    assert Labels(bs)[1] == bs[1].text == "new mission";
    assert forall j :: 1 < j < |bs| ==> !Hit(onNewMission, bs[j]) by {
      forall j | 1 < j < |bs| ensures !Hit(onNewMission, bs[j]) {
        assert Labels(bs)[j] == bs[j].text;
      }
    }
    LastHitIsLast(bs, onNewMission);
    assert LastHit(bs, onNewMission) == Some(1);
  }

  /**
    Escape swaps the button list without disarming: a button pressed in a
    submenu stays armed across the Escape, so releasing the left button
    afterwards commits the main-menu entry at that index (with a mission,
    index 0 is "resume", although "easy" was the button pressed).
  */
  lemma EscapeKeepsArmed(v: MenuView)
    requires v.submenu.Some? && v.hovered.Some?
    ensures var back := ReleaseStep(PressStep(v), Keyboard(Escape)).view;
            && back.submenu == None
            && back.buttons == MainMenu(v.activeMission)
            && back.pressing == v.hovered
            && ReleaseStep(back, Mouse(Left)) == Apply(back.(pressing := None), Committed(None, v.activeMission, v.hovered.value))
    ensures v.hovered == Some(0) && v.activeMission ==>
              ReleaseStep(ReleaseStep(PressStep(v), Keyboard(Escape)).view, Mouse(Left)).event == Some(ResumeMission)
  {
  }

  // ---------------------------------------------------------------------
  // The mutable menu state

  class MenuState {
    var activeMission: bool
    var submenu: Option<SubMenu>
    var buttons: seq<MenuButton>
    var hovered: Option<nat>
    var pressing: Option<nat>
    /** Indices whose hovering played the tap sound, oldest first (the audio itself is not modelled). */
    ghost var taps: seq<nat>

    function View(): MenuView
      reads this
    {
      MenuView(activeMission, submenu, buttons, hovered, pressing)
    }

    static method MainMenuButtons(activeMission: bool) returns (buttons: seq<MenuButton>)
      ensures buttons == MainMenu(activeMission)
    {
      buttons := [];
      var y := 0.0;
      if activeMission {
        buttons := buttons + [MenuButton("resume", Point(0.0, y), false)];
        y := y + 50.0;
      }
      buttons := buttons + [MenuButton("new mission", Point(0.0, y), false)];
      y := y + 50.0;
      buttons := buttons + [MenuButton("load mission", Point(0.0, y), false)];
      y := y + 50.0;
      buttons := buttons + [MenuButton("options", Point(0.0, y), false)];
      y := y + 50.0;
      buttons := buttons + [MenuButton("exit", Point(0.0, y), false)];
    }

    static method NewMissionMenuButtons() returns (buttons: seq<MenuButton>)
      ensures buttons == NewMissionMenu()
    {
      buttons := [];
      var y := 0.0;
      buttons := buttons + [MenuButton("easy", Point(0.0, y), false)];
      y := y + 50.0;
      buttons := buttons + [MenuButton("medium", Point(0.0, y), false)];
      y := y + 50.0;
      buttons := buttons + [MenuButton("hard", Point(0.0, y), false)];
      y := y + 100.0;
      buttons := buttons + [MenuButton("back", Point(0.0, y), false)];
    }

    static method LoadMissionMenuButtons() returns (buttons: seq<MenuButton>)
      ensures buttons == Layout(Some(LoadMission), false) && buttons == []
    {
      buttons := [];
    }

    static method OptionsMenuButtons() returns (buttons: seq<MenuButton>)
      ensures buttons == Layout(Some(Options), false) && buttons == []
    {
      buttons := [];
    }

    constructor (activeMission: bool)
      ensures View() == Initial(activeMission) && taps == []
    {
      var bs := MainMenuButtons(activeMission);
      this.activeMission := activeMission;
      submenu := None;
      buttons := bs;
      hovered := None;
      pressing := None;
      taps := [];
    }

    /** Hit-tests every button, playing the tap sound for each newly hovered one. */
    method Hover(inside: HitTest) returns (e: Option<AppEvent>)
      modifies this
      ensures View() == HoverStep(old(View()), inside)
      ensures taps == old(taps) + Taps(old(buttons), inside, old(hovered))
      ensures e == None
    {
      var previouslyHovered := hovered;
      var scanned := buttons;
      var lastHit: Option<nat> := None;
      ghost var played := taps;
      var i := 0;
      while i < |scanned|
        modifies {}
        invariant 0 <= i <= |scanned| == |buttons|
        invariant forall k :: 0 <= k < i ==> scanned[k] == buttons[k].(hovered := Hit(inside, buttons[k]))
        invariant forall k :: i <= k < |scanned| ==> scanned[k] == buttons[k]
        invariant lastHit == LastHit(buttons[..i], inside)
        invariant played == taps + Taps(buttons[..i], inside, previouslyHovered)
      {
        var button := scanned[i];
        ScanOne(buttons, i, inside, previouslyHovered);
        if inside(button.text, button.pos) {
          scanned := scanned[i := button.(hovered := true)];
          if previouslyHovered != Some(i) {
            played := played + [i];
          }
          lastHit := Some(i);
        } else {
          scanned := scanned[i := button.(hovered := false)];
        }
        i := i + 1;
      }
      assert buttons[..i] == buttons;
      assert scanned == Rehovered(buttons, inside);
      buttons, hovered, taps := scanned, lastHit, played;
      e := None;
    }

    /** Arms the two-phase click at the hovered index, whatever the button. */
    method Press(b: Button) returns (e: Option<AppEvent>)
      modifies this
      ensures View() == PressStep(old(View()))
      ensures taps == old(taps) && e == None
    {
      pressing := hovered;
      e := None;
    }

    /** Commits or cancels the click begun by Press, or handles Escape. */
    method Release(b: Button) returns (e: Option<AppEvent>)
      modifies this
      ensures Stepped(View(), e) == ReleaseStep(old(View()), b)
      ensures taps == old(taps)
    {
      e := None;
      match b {
        case Mouse(Left) =>
          var wasPressing := pressing;
          pressing := None;
          if wasPressing == hovered {
            if wasPressing.Some? {
              match (submenu, activeMission, wasPressing.value) {
                case (None, true, 0) =>
                  e := Some(ResumeMission);
                case (None, true, 1) =>
                  submenu := Some(SubMenu.NewMission);
                  buttons := NewMissionMenuButtons();
                case (None, false, 0) =>
                  submenu := Some(SubMenu.NewMission);
                  buttons := NewMissionMenuButtons();
                case (None, true, 2) =>
                  submenu := Some(LoadMission);
                  buttons := LoadMissionMenuButtons();
                case (None, false, 1) =>
                  submenu := Some(LoadMission);
                  buttons := LoadMissionMenuButtons();
                case (None, true, 3) =>
                  submenu := Some(Options);
                  buttons := OptionsMenuButtons();
                case (None, false, 2) =>
                  submenu := Some(Options);
                  buttons := OptionsMenuButtons();
                case (None, true, 4) =>
                  e := Some(Exit);
                case (None, false, 3) =>
                  e := Some(Exit);
                case (Some(NewMission), _, 0) =>
                  e := Some(AppEvent.NewMission(Easy));
                case (Some(NewMission), _, 1) =>
                  e := Some(AppEvent.NewMission(Medium));
                case (Some(NewMission), _, 2) =>
                  e := Some(AppEvent.NewMission(Hard));
                case (Some(NewMission), am, 3) =>
                  submenu := None;
                  buttons := MainMenuButtons(am);
                case (Some(Options), _, _) =>
                case _ =>
              }
            }
          }
        case Keyboard(Escape) =>
          if submenu.Some? {
            submenu := None;
            buttons := MainMenuButtons(activeMission);
          } else {
            e := Some(ResumeMission);
          }
        case _ =>
      }
    }
  }
}
