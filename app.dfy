/**
  The top-level application state: at most one menu and at most one mission,
  a fixed routing priority between them, and the application of the events
  that the screens hand back.

  As for the menu, the value-level functions (HandleStep, HoverStep,
  PressStep, ReleaseStep, Step) are the specification and class AppState's
  methods are proved to perform them.  The window is reduced to its
  close-request flag.
*/
module App {
  import opened Events
  import Menu
  import Mission

  datatype AppView = AppView(
    menu: Option<Menu.MenuView>,
    mission: Option<Mission.MissionState>,
    shouldClose: bool)           // the window was asked to close

  /** At start-up: the main menu without a resumable mission, and no mission. */
  function InitialApp(): AppView
  {
    AppView(Some(Menu.Initial(false)), None, false)
  }

  /** The starting budget of a new mission (millions). */
  function Budget(d: MissionDifficulty): int
  {
    match d
    case Easy => 1000
    case Medium => 750
    case Hard => 500
  }

  /** Applying an event handed back by a screen. */
  function HandleStep(v: AppView, e: AppEvent): AppView
  {
    match e
    case Exit => v.(shouldClose := true)
    case OpenMenu => v.(menu := Some(Menu.Initial(v.mission.Some?)))
    case ResumeMission => if v.mission.Some? then v.(menu := None) else v
    case NewMission(d) => v.(mission := Some(Mission.Planning(Budget(d))), menu := None)
  }

  /** A routed input's new state and the event the chosen screen handed back. */
  datatype Routed = Routed(view: AppView, event: Option<AppEvent>)

  function HoverStep(v: AppView, inside: Menu.HitTest): Routed
  {
    match (v.menu, v.mission)
    case (Some(m), _) => Routed(v.(menu := Some(Menu.HoverStep(m, inside))), None)
    case (None, Some(ms)) => Routed(v, Mission.Hover(ms))
    case (None, None) => Routed(v, None)
  }

  function PressStep(v: AppView, b: Button): Routed
  {
    if b == Keyboard(Escape) then Routed(v, None)
    else
      match (v.menu, v.mission)
      case (Some(m), _) => Routed(v.(menu := Some(Menu.PressStep(m))), None)
      case (None, Some(ms)) => Routed(v, Mission.Press(ms, b))
      case (None, None) => Routed(v, None)
  }

  function ReleaseStep(v: AppView, b: Button): Routed
  {
    match (v.menu, v.mission)
    case (Some(m), _) =>
      var s := Menu.ReleaseStep(m, b);
      Routed(v.(menu := Some(s.view)), s.event)
    case (None, Some(ms)) => Routed(v, Mission.Release(ms, b))
    case (None, None) => Routed(v, None)
  }

  /** One input from the event loop: a cursor move (as its hit test), a button down or up. */
  datatype Input =
    | CursorMoved(inside: Menu.HitTest)
    | Pressed(button: Button)
    | Released(button: Button)

  function Route(v: AppView, input: Input): Routed
  {
    match input
    case CursorMoved(inside) => HoverStep(v, inside)
    case Pressed(b) => PressStep(v, b)
    case Released(b) => ReleaseStep(v, b)
  }

  /** One turn of the event loop: route the input, then apply the event handed back, if any. */
  function Step(v: AppView, input: Input): AppView
  {
    var r := Route(v, input);
    if r.event.Some? then HandleStep(r.view, r.event.value) else r.view
  }

  function Run(v: AppView, inputs: seq<Input>): AppView
    decreases |inputs|
  {
    if inputs == [] then v else Run(Step(v, inputs[0]), inputs[1..])
  }

  /**
    The application invariant: some screen is always present; a mission is
    always still planning, with one of the three starting budgets; and a
    menu offers "resume" exactly when there is a mission, and shows the
    buttons of its (sub)menu.
  */
  predicate Inv(v: AppView)
  {
    && (v.menu.Some? || v.mission.Some?)
    && (v.mission.Some? ==> v.mission.value.Planning? && v.mission.value.budget in {1000, 750, 500})
    && (v.menu.Some? ==> v.menu.value.activeMission == v.mission.Some? && Menu.WellFormed(v.menu.value))
  }

  // ---------------------------------------------------------------------
  // Properties

  /** Start-up state: main menu without "resume", no mission, and the invariant. */
  lemma InitialAppFacts()
    ensures InitialApp().menu == Some(Menu.Initial(false)) && InitialApp().mission == None
    ensures Inv(InitialApp())
  {
    Menu.InitialWellFormed(false);
  }

  /** What each event does, and that it never changes anything else. */
  lemma HandleEffects(v: AppView, e: AppEvent)
    ensures e == Exit ==> HandleStep(v, e) == v.(shouldClose := true)
    ensures e == OpenMenu ==>
              HandleStep(v, e).menu == Some(Menu.Initial(v.mission.Some?))
              && HandleStep(v, e).mission == v.mission && HandleStep(v, e).shouldClose == v.shouldClose
    ensures e == ResumeMission ==>
              (HandleStep(v, e).menu == None <==> v.mission.Some? || v.menu.None?)
              && HandleStep(v, e).(menu := v.menu) == v
              && (v.mission.None? ==> HandleStep(v, e) == v)
    ensures e.NewMission? ==>
              HandleStep(v, e).mission == Some(Mission.Planning(Budget(e.difficulty)))
              && HandleStep(v, e).menu == None && HandleStep(v, e).shouldClose == v.shouldClose
  {
  }

  /** The three difficulties start with 1000, 750 and 500. */
  lemma BudgetValues()
    ensures Budget(Easy) == 1000 && Budget(Medium) == 750 && Budget(Hard) == 500
  {
  }

  /** Every event keeps the invariant; in particular none leaves the application without a screen. */
  lemma HandleKeepsInv(v: AppView, e: AppEvent)
    requires Inv(v)
    ensures Inv(HandleStep(v, e))
  {
    if e == OpenMenu {
      Menu.InitialWellFormed(v.mission.Some?);
    }
  }

  /**
    Routing priority: a present menu receives the input whatever the
    mission; only without a menu does the mission receive it; with neither
    the input is dropped.  Routing never changes the mission or the close
    flag, and never removes the menu.
  */
  lemma RoutingPriority(v: AppView, input: Input)
    ensures Route(v, input).view.mission == v.mission
    ensures Route(v, input).view.shouldClose == v.shouldClose
    ensures Route(v, input).view.menu.Some? == v.menu.Some?
    ensures v.menu.Some? && input.Released? ==>
              Route(v, input) == var s := Menu.ReleaseStep(v.menu.value, input.button);
                                 Routed(v.(menu := Some(s.view)), s.event)
    ensures v.menu.Some? && input.CursorMoved? ==>
              Route(v, input) == Routed(v.(menu := Some(Menu.HoverStep(v.menu.value, input.inside))), None)
    ensures v.menu.Some? && input.Pressed? && input.button != Keyboard(Escape) ==>
              Route(v, input) == Routed(v.(menu := Some(Menu.PressStep(v.menu.value))), None)
    ensures v.menu.None? ==> Route(v, input).view == v
    ensures v.menu.None? && v.mission.Some? && input.Released? ==>
              Route(v, input).event == Mission.Release(v.mission.value, input.button)
    ensures v.menu.None? && v.mission.Some? && !input.Released? ==> Route(v, input).event == None
    ensures v.menu.None? && v.mission.None? ==> Route(v, input) == Routed(v, None)
  {
  }

  /** Escape going down is swallowed before any screen sees it. */
  lemma EscapePressSwallowed(v: AppView)
    ensures Route(v, Pressed(Keyboard(Escape))) == Routed(v, None)
    ensures Step(v, Pressed(Keyboard(Escape))) == v
  {
  }

  /** Routing an input keeps the invariant. */
  lemma RouteKeepsInv(v: AppView, input: Input)
    requires Inv(v)
    ensures Inv(Route(v, input).view)
  {
    if v.menu.Some? {
      var m := v.menu.value;
      match input
      case CursorMoved(inside) =>
        Menu.StepsKeepWellFormed(m, inside, Mouse(Left));
      case Pressed(b) =>
        Menu.StepsKeepWellFormed(m, (t: string, p: Menu.Point) => false, b);
      case Released(b) =>
        Menu.StepsKeepWellFormed(m, (t: string, p: Menu.Point) => false, b);
        Menu.ReleaseFrame(m, b);
    }
  }

  lemma StepKeepsInv(v: AppView, input: Input)
    requires Inv(v)
    ensures Inv(Step(v, input))
  {
    RouteKeepsInv(v, input);
    var r := Route(v, input);
    if r.event.Some? {
      HandleKeepsInv(r.view, r.event.value);
    }
  }

  lemma {:induction false} RunKeepsInv(v: AppView, inputs: seq<Input>)
    requires Inv(v)
    ensures Inv(Run(v, inputs))
    decreases |inputs|
  {
    if inputs != [] {
      StepKeepsInv(v, inputs[0]);
      RunKeepsInv(Step(v, inputs[0]), inputs[1..]);
    }
  }

  /**
    Whatever the inputs: a screen is always present, a mission never leaves
    planning (Execution is never entered) and its budget is one of the three
    starting budgets, and a menu is seeded with "resume" exactly when a
    mission is and shows the buttons of its (sub)menu, so "resume" heads the
    main menu exactly when a mission exists.
  */
  lemma Reachable(inputs: seq<Input>)
    ensures var v := Run(InitialApp(), inputs);
            && (v.menu.Some? || v.mission.Some?)
            && (v.mission.Some? ==> v.mission.value.Planning? && v.mission.value.budget in {1000, 750, 500})
            && (v.menu.Some? ==> v.menu.value.activeMission == v.mission.Some? && Menu.WellFormed(v.menu.value))
  {
    InitialAppFacts();
    RunKeepsInv(InitialApp(), inputs);
  }

  /** A cursor resting on the label with this text, and on no other label. */
  function OnLabel(text: string): Menu.HitTest
  {
    (t: string, p: Menu.Point) => t == text
  }

  /** Hovering a label that is shown once hovers exactly that index. */
  lemma HoverOnLabel(bs: seq<Menu.MenuButton>, i: nat)
    requires i < |bs|
    requires forall j :: 0 <= j < |bs| && j != i ==> bs[j].text != bs[i].text
    ensures Menu.LastHit(bs, OnLabel(bs[i].text)) == Some(i)
  {
    Menu.LastHitIsLast(bs, OnLabel(bs[i].text));
  }

  /** A left click: press then release of the left mouse button. */
  function Click(v: AppView): AppView
  {
    Step(Step(v, Pressed(Mouse(Left))), Released(Mouse(Left)))
  }

  /**
    At start-up, hovering and clicking "new mission" (index 0, as no mission
    can be resumed) opens the new-mission submenu with its four buttons; the
    hovered index 0 is kept, pointing at "easy" now.
  */
  lemma ClickNewMissionAtStart()
    ensures Click(Step(InitialApp(), CursorMoved(OnLabel("new mission"))))
            == AppView(Some(Menu.MenuView(false, Some(Menu.SubMenu.NewMission), Menu.NewMissionMenu(), Some(0), None)),
                       None, false)
  {
    var main := Menu.MainMenu(false);
    assert Menu.Labels(main) == ["new mission", "load mission", "options", "exit"];
    assert forall j :: 0 <= j < 4 ==> main[j].text == Menu.Labels(main)[j];
    HoverOnLabel(main, 0);
  }

  /** In the new-mission submenu, hovering and clicking "hard" starts a mission with budget 500 and closes the menu. */
  lemma ClickHardInNewMissionMenu(hovered: Option<nat>)
    ensures Click(Step(AppView(Some(Menu.MenuView(false, Some(Menu.SubMenu.NewMission), Menu.NewMissionMenu(), hovered, None)),
                               None, false),
                       CursorMoved(OnLabel("hard"))))
            == AppView(None, Some(Mission.Planning(500)), false)
  {
    var sub := Menu.NewMissionMenu();
    assert Menu.Labels(sub) == ["easy", "medium", "hard", "back"];
    assert forall j :: 0 <= j < 4 ==> sub[j].text == Menu.Labels(sub)[j];
    HoverOnLabel(sub, 2);
  }

  /** Releasing Escape during a mission reopens the menu, now headed by "resume". */
  lemma EscapeInMissionReopensMenu(budget: int)
    ensures Step(AppView(None, Some(Mission.Planning(budget)), false), Released(Keyboard(Escape)))
            == AppView(Some(Menu.Initial(true)), Some(Mission.Planning(budget)), false)
    ensures Menu.Initial(true).buttons[0].text == "resume"
  {
    assert Menu.Initial(true).buttons[0].text == Menu.Labels(Menu.MainMenu(true))[0];
  }

  // ---------------------------------------------------------------------
  // The mutable application state

  class AppState {
    var shouldClose: bool
    var menuState: Option<Menu.MenuState>
    var missionState: Option<Mission.MissionState>

    /** The screen objects the application state owns. */
    function Screens(): set<object>
      reads this
    {
      if menuState.Some? then {menuState.value} else {}
    }

    function View(): AppView
      reads this, Screens()
    {
      AppView(if menuState.Some? then Some(menuState.value.View()) else None, missionState, shouldClose)
    }

    constructor ()
      ensures View() == InitialApp() && fresh(Screens())
      ensures menuState.Some? && menuState.value.taps == []
    {
      var menu := new Menu.MenuState(false);
      shouldClose := false;
      menuState := Some(menu);
      missionState := None;
    }

    /** Applies an event handed back by a screen. */
    method Handle(e: AppEvent)
      modifies this
      ensures View() == HandleStep(old(View()), e)
      ensures fresh(Screens() - old(Screens()))
      ensures e == OpenMenu ==> menuState.Some? && fresh(menuState.value) && menuState.value.taps == []
      ensures e != OpenMenu && menuState.Some? ==> menuState == old(menuState)
    {
      match e {
        case Exit =>
          shouldClose := true;
        case OpenMenu =>
          var menu := new Menu.MenuState(missionState.Some?);
          menuState := Some(menu);
        case ResumeMission =>
          if missionState.Some? {
            menuState := None;
          }
        case NewMission(difficulty) =>
          var budget;
          match difficulty {
            case Easy => budget := 1000;
            case Medium => budget := 750;
            case Hard => budget := 500;
          }
          missionState := Some(Mission.Planning(budget));
          menuState := None;
      }
    }

    method Hover(inside: Menu.HitTest) returns (e: Option<AppEvent>)
      modifies Screens()
      ensures Routed(View(), e) == HoverStep(old(View()), inside)
      ensures menuState == old(menuState)
      ensures menuState.Some? ==>
                menuState.value.taps
                == old(menuState.value.taps) + Menu.Taps(old(menuState.value.buttons), inside, old(menuState.value.hovered))
    {
      match (menuState, missionState) {
        case (Some(menu), _) =>
          e := menu.Hover(inside);
        case (None, Some(mission)) =>
          e := Mission.Hover(mission);
        case (None, None) =>
          e := None;
      }
    }

    method Press(b: Button) returns (e: Option<AppEvent>)
      modifies Screens()
      ensures Routed(View(), e) == PressStep(old(View()), b)
      ensures menuState == old(menuState)
      ensures menuState.Some? ==> menuState.value.taps == old(menuState.value.taps)
    {
      if b == Keyboard(Escape) {
        e := None;
      } else {
        match (menuState, missionState) {
          case (Some(menu), _) =>
            e := menu.Press(b);
          case (None, Some(mission)) =>
            e := Mission.Press(mission, b);
          case (None, None) =>
            e := None;
        }
      }
    }

    method Release(b: Button) returns (e: Option<AppEvent>)
      modifies Screens()
      ensures Routed(View(), e) == ReleaseStep(old(View()), b)
      ensures menuState == old(menuState)
      ensures menuState.Some? ==> menuState.value.taps == old(menuState.value.taps)
    {
      match (menuState, missionState) {
        case (Some(menu), _) =>
          e := menu.Release(b);
        case (None, Some(mission)) =>
          e := Mission.Release(mission, b);
        case (None, None) =>
          e := None;
      }
    }

    /**
      One turn of the event loop: route the input, then handle the event
      handed back.  A menu present before and after the turn is the same
      object, since only OpenMenu replaces it and a menu never emits
      OpenMenu.  That menu taps exactly `Taps` on a cursor move and nothing
      otherwise; a menu opened by the turn has played nothing yet.
    */
    method OnInput(input: Input)
      modifies this, Screens()
      ensures View() == Step(old(View()), input)
      ensures fresh(Screens() - old(Screens()))
      ensures old(menuState).Some? && menuState == old(menuState) ==>
                menuState.value.taps
                == old(menuState.value.taps)
                   + (if input.CursorMoved?
                      then Menu.Taps(old(menuState.value.buttons), input.inside, old(menuState.value.hovered))
                      else [])
      ensures old(menuState).Some? && menuState.Some? ==> menuState == old(menuState)
      ensures menuState.Some? && menuState != old(menuState) ==> fresh(menuState.value) && menuState.value.taps == []
    {
      var e: Option<AppEvent>;
      match input {
        case CursorMoved(inside) =>
          e := Hover(inside);
        case Pressed(b) =>
          e := Press(b);
        case Released(b) =>
          e := Release(b);
      }
      if e.Some? {
        Handle(e.value);
      }
    }
  }

  /**
    The start-up scenario driven through the objects: hover and click "new
    mission", hover and click "hard", then release Escape in the mission.
    Returns the mission's budget and whether the reopened menu offers
    "resume" first.
  */
  method HardMissionSession() returns (budget: int, resumeFirst: bool)
    ensures budget == 500 && resumeFirst
  {
    var app := new AppState();
    app.OnInput(CursorMoved(OnLabel("new mission")));
    app.OnInput(Pressed(Mouse(Left)));
    app.OnInput(Released(Mouse(Left)));
    ClickNewMissionAtStart();
    app.OnInput(CursorMoved(OnLabel("hard")));
    app.OnInput(Pressed(Mouse(Left)));
    app.OnInput(Released(Mouse(Left)));
    ClickHardInNewMissionMenu(Some(0));
    app.OnInput(Released(Keyboard(Escape)));
    EscapeInMissionReopensMenu(500);
    budget := if app.missionState.Some? && app.missionState.value.Planning? then app.missionState.value.budget else 0;
    resumeFirst := app.menuState.Some? && |app.menuState.value.buttons| > 0
                   && app.menuState.value.buttons[0].text == "resume";
  }
}
