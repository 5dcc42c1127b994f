# Event routing of the Mars menu application, in Dafny

This project models the interaction core of a small Rust menu/simulation
application. It covers three pieces:

- **The menu screen** (`Menu`, menu.dfy). `MenuState` holds the shown submenu
  and its ordered buttons. It also holds a `hovered` index and a `pressing`
  index for the two-phase click.
  - `Hover` hit-tests every button, sets each button's flag and plays a tap
    sound for each newly hovered button.
  - `Press` arms the click at the hovered index.
  - `Release` commits an entry of the submenu transition table only when
    the armed index equals the hovered one. Escape goes back one level.
- **The mission screen** (`Mission`, mission.dfy). A two-state placeholder:
  `Planning(budget)` or `Execution`. Its handlers only choose an event; the
  only one is `OpenMenu`, on an Escape release.
- **The application state** (`App`, app.dfy). It holds an optional menu, an
  optional mission and the window's close flag.
  - Input goes to the menu whenever there is one, otherwise to the mission,
    otherwise nowhere. Escape key-down is swallowed.
  - Events handed back by a screen are applied by `Handle`.
  - `OnInput` is one turn of the event loop: route the input, then handle
    the event.

Shared types (`Option`, `MissionDifficulty`, `AppEvent`, the input `Button`)
are in events.dfy.

Each mutable entity is a class whose methods are proved to perform a
value-level step function: `Menu.HoverStep`, `Menu.PressStep`,
`Menu.ReleaseStep`, `App.HandleStep`, `App.Route` and `App.Step`. The
properties of the source are lemmas about those functions. The main ones are:

- the transition table agrees with the button labels;
- the tap-sound log is exact;
- every step keeps the buttons those of the shown submenu;
- an invariant holds after any sequence of inputs (`App.Reachable`): a screen
  is always present, a mission never leaves `Planning`, its budget is 1000,
  750 or 500, and a menu shows the buttons of its (sub)menu, with "resume"
  heading the main menu exactly when a mission exists (submenus have no
  "resume").

The code does not reset `hovered` when it replaces the button list (menu.rs
lines 213-222, 230-231 and 244-245). A committed click has already cleared
`pressing` (line 206) before its swap, but the Escape swap (lines 244-245)
leaves `pressing` armed. The model follows the code.
`Menu.StaleHoverCommitsUnseenButton` shows the consequence: after "new
mission" is clicked with a resumable mission, `hovered` is still 1. A second
click without moving the cursor then starts a Medium mission, although no
button is shown hovered. For the same reason, `hovered < |buttons|` is not an
invariant of the menu. It holds right after `Hover` (`Menu.HoverSetsFlags`).
`Menu.EscapeKeepsArmed` shows the Escape case: press "easy", release Escape,
release the left button, and main-menu index 0 ("resume" with a mission)
commits.

## Model

| member | source | states |
|---|---|---|
| `Menu.MainMenu` | src/menu.rs:98-113 | the main menu has 5 buttons "resume, new mission, load mission, options, exit" when a mission can be resumed and the same 4 without "resume" otherwise, stacked 50 apart from y = 0, none hovered |
| `Menu.NewMissionMenu` | src/menu.rs:115-126 | the new-mission submenu is "easy, medium, hard, back", the first three 50 apart and "back" at 200, none hovered |
| `Menu.MenuState.MainMenuButtons` | src/menu.rs:98-113 | building the list by pushing with a running y gives exactly the main-menu layout |
| `Menu.MenuState.NewMissionMenuButtons` | src/menu.rs:115-126 | building the list by pushing with a running y (with the extra 50 before "back") gives exactly the new-mission layout |
| `Menu.MenuState.LoadMissionMenuButtons` | src/menu.rs:128-132 | the load-mission submenu has no buttons |
| `Menu.MenuState.OptionsMenuButtons` | src/menu.rs:134-138 | the options submenu has no buttons |
| `Menu.MenuState.constructor` | src/menu.rs:140-148 | a new menu is at the main menu with its layout, with `hovered` and `pressing` unset and no tap played |
| `Menu.InitialWellFormed` | src/menu.rs:140-148 | a new menu shows exactly its layout, with both indices unset |
| `Menu.LastHitIsLast` | src/menu.rs:179-190 | `LastHit`, the hovered index after a scan, is the last hit button; it is None exactly when no button is hit |
| `Menu.TapsExactly` | src/menu.rs:180-186 | `Taps`, the tap log of a hover pass, holds exactly the hit buttons whose index differs from the previously hovered one, each once, in increasing order |
| `Menu.TapsAtMostOne` | src/menu.rs:181-185 | when only one index can tap, the pass taps it once or not at all |
| `Menu.NothingHitIsSilent` | src/menu.rs:180-189 | no tap is played when no button is hit |
| `Menu.SingleHitTaps` | src/menu.rs:181-185 | with one button hit, one tap plays if it was not the hovered one, and none if it was |
| `Menu.SecondHoverIsSilent` | src/menu.rs:175-192 | hovering again at the same cursor plays nothing when labels do not overlap |
| `Menu.HoverSetsFlags` | src/menu.rs:175-192 | after hover each flag equals its hit result and `hovered` is the last hit index (in range) or None; texts, positions, submenu, pressing and the active-mission flag are unchanged |
| `Menu.MenuState.Hover` | src/menu.rs:174-193 | the hover loop performs `HoverStep` (flags rewritten by the hit test, `hovered := LastHit`), appends the `Taps` indices to the tap log and hands back no event |
| `Menu.PressArms` | src/menu.rs:196-199 | `PressStep` sets `pressing` to `hovered` and changes nothing else |
| `Menu.MenuState.Press` | src/menu.rs:195-200 | press performs `PressStep` for any button and hands back no event |
| `Menu.CommittedFollowsLabels` | src/menu.rs:209-238 | the transition table `Committed` agrees with the labels: a committed index on a shown button does what its label says (resume, open a submenu, exit, a difficulty, back); an index past the shown buttons does nothing |
| `Menu.ReleaseFrame` | src/menu.rs:203-251 | `ReleaseStep` never changes the active-mission flag or `hovered`; a left release always disarms; a left release with the armed index unset or not hovered only disarms; Escape in a submenu rebuilds the main menu with no event; Escape at the main menu hands back `ResumeMission` and changes nothing; a release that is neither left nor Escape changes nothing |
| `Menu.ClickCommits` | src/menu.rs:204-211 | press then left release over the same hovered button commits that index's table entry |
| `Menu.MovedAwayCancels` | src/menu.rs:205-207 | press over one button, move so another or none is hovered, release: nothing commits and no event |
| `Menu.EscapeBackThenResume` | src/menu.rs:242-249 | Escape in a submenu returns to the main menu rebuilt with the active-mission flag and no event; a second Escape asks to resume and changes nothing |
| `Menu.HoverKeepsWellFormed` | src/menu.rs:180-189 | hovering changes only the flags, so the buttons stay those of the shown (sub)menu |
| `Menu.StepsKeepWellFormed` | src/menu.rs:202-252 | hover, press and release keep the buttons those of the shown (sub)menu, up to hover flags |
| `Menu.StaleHoverCommitsUnseenButton` | src/menu.rs:212-215 | opening the new-mission submenu keeps `hovered` at 1, so a second click without moving starts a Medium mission although no button is flagged hovered |
| `Menu.EscapeKeepsArmed` | src/menu.rs:242-249 | Escape in a submenu swaps in the main menu but leaves `pressing` armed, so a following left release commits the main-menu entry at the pressed index (with a mission, index 0 resumes) |
| `Menu.MenuState.Release` | src/menu.rs:202-253 | release performs `ReleaseStep`: the table `Committed` (src/menu.rs:209-238) on a committed left click, back or resume on Escape, nothing otherwise |
| `Mission.Hover` | src/mission.rs:34-36 | cursor motion hands back no event |
| `Mission.Press` | src/mission.rs:40-43 | a button going down hands back no event |
| `Mission.Release` | src/mission.rs:47-53 | a release hands back `OpenMenu` exactly for Escape and nothing otherwise |
| `Mission.Update` | src/mission.rs:77-79 | the tick hands back no event |
| `App.InitialAppFacts` | src/app.rs:42-48 | at start-up the menu is the main menu without a resumable mission, there is no mission, and the invariant holds |
| `App.AppState.constructor` | src/app.rs:42-48 | a new application state shows the start-up view, and its start-up menu has played no tap |
| `App.HandleEffects` | src/app.rs:50-66 | `HandleStep`: Exit only sets the close flag; OpenMenu installs a fresh main menu seeded with whether a mission exists; ResumeMission clears the menu if and only if a mission exists; NewMission(d) replaces the mission with `Planning(Budget(d))` and clears the menu |
| `App.BudgetValues` | src/app.rs:57-61 | `Budget`: Easy, Medium and Hard start with 1000, 750 and 500 |
| `App.HandleKeepsInv` | src/app.rs:50-66 | every event keeps the invariant; none leaves the application without a screen |
| `App.AppState.Handle` | src/app.rs:50-66 | handling an event performs `HandleStep`; OpenMenu installs a fresh menu that has played no tap, and every other event keeps the menu object or removes it |
| `App.RoutingPriority` | src/app.rs:74-106 | `Route`: a present menu receives hover, press and release whatever the mission; without a menu the mission receives them; with neither they are dropped; routing never changes the mission or the close flag |
| `App.EscapePressSwallowed` | src/app.rs:85-88 | Escape key-down reaches no screen and changes nothing |
| `App.AppState.Hover` | src/app.rs:74-82 | hover routing performs `HoverStep` and keeps the menu's tap log exact |
| `App.AppState.Press` | src/app.rs:84-96 | press routing performs `PressStep`, keeps the menu object and plays no tap |
| `App.AppState.Release` | src/app.rs:98-106 | release routing performs `ReleaseStep`, keeps the menu object and plays no tap |
| `App.RouteKeepsInv` | src/app.rs:74-106 | routing an input keeps the invariant |
| `App.StepKeepsInv` | src/main.rs:87-100 | `Step`, one turn (route, then handle the event), keeps the invariant |
| `App.RunKeepsInv` | src/main.rs:75-107 | `Run`, any sequence of turns, keeps the invariant |
| `App.Reachable` | src/app.rs:42-66 | after any inputs from start-up a screen is present, a mission is `Planning` with budget 1000, 750 or 500 (never `Execution`), and a menu is seeded with whether a mission exists and shows the buttons of its (sub)menu, so "resume" heads the main menu exactly when a mission exists |
| `App.AppState.OnInput` | src/main.rs:87-100 | one turn of the event loop performs `Step`; a menu present before and after the turn is the same object (only OpenMenu replaces it, and a menu never emits OpenMenu); a menu kept through the turn taps exactly `Taps` on a cursor move and nothing on a press or release; a menu opened by the turn has played nothing |
| `App.HoverOnLabel` | src/menu.rs:179-190 | a cursor on a label shown once hovers exactly that index |
| `App.ClickNewMissionAtStart` | src/menu.rs:212-215 | at start-up, hovering and clicking "new mission" opens the new-mission submenu with its four buttons, `hovered` left at 0 |
| `App.ClickHardInNewMissionMenu` | src/app.rs:55-64 | clicking "hard" in the new-mission submenu starts a mission with budget 500 and closes the menu |
| `App.EscapeInMissionReopensMenu` | src/mission.rs:48-49 | releasing Escape in a mission reopens the main menu, now headed by "resume" |
| `App.HardMissionSession` | src/main.rs:87-100 | the start-up scenario driven through the objects ends with budget 500 and a menu headed by "resume" |

## Left out

- Rendering (every `Render` impl). It only draws and changes no state.
- The hit-test geometry and font metrics of `contains_point` (src/menu.rs:45-52). Hit-testing is an oracle `HitTest` from a button's text and offset to a boolean, for the current cursor and window size.
- Floating point: button offsets are `real`; the f32 budgets are `int`, as they are whole numbers.
- Audio playback (src/sounds.rs). Each tap is recorded in the ghost log `MenuState.taps` as the index of the button hovered.
- The diagnostic `println!` lines (src/menu.rs:236, src/mission.rs:41). Options-menu clicks are modelled as no-ops.
- Asset loading (src/fonts.rs, src/images.rs, src/colors.rs), the window, resizing (src/main.rs:79-85), render ticks and frame timing. The window is reduced to its close flag.
- The event loop itself. Only one turn is modelled (`OnInput`), and `Run` folds it over a sequence of inputs.
- `Mission.Update`: it is modelled but never routed, because `AppState` has no `Update` impl and the loop never calls it.
- Controller and hat buttons are folded into one `Controller(code)` case. Keys other than Escape and mouse buttons other than the left one are not distinguished.
- The `&mut self` mission handlers are pure functions, because they never write the mission.
