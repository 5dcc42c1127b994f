/**
  The shared vocabulary of the event-routing core: the optional-value wrapper,
  the application-level events that screens hand back to the application
  state, and the input buttons delivered by the windowing layer.
*/
module Events {

  datatype Option<T> = None | Some(value: T)

  /** How hard a new mission is; fixes its starting budget. */
  datatype MissionDifficulty = Easy | Medium | Hard

  /** Signals produced by a screen and applied only by the application state. */
  datatype AppEvent =
    | Exit
    | OpenMenu
    | ResumeMission
    | NewMission(difficulty: MissionDifficulty)

  /** Keyboard keys; only Escape is distinguished by the core. */
  datatype Key = Escape | OtherKey(code: nat)

  /** Mouse buttons; only the left button is distinguished by the core. */
  datatype MouseButton = Left | Right | Middle | OtherMouse(code: nat)

  /** A button as reported by the windowing layer on press and release. */
  datatype Button =
    | Keyboard(key: Key)
    | Mouse(mouse: MouseButton)
    | Controller(code: nat)
}
