/**
  The mission screen: a two-state placeholder.  Its handlers receive the
  mission by mutable reference in the Rust program but never write it, so they
  are modelled as functions that only choose the event to hand back; the
  mission value itself is left as it was by construction.
*/
module Mission {
  import opened Events

  /** Planning carries the remaining budget; Execution has no data yet. */
  datatype MissionState = Planning(budget: int) | Execution

  /** Cursor motion never produces an event in a mission. */
  function Hover(m: MissionState): (r: Option<AppEvent>)
    ensures r == None
  {
    None
  }

  /** A button going down is only logged (the log is not modelled); no event. */
  function Press(m: MissionState, b: Button): (r: Option<AppEvent>)
    ensures r == None
  {
    None
  }

  /** Releasing Escape asks for the menu; every other release is ignored. */
  function Release(m: MissionState, b: Button): (r: Option<AppEvent>)
    ensures r == Some(OpenMenu) <==> b == Keyboard(Escape)
    ensures r != Some(OpenMenu) ==> r == None
  {
    match b
    case Keyboard(Escape) => Some(OpenMenu)
    case _ => None
  }

  /** The per-tick update is a pass-through. */
  function Update(m: MissionState): (r: Option<AppEvent>)
    ensures r == None
  {
    None
  }
}
