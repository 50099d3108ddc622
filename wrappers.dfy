/** Optional values and error results shared by the model. */
module Wrappers {

  datatype Option<+T> = None | Some(value: T)

  /** The failures the modelled Python code raises.
      InvalidEnumValue: the `[...][0]` of a lookup that matched nothing.
      NoTalkingPoints: `min` of an empty list of talking-point orders.
      NoSuchCharacter: a parsed name that is no non-player character.
      EmptyExpansion: `parent.children[0]` after an expansion that added nothing.
      EmptyResult: `search()[0]` on an empty ranking.
      EmptyRollout: `outputs[0]` when a rollout round sampled nothing. */
  datatype Error =
    | InvalidEnumValue
    | NoTalkingPoints
    | NoSuchCharacter
    | EmptyExpansion
    | EmptyResult
    | EmptyRollout

  datatype Result<+T> = Ok(value: T) | Err(error: Error)

  datatype Outcome = Pass | Fail(error: Error)
}
