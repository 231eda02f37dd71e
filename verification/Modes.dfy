/** The modes in which media is delivered. */
module Modes {
  import opened Options

  const ORIGINAL := "original"
  const BLUR_FACES := "blur_faces"
  const BLUR := "blur"
  const DENY := "deny"

  /** How much a mode hides; None for words that are no mode. */
  function Strictness(mode: string): Option<nat> {
    if mode == ORIGINAL then Some(0)
    else if mode == BLUR_FACES then Some(1)
    else if mode == BLUR then Some(2)
    else if mode == DENY then Some(3)
    else None
  }

  predicate IsMode(mode: string) { Strictness(mode).Some? }

  function Level(mode: string): nat
    requires IsMode(mode)
  {
    Strictness(mode).value
  }

  /** What the policy says of a request: how to deliver, what belongs to it, and whether only a part is shown. */
  datatype Decision = Decision(managed: bool, mode: string, source: string, isVideo: bool, cropped: bool)
}
