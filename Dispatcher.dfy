/**
  The operator dispatcher: one operator character and its value character are
  turned into at most one apply call on the ship, and the dispatcher reports
  whether the value character was used.
 */
module Dispatcher {
  import opened Tables

  datatype Option<T> = None | Some(value: T)

  /**
    An apply call on the ship, one per Apply* method of the mod. What the
    call does to the ship's renderers and lights belongs to the host engine.
   */
  datatype Effect =
    | SailColor(color: Color)         // ApplySailColor
    | LightColor(color: Color)        // ApplyLightColor
    | RiggingColor(color: Color)      // ApplyRiggingColor
    | CustomFlag(texture: Texture)    // ApplyCustomFlag
    | SailTexture(texture: Texture)   // ApplySailTexture

  /** The five operator characters: sail, light and rigging colour, flag and sail texture. */
  const Operators: string := "SLRFD"

  /** The operator an apply call belongs to. */
  function OperatorOf(e: Effect): (op: char)
    ensures op in Operators
  {
    match e
    case SailColor(_) => 'S'
    case LightColor(_) => 'L'
    case RiggingColor(_) => 'R'
    case CustomFlag(_) => 'F'
    case SailTexture(_) => 'D'
  }

  /** The dispatcher's answer: whether the value was used, and the apply call made, if any. */
  datatype Outcome = Outcome(used: bool, applied: Option<Effect>)

  /** The colour operators read their value through the colour table, the others through the texture table. */
  predicate IsColorOperator(op: char)
  {
    op == 'S' || op == 'L' || op == 'R'
  }

  /** A recognised operator whose handling throws: the exception is caught and the value is not used. */
  const Faulted: Outcome := Outcome(false, None)

  /**
    Handles one operator. `fault` says that handling it throws (a texture
    file cannot be read, the engine fails while applying); the exception is
    caught and the dispatcher falls through to its unknown-operator answer.
   */
  function ProcessOperator(op: char, val: char, assets: set<string>, fault: bool): (r: Outcome)
    ensures r.used <==> op in Operators && !fault
    ensures r.applied.Some? ==> r.used && OperatorOf(r.applied.value) == op
    ensures op in Operators && !fault && IsColorOperator(op) ==>
      (r.applied.Some? <==> ProcessColor(val).found) &&
      (r.applied.Some? ==> r.applied.value.color == ProcessColor(val).color)
    ensures op in Operators && !fault && !IsColorOperator(op) ==>
      (r.applied.Some? <==> ProcessFlagTexture(val, assets).found) &&
      (r.applied.Some? ==> r.applied.value.texture == ProcessFlagTexture(val, assets).texture)
  {
    if op == 'S' then
      var c := ProcessColor(val);
      if fault then Faulted else Outcome(true, if c.found then Some(SailColor(c.color)) else None)
    else if op == 'L' then
      var c := ProcessColor(val);
      if fault then Faulted else Outcome(true, if c.found then Some(LightColor(c.color)) else None)
    else if op == 'R' then
      var c := ProcessColor(val);
      if fault then Faulted else Outcome(true, if c.found then Some(RiggingColor(c.color)) else None)
    else if op == 'F' then
      var t := ProcessFlagTexture(val, assets);
      if fault then Faulted else Outcome(true, if t.found then Some(CustomFlag(t.texture)) else None)
    else if op == 'D' then
      var t := ProcessFlagTexture(val, assets);
      if fault then Faulted else Outcome(true, if t.found then Some(SailTexture(t.texture)) else None)
    else
      Outcome(false, None)
  }

  /** The apply calls of one dispatch, as a sequence of zero or one calls. */
  function AppliedOf(r: Outcome): (es: seq<Effect>)
    ensures |es| <= 1
    ensures r.applied.None? <==> es == []
    ensures r.applied.Some? ==> es == [r.applied.value]
  {
    match r.applied
    case Some(e) => [e]
    case None => []
  }
}
