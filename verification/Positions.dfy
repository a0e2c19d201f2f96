/** Places inside a value: the way down to a node through list elements and mapping members. */
module Positions {
  import opened Prelude
  import opened Definition

  datatype Step = Element(index: nat) | Member(key: string)

  type Place = seq<Step>

  /** One step down, where there is one. */
  function Below(value: Json, step: Step): Option<Json> {
    match step
    case Element(index) =>
      if value.Arr? && index < |value.elements| then Some(value.elements[index]) else None
    case Member(key) => if value.Obj? && key in value.members then Some(value.members[key]) else None
  }

  /** The node at a position. */
  function At(value: Json, position: Place): Option<Json> {
    if position == [] then Some(value) else
    var next :- Below(value, position[0]);
    At(next, position[1..])
  }

  lemma AtBelow(value: Json, step: Step, rest: Place)
    ensures At(value, [step] + rest) == (match Below(value, step) case Some(next) => At(next, rest) case None => None)
  {
    assert ([step] + rest)[1..] == rest;
  }
}
