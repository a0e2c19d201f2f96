/** Walking from a quantifier's element with its declaration says what walking without it says, and
    adds only the lengths of declared texts. */
module Binders {
  import opened Prelude
  import opened Definition
  import opened Reading
  import opened Paths
  import opened Values

  function TypedWalk(value: Json, path: seq<string>, field: Field, checked: bool): Option<Json>
    requires path != []
  {
    Walk(value, path, Some(field), checked, true, FromBinder)
  }

  function UntypedWalk(value: Json, path: seq<string>): Option<Json>
    requires path != []
  {
    Walk(value, path, None, false, true, FromBinder)
  }

  /** What is held where a path's last segment is taken from. */
  function Held(value: Json, path: seq<string>): Option<Json>
    requires path != []
  {
    if |path| == 1 then Some(value) else UntypedWalk(value, path[..|path| - 1])
  }

  /** The answer is how long the text at the path's prefix is. */
  predicate IsTextLength(value: Json, path: seq<string>, answer: Option<Json>)
    requires path != []
  {
    && path[|path| - 1] == "count"
    && Held(value, path).Some? && Held(value, path).value.Str?
    && answer == Some(CountOf(|Held(value, path).value.text|))
  }

  lemma {:induction false} UndeclaredIgnoresCheck(value: Json, path: seq<string>, checked: bool)
    requires path != []
    ensures Walk(value, path, None, checked, true, FromBinder) == UntypedWalk(value, path)
    decreases |path|
  {
    hide CountOf, IndexOf;
    if CollectionAddress(value, None, path[0]).Some? {
      if |path| > 1 {
        UndeclaredIgnoresCheck(CollectionAddress(value, None, path[0]).value.0, path[1..], checked);
      }
    } else if value.Obj? && path[0] in value.members && |path| > 1 {
      UndeclaredIgnoresCheck(value.members[path[0]], path[1..], checked);
    }
  }

  /** The value one untyped step reaches. */
  function Step(value: Json, segment: string): Option<Json> {
    if CollectionAddress(value, None, segment).Some?
    then Some(CollectionAddress(value, None, segment).value.0)
    else if value.Obj? && segment in value.members then Some(value.members[segment])
    else None
  }

  lemma UntypedStep(value: Json, path: seq<string>)
    requires path != []
    ensures UntypedWalk(value, path)
         == if Step(value, path[0]).None? || |path| == 1 then Step(value, path[0])
            else UntypedWalk(Step(value, path[0]).value, path[1..])
  {
    hide CountOf, IndexOf;
  }

  lemma HeldStep(value: Json, path: seq<string>)
    requires |path| > 1 && Step(value, path[0]).Some?
    ensures Held(value, path) == Held(Step(value, path[0]).value, path[1..])
  {
    hide CollectionAddress, Walk;
    var before := path[..|path| - 1];
    UntypedStep(value, before);
    if |path| > 2 {
      assert path[1..][..|path| - 2] == before[1..];
    }
  }

  lemma LengthPassesOn(value: Json, path: seq<string>, answer: Option<Json>)
    requires |path| > 1 && Step(value, path[0]).Some?
    requires IsTextLength(Step(value, path[0]).value, path[1..], answer)
    ensures IsTextLength(value, path, answer)
  {
    hide Step, CountOf;
    HeldStep(value, path);
  }

  /** Where one typed step leads: the same value, under a declaration it conforms to or none. */
  function NextDeclaration(value: Json, field: Field, segment: string): Option<Field> {
    if field.kind.MapKind? then None
    else if CollectionAddress(value, Some(field), segment).Some?
    then CollectionAddress(value, Some(field), segment).value.1
    else if value.Obj? then NextField(Some(field), value.members, segment)
    else None
  }

  predicate StillChecked(field: Field, value: Json, checked: bool) {
    checked && (value.Arr? || !field.kind.UnionKind?)
  }

  lemma TypedStep(doors: Doors, value: Json, path: seq<string>, field: Field, checked: bool)
    requires path != [] && Conforms(doors, field, value, true) && FieldDeclared(doors, field, true)
    requires !(checked && field.kind.StringKind?) && !field.kind.MapKind?
    ensures var next := Step(value, path[0]);
            TypedWalk(value, path, field, checked) ==
              if next.None? || |path| == 1 then next
              else Walk(next.value, path[1..], NextDeclaration(value, field, path[0]),
                        StillChecked(field, value, checked), true, FromBinder)
  {
    hide CountOf, IndexOf, NumberFits, LengthFits, Blank, FieldDeclared;
    assert field.kind.JsonKind? ==> field.items.None? by {
      JsonDeclaresNothing(doors, field);
    }
  }

  lemma JsonDeclaresNothing(doors: Doors, field: Field)
    requires FieldDeclared(doors, field, true)
    ensures field.kind.JsonKind? ==> field.items.None?
  {
  }

  lemma StepConforms(doors: Doors, value: Json, field: Field, segment: string)
    requires Conforms(doors, field, value, true) && FieldDeclared(doors, field, true)
    requires Step(value, segment).Some? && NextDeclaration(value, field, segment).Some?
    ensures Conforms(doors, NextDeclaration(value, field, segment).value, Step(value, segment).value, true)
    ensures FieldDeclared(doors, NextDeclaration(value, field, segment).value, true)
  {
    hide CountOf, IndexOf, NumberFits, LengthFits, Blank;
  }

  /** For every declaration, conforming value and path, the typed walk is the untyped one, except
      where that finds nothing and the typed one answers the length of a text held at the prefix. */
  lemma {:induction false} BinderWalkRefines(doors: Doors, value: Json, path: seq<string>, field: Field,
                                             checked: bool)
    requires path != [] && Conforms(doors, field, value, true) && FieldDeclared(doors, field, true)
    ensures || TypedWalk(value, path, field, checked) == UntypedWalk(value, path)
            || (&& checked && UntypedWalk(value, path).None?
                && IsTextLength(value, path, TypedWalk(value, path, field, checked)))
    decreases |path|
  {
    hide Conforms, FieldDeclared, NextDeclaration, Step, CollectionAddress, CountOf;
    if field.kind.MapKind? {
      MapIsUndeclared(value, path, field, checked);
    } else if checked && field.kind.StringKind? {
      TextHasLength(doors, value, path, field);
    } else {
      TypedStep(doors, value, path, field, checked);
      UntypedStep(value, path);
      var next := Step(value, path[0]);
      if next.Some? && |path| > 1 {
        var declared := NextDeclaration(value, field, path[0]);
        if declared.None? {
          UndeclaredIgnoresCheck(next.value, path[1..], StillChecked(field, value, checked));
        } else {
          StepConforms(doors, value, field, path[0]);
          BinderWalkRefines(doors, next.value, path[1..], declared.value, StillChecked(field, value, checked));
          if TypedWalk(value, path, field, checked) != UntypedWalk(value, path) {
            LengthPassesOn(value, path, TypedWalk(value, path, field, checked));
          }
        }
      }
    }
  }

  lemma MapIsUndeclared(value: Json, path: seq<string>, field: Field, checked: bool)
    requires path != [] && field.kind.MapKind?
    ensures TypedWalk(value, path, field, checked) == UntypedWalk(value, path)
  {
    hide CountOf, IndexOf;
    UndeclaredIgnoresCheck(value, path, checked);
  }

  lemma TextHasLength(doors: Doors, value: Json, path: seq<string>, field: Field)
    requires path != [] && field.kind.StringKind? && Conforms(doors, field, value, true)
    ensures UntypedWalk(value, path).None?
    ensures TypedWalk(value, path, field, true).None? || IsTextLength(value, path, TypedWalk(value, path, field, true))
  {
    hide CountOf, IndexOf, LengthFits;
  }
}
