/** What a walk reaches: a chain of single steps, each to an element, a member, or a size. */
module Walks {
  import opened Prelude
  import opened Digits
  import opened Definition
  import opened Number
  import opened Paths
  import Sum

  // --- Indexes ------------------------------------------------------------------------------------

  /** Digits without a leading zero are the usual spelling of what they spell. */
  lemma UsualSpelling(s: string)
    requires s != [] && AllDigits(s) && (s[0] == '0' ==> s == "0")
    ensures s == NatText(Nat(DigitsOf(s)))
  {
    if s == "0" {
      ZeroIsWritten();
    } else {
      var t := NatText(Nat(DigitsOf(s)));
      NatPositive(DigitsOf(s));
      ZeroIsWritten();
      NatInjective(DigitsOf(s), DigitsOf(t));
      SameDigits(s, t);
    }
  }

  lemma ZeroIsWritten()
    ensures Nat(DigitsOf("0")) == 0
  {
    assert DigitsOf("0") == [0] && [0][..0] == [];
  }

  lemma SameDigits(s: string, t: string)
    requires AllDigits(s) && AllDigits(t) && DigitsOf(s) == DigitsOf(t)
    ensures s == t
  {
    forall i | 0 <= i < |s|
      ensures s[i] == t[i]
    {
      assert DigitsOf(s)[i] == DigitsOf(t)[i];
      assert s[i] as int == t[i] as int;
    }
  }

  /** A segment names an index by its usual spelling, or by digits behind a plus. */
  predicate NamesIndex(segment: string, i: nat) {
    || segment == NatText(i)
    || (segment != "" && segment[0] == '+' && segment[1..] != "" && AllDigits(segment[1..])
        && Nat(DigitsOf(segment[1..])) == i)
  }

  lemma IndexMeans(segment: string, i: nat)
    ensures IndexOf(segment) == Some(i) <==> NamesIndex(segment, i)
  {
    hide NatText, Nat;
    if segment != "" && segment[0] != '+' && AllDigits(segment) && (segment[0] == '0' ==> segment == "0") {
      UsualSpelling(segment);
      assert Nat(DigitsOf(NatText(i))) == i;
    }
    assert IsDigit(NatText(i)[0]);
  }

  /** A size is written as the usual spelling of the count. */
  lemma CountIsWritten(n: nat)
    ensures IsNumber(NatText(n)) && CountOf(n) == Num(NatText(n))
  {
    hide NatText, IsNumber, TextOf;
    var ds := DigitsOf(NatText(n));
    assert IntegerNumber(n) == Sum.Plain(false, ds, []) == TextOf(ds);
    SameDigits(TextOf(ds), NatText(n));
  }

  // --- Steps --------------------------------------------------------------------------------------

  /** Where a walk is: a value, its declaration where it has one, and whether registration walked it. */
  datatype Node = Node(value: Json, field: Option<Field>, checked: bool)

  /** A size, under no declaration. */
  predicate IsSize(next: Node, n: nat) {
    IsNumber(NatText(n)) && next.value == Num(NatText(n)) && next.field == None
  }

  /** Nothing declares the value, or a list or free JSON does: its elements have addresses. */
  predicate OpenList(field: Option<Field>) {
    field.None? || field.value.kind.ArrayKind? || field.value.kind.JsonKind?
  }

  /** The length of a declared text is the last thing read of it. */
  predicate ToLength(here: Node, segment: string, last: bool, next: Node) {
    && last && segment == "count" && here.value.Str? && IsSize(next, |here.value.text|)
    && next.checked == here.checked
  }

  /** The size of a declared map or of a list, or the element at an index. */
  predicate ToCollection(here: Node, segment: string, next: Node) {
    && next.checked == here.checked
    && match here.value
       case Obj(members) =>
         here.field.Some? && here.field.value.kind.MapKind? && segment == "count" && IsSize(next, |members|)
       case Arr(elements) =>
         && OpenList(here.field)
         && (if segment == "count" then IsSize(next, |elements|)
             else exists i: nat :: i < |elements| && NamesIndex(segment, i) && next.value == elements[i]
                            && next.field == (if here.field.Some? then here.field.value.items else None))
       case _ => false
  }

  /** The payload of a union sits under `value`, or under `content` where the tag is `value`; what declares
      it is the variant the tag, `kind` by default, names. */
  predicate SelectsVariant(field: Field, members: Object, segment: string, variant: Option<Field>) {
    var tag := match field.tag case Some(name) => name case None => "kind";
    if segment == (if tag == "value" then "content" else "value")
       && tag in members && members[tag].Str? && members[tag].text in field.variants
    then variant == Some(field.variants[members[tag].text])
    else variant == None
  }

  /** A member of an object, under the declaration of that property or of the union's variant. */
  predicate ToMember(here: Node, segment: string, next: Node) {
    && here.value.Obj? && segment in here.value.members && next.value == here.value.members[segment]
    && next.checked == (here.checked && !(here.field.Some? && here.field.value.kind.UnionKind?))
    && match here.field
       case None => next.field == None
       case Some(field) =>
         if field.kind.ObjectKind? then
           next.field == (if segment in field.properties.fields then Some(field.properties.fields[segment]) else None)
         else if field.kind.UnionKind? then SelectsVariant(field, here.value.members, segment, next.field)
         else next.field == None
  }

  /** Under a binder a declared map is read as an undeclared object. */
  function Seen(here: Node, start: Start): Node {
    if start.FromBinder? && here.field.Some? && here.field.value.kind.MapKind? then here.(field := None) else here
  }

  predicate IsText(here: Node) {
    here.checked && here.field.Some? && here.field.value.kind.StringKind?
  }

  /** One step. Under the service rules a declared text has a length and nothing else, a declared map a size
      and nothing else, a list its size and elements; everything else has members, and without those rules
      everything has members only. */
  predicate Steps(from: Node, segment: string, last: bool, next: Node, service: bool, start: Start) {
    var here := Seen(from, start);
    if !service then ToMember(here, segment, next)
    else if IsText(here) then ToLength(here, segment, last, next)
    else if here.field.Some? && (here.field.value.kind.MapKind? || here.field.value.kind.ArrayKind?)
    then ToCollection(here, segment, next)
    else ToCollection(here, segment, next) || ToMember(here, segment, next)
  }

  predicate WalksAlong(chain: seq<Node>, path: seq<string>, service: bool, start: Start) {
    && |chain| == |path| + 1
    && forall i | 0 <= i < |path| :: Steps(chain[i], path[i], i == |path| - 1, chain[i + 1], service, start)
  }

  /** Some chain of steps along the path ends at this value. */
  ghost predicate Finds(from: Node, path: seq<string>, value: Json, service: bool, start: Start) {
    exists chain: seq<Node> :: WalksAlong(chain, path, service, start) && chain[0] == from && chain[|path|].value == value
  }

  // --- A walk is its steps ------------------------------------------------------------------------

  /** What one step of the walk reaches, and under what. */
  function StepOf(from: Node, segment: string, last: bool, service: bool, start: Start): Option<Node> {
    var field := Declaration(from.field, start);
    if service && from.checked && field.Some? && field.value.kind.StringKind? then
      if from.value.Str? && last && segment == "count"
      then Some(Node(CountOf(|from.value.text|), None, from.checked)) else None
    else if service && CollectionAddress(from.value, field, segment).Some? then
      var (next, nextField) := CollectionAddress(from.value, field, segment).value;
      Some(Node(next, nextField, from.checked))
    else if service && field.Some? && (field.value.kind.MapKind? || field.value.kind.ArrayKind?) then None
    else if !from.value.Obj? || segment !in from.value.members then None
    else Some(Node(from.value.members[segment], NextField(field, from.value.members, segment),
                   from.checked && !(field.Some? && field.value.kind.UnionKind?)))
  }

  lemma WalkSteps(from: Node, path: seq<string>, service: bool, start: Start)
    requires path != []
    ensures Walk(from.value, path, from.field, from.checked, service, start)
         == match StepOf(from, path[0], |path| == 1, service, start)
            case None => None
            case Some(next) =>
              if |path| == 1 then Some(next.value)
              else Walk(next.value, path[1..], next.field, next.checked, service, start)
  {
    hide CountOf, IndexOf;
  }

  lemma CollectionMeans(here: Node, segment: string, next: Node)
    ensures CollectionAddress(here.value, here.field, segment) == Some((next.value, next.field))
            && next.checked == here.checked
       <==> ToCollection(here, segment, next)
  {
    hide CountOf, IndexOf, NamesIndex, NatText, IsNumber;
    match here.value
    case Obj(members) =>
      CountIsWritten(|members|);
    case Arr(elements) =>
      CountIsWritten(|elements|);
      if segment != "count" {
        forall i: nat
          ensures IndexOf(segment) == Some(i) <==> NamesIndex(segment, i)
        {
          IndexMeans(segment, i);
        }
      }
    case _ =>
  }

  lemma MemberMeans(here: Node, segment: string, next: Node)
    ensures && here.value.Obj? && segment in here.value.members
            && next == Node(here.value.members[segment], NextField(here.field, here.value.members, segment),
                            here.checked && !(here.field.Some? && here.field.value.kind.UnionKind?))
       <==> ToMember(here, segment, next)
  {
  }

  lemma LengthMeans(here: Node, segment: string, last: bool, next: Node)
    ensures && here.value.Str? && last && segment == "count"
            && next == Node(CountOf(|here.value.text|), None, here.checked)
       <==> ToLength(here, segment, last, next)
  {
    hide CountOf, NatText, IsNumber;
    if here.value.Str? {
      CountIsWritten(|here.value.text|);
    }
  }

  lemma StepMeans(from: Node, segment: string, last: bool, next: Node, service: bool, start: Start)
    ensures StepOf(from, segment, last, service, start) == Some(next) <==> Steps(from, segment, last, next, service, start)
  {
    hide CollectionAddress, NextField, CountOf, ToCollection, ToMember, ToLength;
    var here := Seen(from, start);
    CollectionMeans(here, segment, next);
    MemberMeans(here, segment, next);
    LengthMeans(here, segment, last, next);
    NoCollection(here, segment);
    var field := Declaration(from.field, start);
    assert here.field == field && here.value == from.value && here.checked == from.checked;
    if service && IsText(here) {
    } else if service && CollectionAddress(here.value, field, segment).Some? {
      assert StepOf(from, segment, last, service, start)
          == Some(Node(CollectionAddress(here.value, field, segment).value.0,
                       CollectionAddress(here.value, field, segment).value.1, here.checked));
    } else {
      assert service ==> !ToCollection(here, segment, next);
    }
  }

  /** A value with members has no element and no size but a declared map's. */
  lemma NoCollection(here: Node, segment: string)
    ensures here.value.Obj? && CollectionAddress(here.value, here.field, segment).Some? ==>
              here.field.Some? && here.field.value.kind.MapKind?
  {
    hide CountOf, IndexOf;
  }

  lemma {:induction false} WalkFinds(from: Node, path: seq<string>, service: bool, start: Start) returns (chain: seq<Node>)
    requires path != [] && Walk(from.value, path, from.field, from.checked, service, start).Some?
    ensures WalksAlong(chain, path, service, start) && chain[0] == from
    ensures chain[|path|].value == Walk(from.value, path, from.field, from.checked, service, start).value
    decreases |path|
  {
    hide Walk, StepOf, Steps;
    WalkSteps(from, path, service, start);
    var next := StepOf(from, path[0], |path| == 1, service, start).value;
    StepMeans(from, path[0], |path| == 1, next, service, start);
    if |path| == 1 {
      chain := [from, next];
    } else {
      var rest := WalkFinds(next, path[1..], service, start);
      chain := [from] + rest;
      forall i | 0 <= i < |path|
        ensures Steps(chain[i], path[i], i == |path| - 1, chain[i + 1], service, start)
      {
        if i > 0 {
          assert path[i] == path[1..][i - 1] && chain[i] == rest[i - 1];
        }
      }
    }
  }

  lemma {:induction false} FindsByWalk(from: Node, path: seq<string>, service: bool, start: Start, chain: seq<Node>)
    requires path != [] && WalksAlong(chain, path, service, start) && chain[0] == from
    ensures Walk(from.value, path, from.field, from.checked, service, start) == Some(chain[|path|].value)
    decreases |path|
  {
    hide Walk, StepOf, Steps;
    WalkSteps(from, path, service, start);
    assert Steps(chain[0], path[0], 0 == |path| - 1, chain[1], service, start);
    StepMeans(from, path[0], |path| == 1, chain[1], service, start);
    if |path| > 1 {
      forall i | 0 <= i < |path| - 1
        ensures Steps(chain[1..][i], path[1..][i], i == |path| - 2, chain[1..][i + 1], service, start)
      {
        assert Steps(chain[i + 1], path[i + 1], i + 1 == |path| - 1, chain[i + 2], service, start);
      }
      FindsByWalk(chain[1], path[1..], service, start, chain[1..]);
    }
  }

  /** A walk answers exactly the value a chain of steps along its path ends at. */
  lemma WalkMeans(from: Node, path: seq<string>, value: Json, service: bool, start: Start)
    requires path != []
    ensures Walk(from.value, path, from.field, from.checked, service, start) == Some(value)
       <==> Finds(from, path, value, service, start)
  {
    hide Walk, Steps;
    if Walk(from.value, path, from.field, from.checked, service, start) == Some(value) {
      var chain := WalkFinds(from, path, service, start);
    }
    if Finds(from, path, value, service, start) {
      var chain: seq<Node> :| WalksAlong(chain, path, service, start) && chain[0] == from && chain[|path|].value == value;
      FindsByWalk(from, path, service, start, chain);
    }
  }

  /** In an untyped or declared list the usual spelling of `i` reaches element `i`, exactly where there is
      one, and `count` the number of elements. */
  lemma ElementReached(elements: seq<Json>, field: Option<Field>, checked: bool, start: Start, i: nat)
    requires OpenList(field)
    ensures Walk(Arr(elements), [NatText(i)], field, checked, true, start)
         == if i < |elements| then Some(elements[i]) else None
    ensures Walk(Arr(elements), ["count"], field, checked, true, start) == Some(CountOf(|elements|))
  {
    hide CountOf, IndexOf, NatText;
    IndexMeans(NatText(i), i);
    assert NatText(i) != "count" by {
      assert IsDigit(NatText(i)[0]);
    }
  }

  /** From a root a path starts at a member with a name and continues under that member's declaration. */
  ghost predicate FoundFrom(root: Object, path: seq<string>, schema: Option<Schema>, service: bool, value: Json)
    requires path != []
  {
    && path[0] != "" && path[0] in root
    && if |path| == 1 then value == root[path[0]]
       else
         var declared := schema.Some? && path[0] in schema.value.fields;
         Finds(Node(root[path[0]], if declared then Some(schema.value.fields[path[0]]) else None, declared),
               path[1..], value, service, FromRoot)
  }

  lemma LookUpMeans(root: Object, path: seq<string>, schema: Option<Schema>, service: bool, value: Json)
    requires path != []
    ensures LookUp(root, path, schema, service) == Some(value) <==> FoundFrom(root, path, schema, service, value)
  {
    hide Walk, Finds;
    if path[0] in root && |path| > 1 {
      var declared := schema.Some? && path[0] in schema.value.fields;
      var from := Node(root[path[0]], if declared then Some(schema.value.fields[path[0]]) else None, declared);
      WalkMeans(from, path[1..], value, service, FromRoot);
    }
  }
}
