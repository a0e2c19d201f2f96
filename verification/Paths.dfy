/** References and the paths behind them: how `$fields.order.lines.0.price` reaches a value. */
module Paths {
  import opened Prelude
  import opened Digits
  import opened Number
  import opened Sum
  import opened Definition

  datatype Root = IdRoot | EntityRoot | VersionRoot | FromStateRoot | StateRoot | ToStateRoot
                | ArgsRoot | FieldsRoot | OldFieldsRoot

  /** What a `$` text names once cut at its points; the path is absent for a bare root. */
  datatype Reference = Reference(root: Root, path: Option<seq<string>>) | NoReference

  /** Whether a text is a reference: it begins with one `$`. */
  predicate IsReference(s: string) {
    s != [] && s[0] == '$' && !IsEscaped(s)
  }

  /** `$$…` is the literal text after the first `$`. */
  predicate IsEscaped(s: string) {
    |s| >= 2 && s[0] == '$' && s[1] == '$'
  }

  function IsDot(): char -> bool {
    c => c == '.'
  }

  /** The name between the `$` and the first point. */
  function Head(s: string): string
    requires s != []
  {
    match SplitOnce(s[1..], IsDot())
    case Some((head, _)) => head
    case None => s[1..]
  }

  /** The segments after the first point, where there is one. */
  function Tail(s: string): (path: Option<seq<string>>)
    requires s != []
    ensures path.Some? ==> path.value != []
  {
    match SplitOnce(s[1..], IsDot())
    case Some((_, rest)) => Some(Split(rest, '.'))
    case None => None
  }

  function RootNamed(name: string): Option<Root> {
    if name == "id" then Some(IdRoot)
    else if name == "entity" then Some(EntityRoot)
    else if name == "version" then Some(VersionRoot)
    else if name == "from_state" then Some(FromStateRoot)
    else if name == "state" then Some(StateRoot)
    else if name == "to_state" then Some(ToStateRoot)
    else if name == "args" then Some(ArgsRoot)
    else if name == "fields" then Some(FieldsRoot)
    else if name == "old_fields" then Some(OldFieldsRoot)
    else None
  }

  /** Only arguments and fields have paths into them. */
  predicate HasMembers(root: Root) {
    root.ArgsRoot? || root.FieldsRoot? || root.OldFieldsRoot?
  }

  function ReferenceOf(s: string): (r: Reference)
    requires s != []
    ensures r.Reference? && r.path.Some? ==> r.path.value != []
  {
    match RootNamed(Head(s))
    case None => NoReference
    case Some(root) =>
      if Tail(s).Some? && !HasMembers(root) then NoReference else Reference(root, Tail(s))
  }

  // --- Values -------------------------------------------------------------------------------------

  /** A count or an integer as the number text it is written as. */
  function IntegerNumber(n: int): (number: Number)
    ensures IsInteger(number) && IntegerValue(number) == n
  {
    var ds := DigitsOf(NatText(AbsInt(n)));
    PlainRead(n < 0, ds, []);
    IntegerPlain(n < 0, ds);
    Plain(n < 0, ds, [])
  }

  lemma IntegerPlain(negative: bool, ds: seq<Digit>)
    requires ds != []
    ensures var s := Plain(negative, ds, []);
            IsInteger(s) && IntegerValue(s) == SignedInt(negative, Nat(ds))
  {
    var s := Plain(negative, ds, []);
    assert IsDigit(TextOf(ds)[0]);
    assert s == (if negative then "-" else "") + TextOf(ds);
    UnsignedPart(negative, TextOf(ds));
  }

  lemma UnsignedPart(negative: bool, digits: string)
    requires digits != [] && AllDigits(digits) && IsDigit(digits[0])
    ensures var s := (if negative then "-" else "") + digits;
            && IsInteger(s) && Negative(s) == negative
            && (if s != [] && IsSign(s[0]) then s[1..] else s) == digits
  {
  }

  function CountOf(n: nat): Json {
    Num(IntegerNumber(n))
  }

  /** An element index: `0`, or a number text without a leading zero (a leading `+` is read). */
  function IndexOf(segment: string): Option<nat> {
    var digits := if segment != [] && segment[0] == '+' then segment[1..] else segment;
    if segment != "0" && segment != [] && segment[0] == '0' then None
    else if digits == [] || !AllDigits(digits) then None
    else Some(Nat(DigitsOf(digits)))
  }

  /** Where a walk started, which decides how it reads a declared map. */
  datatype Start = FromRoot | FromBinder

  /** The key a union's payload is carried under, derived from its tag. */
  function ContentKey(field: Field): string {
    if field.tag == Some("value") then "content" else "value"
  }

  function TagKey(field: Field): string {
    if field.tag.Some? then field.tag.value else "kind"
  }

  /** The variant a union value's tag selects, where `segment` is the content key. */
  function SelectedVariant(field: Field, members: Object, segment: string): Option<Field> {
    var tag := TagKey(field);
    if segment == ContentKey(field) && tag in members && members[tag].Str?
       && members[tag].text in field.variants
    then Some(field.variants[members[tag].text])
    else None
  }

  /** The two collection address forms, with the declaration the walk continues under. */
  function CollectionAddress(value: Json, field: Option<Field>, segment: string)
    : Option<(Json, Option<Field>)>
  {
    var untyped := field.None? || field.value.kind.ArrayKind? || field.value.kind.JsonKind?;
    if value.Obj? && field.Some? && field.value.kind.MapKind? && segment == "count"
    then Some((CountOf(|value.members|), None))
    else if value.Arr? && untyped && segment == "count"
    then Some((CountOf(|value.elements|), None))
    else if value.Arr? && untyped then
      var index :- IndexOf(segment);
      if index < |value.elements|
      then Some((value.elements[index], if field.Some? then field.value.items else None))
      else None
    else None
  }

  /** Under a binder a declared map is walked as the untyped object it was always read as. */
  function Declaration(field: Option<Field>, start: Start): Option<Field> {
    if field.Some? && start.FromBinder? && field.value.kind.MapKind? then None else field
  }

  function NextField(field: Option<Field>, members: Object, segment: string): Option<Field> {
    if field.None? then None
    else if field.value.kind.ObjectKind? then
      (if segment in field.value.properties.fields then Some(field.value.properties.fields[segment]) else None)
    else if field.value.kind.UnionKind? then SelectedVariant(field.value, members, segment)
    else None
  }

  /** Walks a path from one value, with the declaration it came from where there is one. */
  function Walk(value: Json, path: seq<string>, declared: Option<Field>, checked: bool, service: bool,
                start: Start): Option<Json>
    requires path != []
    decreases |path|
  {
    var segment := path[0];
    var field := Declaration(declared, start);
    if service && checked && field.Some? && field.value.kind.StringKind? then
      if value.Str? && |path| == 1 && segment == "count" then Some(CountOf(|value.text|)) else None
    else if service && CollectionAddress(value, field, segment).Some? then
      var (next, nextField) := CollectionAddress(value, field, segment).value;
      if |path| == 1 then Some(next) else Walk(next, path[1..], nextField, checked, service, start)
    else if service && field.Some? && (field.value.kind.MapKind? || field.value.kind.ArrayKind?) then None
    else if !value.Obj? || segment !in value.members then None
    else
      var next := value.members[segment];
      var stillChecked := checked && !(field.Some? && field.value.kind.UnionKind?);
      if |path| == 1 then Some(next)
      else Walk(next, path[1..], NextField(field, value.members, segment), stillChecked, service, start)
  }

  /** Resolves one path into a root map. */
  function LookUp(root: Object, path: seq<string>, schema: Option<Schema>, service: bool): Option<Json>
    requires path != []
  {
    var first := path[0];
    if first == [] || first !in root then None
    else if |path| == 1 then Some(root[first])
    else
      var field := if schema.Some? && first in schema.value.fields
                   then Some(schema.value.fields[first]) else None;
      Walk(root[first], path[1..], field, field.Some?, service, FromRoot)
  }

  /** Without the service rules no declaration is consulted. */
  lemma {:induction false} PlainWalk(value: Json, path: seq<string>, d: Option<Field>, c: bool,
                                     e: Option<Field>, k: bool, start: Start)
    requires path != []
    ensures Walk(value, path, d, c, false, start) == Walk(value, path, e, k, false, start)
    decreases |path|
  {
    if value.Obj? && path[0] in value.members && |path| > 1 {
      var f, g := Declaration(d, start), Declaration(e, start);
      PlainWalk(value.members[path[0]], path[1..],
                NextField(f, value.members, path[0]), c && !(f.Some? && f.value.kind.UnionKind?),
                NextField(g, value.members, path[0]), k && !(g.Some? && g.value.kind.UnionKind?), start);
    }
  }

  lemma PlainLookUp(root: Object, path: seq<string>, a: Option<Schema>, b: Option<Schema>)
    requires path != []
    ensures LookUp(root, path, a, false) == LookUp(root, path, b, false)
  {
    if path[0] in root && |path| > 1 {
      var f := if a.Some? && path[0] in a.value.fields then Some(a.value.fields[path[0]]) else None;
      var g := if b.Some? && path[0] in b.value.fields then Some(b.value.fields[path[0]]) else None;
      PlainWalk(root[path[0]], path[1..], f, f.Some?, g, g.Some?, FromRoot);
    }
  }
}
