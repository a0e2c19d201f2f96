/** Where an instance is stored: the address of a logical identity value, and why two values share
    one only when they are one. Strings are quoted as in section 7 of RFC 8259. */
module Identity {
  import opened Prelude
  import opened Keys
  import opened Digits
  import opened Number
  import opened Sum
  import opened Observed
  import opened Definition
  import opened Reading

  datatype AddressError =
    | KindNotAddressable(kind: Kind)
    | ValueNotOfKind(kind: Kind)
    | NumberOutsideSourceDomain(token: string)
    | NullInComposite

  // --- Quoting ------------------------------------------------------------------------------------

  function HexDigit(n: nat): char
    requires n < 16
  {
    "0123456789abcdef"[n]
  }

  /** The letter of a two-character escape, where the character has one. */
  function ShortEscape(c: char): Option<char> {
    match c as int
    case 0x22 => Some('\"')
    case 0x5C => Some('\\')
    case 0x08 => Some('b')
    case 0x0C => Some('f')
    case 0x0A => Some('n')
    case 0x0D => Some('r')
    case 0x09 => Some('t')
    case _ => None
  }

  /** A quote, a backslash and every control character are escaped; all else is written as it is. */
  function Escape(c: char): (s: string)
    ensures s != [] && s[0] != '\"'
  {
    if ShortEscape(c).Some? then ['\\', ShortEscape(c).value]
    else if c as int < 0x20 then "\\u00" + [HexDigit(c as int / 16), HexDigit(c as int % 16)]
    else [c]
  }

  function Escaped(text: string): string {
    if text == [] then "" else Escape(text[0]) + Escaped(text[1..])
  }

  function Quoted(text: string): string {
    "\"" + Escaped(text) + "\""
  }

  lemma HexInjective(m: nat, n: nat)
    requires m < 16 && n < 16 && HexDigit(m) == HexDigit(n)
    ensures m == n
  {
  }

  lemma {:induction false} ControlEscapes(c: char, d: char)
    requires c as int < 0x20 && d as int < 0x20
    requires HexDigit(c as int / 16) == HexDigit(d as int / 16)
    requires HexDigit(c as int % 16) == HexDigit(d as int % 16)
    ensures c == d
  {
    HexInjective(c as int / 16, d as int / 16);
    HexInjective(c as int % 16, d as int % 16);
    assert c as int == d as int;
  }

  /** The form of an escape shows in its first two characters. */
  lemma EscapeForm(c: char)
    ensures if ShortEscape(c).Some? then Escape(c) == ['\\', ShortEscape(c).value]
            else if c as int < 0x20 then
              && |Escape(c)| == 6 && Escape(c)[0] == '\\' && Escape(c)[1] == 'u'
              && Escape(c)[4] == HexDigit(c as int / 16) && Escape(c)[5] == HexDigit(c as int % 16)
            else Escape(c) == [c] && c != '\\'
    ensures ShortEscape(c) != Some('u')
  {
  }

  lemma ShortEscapeInjective(c: char, d: char)
    requires ShortEscape(c).Some? && ShortEscape(c) == ShortEscape(d)
    ensures c == d
  {
    assert c as int == d as int;
  }

  /** No escape begins another. */
  lemma EscapePrefixFree(c: char, x: string, d: char, y: string)
    requires Escape(c) + x == Escape(d) + y
    ensures c == d && x == y
  {
    hide Escape, ShortEscape, HexDigit;
    EscapeForm(c);
    EscapeForm(d);
    var s, t := Escape(c) + x, Escape(d) + y;
    assert s[0] == Escape(c)[0] && t[0] == Escape(d)[0];
    if c as int >= 0x20 && ShortEscape(c).None? {
      assert d as int >= 0x20 && ShortEscape(d).None?;
    } else {
      assert s[1] == Escape(c)[1] && t[1] == Escape(d)[1];
      if ShortEscape(c).Some? {
        ShortEscapeInjective(c, d);
      } else {
        assert s[4] == Escape(c)[4] && t[4] == Escape(d)[4];
        assert s[5] == Escape(c)[5] && t[5] == Escape(d)[5];
        ControlEscapes(c, d);
      }
    }
    assert s[|Escape(c)|..] == x && t[|Escape(d)|..] == y;
  }

  lemma EscapedHead(text: string, x: string)
    ensures var s := Escaped(text) + "\"" + x;
            s != [] && (s[0] == '\"' <==> text == [])
  {
    if text != [] {
      assert (Escaped(text) + "\"" + x)[0] == Escape(text[0])[0];
    }
  }

  /** A quoted text is read back, and so is whatever follows it. */
  lemma {:induction false} EscapedDecodes(a: string, x: string, b: string, y: string)
    requires Escaped(a) + "\"" + x == Escaped(b) + "\"" + y
    ensures a == b && x == y
  {
    var s, t := Escaped(a) + "\"" + x, Escaped(b) + "\"" + y;
    EscapedHead(a, x);
    EscapedHead(b, y);
    hide Escape;
    if a == [] {
      assert s[1..] == x && t[1..] == y;
    } else {
      var p, q := Escaped(a[1..]) + "\"" + x, Escaped(b[1..]) + "\"" + y;
      assert s == Escape(a[0]) + p && t == Escape(b[0]) + q;
      EscapePrefixFree(a[0], p, b[0], q);
      EscapedDecodes(a[1..], x, b[1..], y);
      assert a == [a[0]] + a[1..] && b == [b[0]] + b[1..];
    }
  }

  lemma QuotedDecodes(a: string, x: string, b: string, y: string)
    requires Quoted(a) + x == Quoted(b) + y
    ensures a == b && x == y
  {
    hide Escaped;
    var s, t := Quoted(a) + x, Quoted(b) + y;
    assert s[1..] == Escaped(a) + "\"" + x && t[1..] == Escaped(b) + "\"" + y;
    EscapedDecodes(a, x, b, y);
  }

  // --- Canonical text -----------------------------------------------------------------------------

  function CanonicalNumber(doors: Doors, n: Number): Result<string, AddressError> {
    match NumericText(doors, n)
    case Some(text) => Ok(text)
    case None => Err(NumberOutsideSourceDomain(n))
  }

  /** Objects by sorted key, lists in index order, text quoted, numbers by their observed text. */
  function Canonical(doors: Doors, value: Json): Result<string, AddressError>
    decreases value, 1
  {
    match value
    case Null => Err(NullInComposite)
    case Bool(truth) => Ok(if truth then "true" else "false")
    case Num(number) => CanonicalNumber(doors, number)
    case Str(text) => Ok(Quoted(text))
    case Arr(elements) =>
      var rest :- ElementsText(doors, elements, true);
      Ok("[" + rest)
    case Obj(members) =>
      var rest :- MembersText(doors, value, SortedKeys(members.Keys), true);
      Ok("{" + rest)
  }

  function Comma(first: bool): string {
    if first then "" else ","
  }

  /** The elements from here to the closing bracket. */
  function ElementsText(doors: Doors, elements: seq<Json>, first: bool): Result<string, AddressError>
    decreases elements, 0
  {
    if elements == [] then Ok("]") else
      var element :- Canonical(doors, elements[0]);
      var rest :- ElementsText(doors, elements[1..], false);
      Ok(Comma(first) + element + rest)
  }

  /** The members from here to the closing brace. */
  function MembersText(doors: Doors, value: Json, keys: seq<string>, first: bool): Result<string, AddressError>
    requires value.Obj? && forall k | k in keys :: k in value.members
    decreases value, 0, |keys|
  {
    if keys == [] then Ok("}") else
      var member :- Canonical(doors, value.members[keys[0]]);
      var rest :- MembersText(doors, value, keys[1..], false);
      Ok(Comma(first) + Quoted(keys[0]) + ":" + member + rest)
  }

  function Address(doors: Doors, kind: Kind, value: Json): Result<string, AddressError> {
    match kind
    case StringKind => TextAddress(kind, value)
    case EnumKind => TextAddress(kind, value)
    case RefKind => TextAddress(kind, value)
    case IntegerKind => NumberAddress(doors, kind, value)
    case NumberKind => NumberAddress(doors, kind, value)
    case Binary64Kind => NumberAddress(doors, kind, value)
    case BooleanKind => if value.Bool? then Ok(if value.truth then "true" else "false") else Err(ValueNotOfKind(kind))
    case ArrayKind => if value.Arr? then Canonical(doors, value) else Err(ValueNotOfKind(kind))
    case JsonKind => Err(KindNotAddressable(kind))
    case _ => if value.Obj? then Canonical(doors, value) else Err(ValueNotOfKind(kind))
  }

  function TextAddress(kind: Kind, value: Json): Result<string, AddressError> {
    if value.Str? then Ok("s:" + value.text) else Err(ValueNotOfKind(kind))
  }

  function NumberAddress(doors: Doors, kind: Kind, value: Json): Result<string, AddressError> {
    if value.Num? then CanonicalNumber(doors, value.number) else Err(ValueNotOfKind(kind))
  }

  // --- Writing it ---------------------------------------------------------------------------------

  class Text {
    var text: string

    constructor ()
      ensures text == ""
    {
      text := "";
    }

    method Push(more: string)
      modifies this
      ensures text == old(text) + more
    {
      text := text + more;
    }
  }

  /** `more` was appended, or the error was met. */
  ghost predicate Wrote(expected: Result<string, AddressError>, r: Option<AddressError>, before: string, after: string) {
    if expected.Ok? then r == None && after == before + expected.value else r == Some(expected.error)
  }

  method WriteCanonical(doors: Doors, value: Json, out: Text) returns (r: Option<AddressError>)
    modifies out
    ensures Wrote(Canonical(doors, value), r, old(out.text), out.text)
    decreases value, 1
  {
    hide MembersText, ElementsText, NumericText;
    match value
    case Null => r := Some(NullInComposite);
    case Bool(truth) =>
      out.Push(if truth then "true" else "false");
      r := None;
    case Num(number) =>
      var text := NumericText(doors, number);
      if text.None? {
        return Some(NumberOutsideSourceDomain(number));
      }
      out.Push(text.value);
      r := None;
    case Str(text) =>
      out.Push(Quoted(text));
      r := None;
    case Arr(elements) =>
      ghost var before := out.text;
      out.Push("[");
      r := WriteElements(doors, elements, out);
      assert forall t :: before + "[" + t == before + ("[" + t);
    case Obj(members) =>
      ghost var before := out.text;
      out.Push("{");
      r := WriteMembers(doors, value, out);
      assert forall t :: before + "{" + t == before + ("{" + t);
  }

  /** `rest` still to be written after `written`. */
  function Appended(written: string, rest: Result<string, AddressError>): Result<string, AddressError> {
    if rest.Ok? then Ok(written + rest.value) else rest
  }

  lemma AppendedTwice(a: string, b: string, rest: Result<string, AddressError>)
    ensures Appended(a, Appended(b, rest)) == Appended(a + b, rest)
  {
    if rest.Ok? {
      assert a + (b + rest.value) == a + b + rest.value;
    }
  }

  lemma ElementsTextStep(doors: Doors, elements: seq<Json>, first: bool)
    requires elements != []
    ensures var element := Canonical(doors, elements[0]);
            ElementsText(doors, elements, first) ==
              if element.Err? then element
              else Appended(Comma(first) + element.value, ElementsText(doors, elements[1..], false))
  {
    hide Canonical;
  }

  method WriteElements(doors: Doors, elements: seq<Json>, out: Text) returns (r: Option<AddressError>)
    modifies out
    ensures Wrote(ElementsText(doors, elements, true), r, old(out.text), out.text)
    decreases elements, 0
  {
    hide Canonical, ElementsText, Appended, Comma;
    ghost var before, written := out.text, "";
    ghost var whole := ElementsText(doors, elements, true);
    AppendedNothing(whole);
    for i := 0 to |elements|
      invariant out.text == before + written
      invariant whole == Appended(written, ElementsText(doors, elements[i..], i == 0))
    {
      ElementsTextStep(doors, elements[i..], i == 0);
      assert elements[i..][0] == elements[i] && elements[i..][1..] == elements[i + 1..];
      if i > 0 {
        out.Push(",");
      }
      CommaText(i == 0);
      r := WriteCanonical(doors, elements[i], out);
      if r.Some? {
        AppendedError(written, Canonical(doors, elements[i]));
        return;
      }
      ghost var more := Comma(i == 0) + Canonical(doors, elements[i]).value;
      AppendedTwice(written, more, ElementsText(doors, elements[i + 1..], false));
      assert out.text == before + (written + more);
      written := written + more;
    }
    assert elements[|elements|..] == [];
    ElementsTextEnd(doors, written);
    out.Push("]");
    assert out.text == before + (written + "]");
    r := None;
  }

  lemma CommaText(first: bool)
    ensures Comma(first) == if first then "" else ","
  {
  }

  lemma AppendedNothing(rest: Result<string, AddressError>)
    ensures Appended("", rest) == rest
  {
    if rest.Ok? {
      assert "" + rest.value == rest.value;
    }
  }

  lemma AppendedError(written: string, rest: Result<string, AddressError>)
    ensures rest.Err? ==> Appended(written, rest) == rest
  {
  }

  lemma ElementsTextEnd(doors: Doors, written: string)
    ensures forall first :: Appended(written, ElementsText(doors, [], first)) == Ok(written + "]")
  {
  }

  function MemberText(doors: Doors, value: Json, key: string, first: bool): Result<string, AddressError>
    requires value.Obj? && key in value.members
    decreases value, 0, 0
  {
    Appended(Comma(first) + Quoted(key) + ":", Canonical(doors, value.members[key]))
  }

  /** The first `i` members have been written. */
  ghost predicate MembersWritten(doors: Doors, value: Json, keys: seq<string>, i: nat, written: string) {
    && value.Obj? && (forall k | k in keys :: k in value.members) && i <= |keys|
    && MembersText(doors, value, keys, true) == Appended(written, MembersText(doors, value, keys[i..], i == 0))
  }

  lemma MembersStart(doors: Doors, value: Json, keys: seq<string>)
    requires value.Obj? && forall k | k in keys :: k in value.members
    ensures MembersWritten(doors, value, keys, 0, "")
  {
    hide MembersText, Appended;
    assert keys[0..] == keys;
    AppendedNothing(MembersText(doors, value, keys, true));
  }

  lemma MembersTextStep(doors: Doors, value: Json, keys: seq<string>, first: bool)
    requires value.Obj? && keys != [] && forall k | k in keys :: k in value.members
    ensures var member := MemberText(doors, value, keys[0], first);
            MembersText(doors, value, keys, first) ==
              if member.Err? then member else Appended(member.value, MembersText(doors, value, keys[1..], false))
  {
    hide Canonical, Quoted;
  }

  lemma MembersAdvance(doors: Doors, value: Json, keys: seq<string>, i: nat, written: string)
    requires MembersWritten(doors, value, keys, i, written) && i < |keys|
    ensures var member := MemberText(doors, value, keys[i], i == 0);
            if member.Err? then MembersText(doors, value, keys, true) == member
            else MembersWritten(doors, value, keys, i + 1, written + member.value)
  {
    hide MembersText, MemberText, Appended;
    MembersTextStep(doors, value, keys[i..], i == 0);
    assert keys[i..][1..] == keys[i + 1..];
    var member := MemberText(doors, value, keys[i], i == 0);
    AppendedError(written, member);
    if member.Ok? {
      AppendedTwice(written, member.value, MembersText(doors, value, keys[i + 1..], false));
    }
  }

  lemma MembersDone(doors: Doors, value: Json, keys: seq<string>, written: string)
    requires MembersWritten(doors, value, keys, |keys|, written)
    ensures MembersText(doors, value, keys, true) == Ok(written + "}")
  {
    assert keys[|keys|..] == [];
  }

  method WriteMembers(doors: Doors, value: Json, out: Text) returns (r: Option<AddressError>)
    requires value.Obj?
    modifies out
    ensures Wrote(MembersText(doors, value, SortedKeys(value.members.Keys), true), r, old(out.text), out.text)
    decreases value, 0, 1
  {
    hide MembersWritten, MembersText, MemberText, Canonical, SortedKeys;
    var keys := SortedKeys(value.members.Keys);
    ghost var before, written := out.text, "";
    MembersStart(doors, value, keys);
    for i := 0 to |keys|
      invariant out.text == before + written
      invariant MembersWritten(doors, value, keys, i, written)
    {
      assert keys[i] in keys;
      MembersAdvance(doors, value, keys, i, written);
      ghost var member := MemberText(doors, value, keys[i], i == 0);
      r := WriteMember(doors, value, keys[i], i == 0, out);
      if r.Some? {
        return;
      }
      assert out.text == before + (written + member.value);
      written := written + member.value;
    }
    MembersDone(doors, value, keys, written);
    out.Push("}");
    assert out.text == before + (written + "}");
    r := None;
  }

  method WriteMember(doors: Doors, value: Json, key: string, first: bool, out: Text)
    returns (r: Option<AddressError>)
    requires value.Obj? && key in value.members
    modifies out
    ensures Wrote(MemberText(doors, value, key, first), r, old(out.text), out.text)
    decreases value, 0, 0
  {
    hide Canonical, Quoted;
    ghost var before := out.text;
    if !first {
      out.Push(",");
    }
    out.Push(Quoted(key));
    out.Push(":");
    assert out.text == before + (Comma(first) + Quoted(key) + ":");
    r := WriteCanonical(doors, value.members[key], out);
    if r.None? {
      ghost var t := Canonical(doors, value.members[key]).value;
      assert out.text == before + (Comma(first) + Quoted(key) + ":" + t);
    }
  }
}
