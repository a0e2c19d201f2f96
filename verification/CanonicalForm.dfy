/** The canonical text of a value, as the text it must be rather than as it is written, and reading its quoted
    strings back as section 7 of RFC 8259 reads them. */
module CanonicalForm {
  import opened Prelude
  import opened Keys
  import opened Definition
  import opened Reading
  import opened Positions
  import opened Identity

  // --- Quoted strings -----------------------------------------------------------------------------

  function HexValue(c: char): Option<nat> {
    if '0' <= c <= '9' then Some(c as int - '0' as int)
    else if 'a' <= c <= 'f' then Some(c as int - 'a' as int + 10)
    else if 'A' <= c <= 'F' then Some(c as int - 'A' as int + 10)
    else None
  }

  /** The character two hexadecimal digits name. */
  function HexPair(high: char, low: char): Option<char> {
    var h :- HexValue(high);
    var l :- HexValue(low);
    Some((16 * h + l) as char)
  }

  /** What a backslash and the character behind it stand for. */
  function Unescape(c: char): Option<char> {
    match c
    case '\"' => Some('\"')
    case '\\' => Some('\\')
    case '/' => Some('/')
    case 'b' => Some(8 as char)
    case 'f' => Some(12 as char)
    case 'n' => Some(10 as char)
    case 'r' => Some(13 as char)
    case 't' => Some(9 as char)
    case _ => None
  }

  /** Reads what is between two quotes: no bare quote, backslash or control character. */
  function Unescaped(s: string): Option<string> {
    if s == "" then Some("")
    else if s[0] == '\"' || s[0] as int < 0x20 then None
    else if s[0] != '\\' then
      var rest :- Unescaped(s[1..]);
      Some([s[0]] + rest)
    else if |s| >= 6 && s[1..4] == "u00" then
      var c :- HexPair(s[4], s[5]);
      var rest :- Unescaped(s[6..]);
      Some([c] + rest)
    else if |s| >= 2 then
      var c :- Unescape(s[1]);
      var rest :- Unescaped(s[2..]);
      Some([c] + rest)
    else None
  }

  lemma EscapeReads(c: char, rest: string)
    ensures Unescaped(Escape(c) + rest) == match Unescaped(rest) case Some(text) => Some([c] + text) case None => None
  {
    var s := Escape(c) + rest;
    if ShortEscape(c).Some? {
      ShortReads(c);
      assert s[0] == '\\' && s[1] == ShortEscape(c).value && s[2..] == rest;
      assert s[1] != 'u';
      assert |s| >= 6 ==> s[1..4][0] != 'u';
    } else if c as int < 0x20 {
      HexReads(c);
      assert Escape(c) == ['\\', 'u', '0', '0', HexDigit(c as int / 16), HexDigit(c as int % 16)];
      assert s[1..4] == "u00" && s[6..] == rest;
    } else {
      assert s == [c] + rest && s[1..] == rest;
    }
  }

  lemma ShortReads(c: char)
    ensures ShortEscape(c).Some? ==> Unescape(ShortEscape(c).value) == Some(c)
  {
  }

  lemma HexReads(c: char)
    requires c as int < 0x20
    ensures HexPair(HexDigit(c as int / 16), HexDigit(c as int % 16)) == Some(c)
  {
    HexDigitReads(c as int / 16);
    HexDigitReads(c as int % 16);
  }

  lemma HexDigitReads(n: nat)
    requires n < 16
    ensures HexValue(HexDigit(n)) == Some(n)
  {
    if n < 10 {
      LowHex(n);
    } else {
      HighHex(n);
    }
  }

  lemma LowHex(n: nat)
    requires n < 10
    ensures HexDigit(n) == ('0' as int + n) as char
  {
    match n
    case 0 => case 1 => case 2 => case 3 => case 4 => case 5 => case 6 => case 7 => case 8 => case 9 =>
  }

  lemma HighHex(n: nat)
    requires 10 <= n < 16
    ensures HexDigit(n) == ('a' as int + n - 10) as char
  {
    match n
    case 10 => case 11 => case 12 => case 13 => case 14 => case 15 =>
  }

  lemma NothingReads()
    ensures Unescaped("") == Some("")
  {
  }

  /** Every text is read back from what it is escaped to. */
  lemma {:induction false} EscapedReadsBack(text: string)
    ensures Unescaped(Escaped(text)) == Some(text)
  {
    hide Escape, Unescaped;
    if text == "" {
      NothingReads();
    } else {
      EscapedReadsBack(text[1..]);
      EscapeReads(text[0], Escaped(text[1..]));
      assert text == [text[0]] + text[1..];
    }
  }

  // --- Canonical texts ----------------------------------------------------------------------------

  /** A string between quotes that reads back as this text, no character of it escaped that need not be. */
  predicate QuotedText(s: string, text: string) {
    && |s| >= 2 && s[0] == '\"' && s[|s| - 1] == '\"' && Unescaped(s[1..|s| - 1]) == Some(text)
    && s == Quoted(text)
  }

  /** A member: its quoted key, a colon, its value. */
  function Entry(key: string, piece: string): string {
    Quoted(key) + ":" + piece
  }

  function Entries(keys: seq<string>, pieces: seq<string>): seq<string>
    requires |keys| == |pieces|
  {
    seq(|keys|, i requires 0 <= i < |keys| => Entry(keys[i], pieces[i]))
  }

  /** `text` is the canonical form of `value`: words for booleans, the observed text of numbers, quoted texts,
      elements in order, members in the order of their keys. */
  ghost predicate Spells(doors: Doors, value: Json, text: string)
    decreases value
  {
    match value
    case Null => false
    case Bool(truth) => text == if truth then "true" else "false"
    case Num(number) => NumericText(doors, number) == Some(text)
    case Str(s) => QuotedText(text, s)
    case Arr(elements) =>
      exists pieces: seq<string> ::
        && |pieces| == |elements| && (forall i | 0 <= i < |elements| :: Spells(doors, elements[i], pieces[i]))
        && text == "[" + Joined(pieces, ',') + "]"
    case Obj(members) =>
      var keys := SortedKeys(members.Keys);
      exists pieces: seq<string> ::
        && |pieces| == |keys|
        && (forall i | 0 <= i < |keys| :: keys[i] in members && Spells(doors, members[keys[i]], pieces[i]))
        && text == "{" + Joined(Entries(keys, pieces), ',') + "}"
  }

  lemma QuotedReads(text: string)
    ensures QuotedText(Quoted(text), text)
  {
    var s := Quoted(text);
    assert s[1..|s| - 1] == Escaped(text);
    EscapedReadsBack(text);
  }

  /** The elements from here, each behind its comma, to the closing bracket. */
  function Listed(pieces: seq<string>, first: bool): string {
    if pieces == [] then "" else (if first then "" else ",") + Joined(pieces, ',')
  }

  lemma ListedStep(pieces: seq<string>, first: bool)
    requires pieces != []
    ensures Listed(pieces, first) == Comma(first) + pieces[0] + Listed(pieces[1..], false)
  {
    if |pieces| > 1 {
      assert Joined(pieces, ',') == pieces[0] + [','] + Joined(pieces[1..], ',');
      assert [','] + Joined(pieces[1..], ',') == "," + Joined(pieces[1..], ',');
    }
  }

  lemma {:induction false} ElementsSpell(doors: Doors, elements: seq<Json>, first: bool, pieces: seq<string>)
    requires |pieces| == |elements|
    requires forall i | 0 <= i < |elements| :: Canonical(doors, elements[i]) == Ok(pieces[i])
    ensures ElementsText(doors, elements, first) == Ok(Listed(pieces, first) + "]")
    decreases |elements|
  {
    hide Canonical, Listed;
    if elements != [] {
      assert Canonical(doors, elements[0]) == Ok(pieces[0]);
      forall i | 0 <= i < |elements| - 1
        ensures Canonical(doors, elements[1..][i]) == Ok(pieces[1..][i])
      {
        assert Canonical(doors, elements[i + 1]) == Ok(pieces[i + 1]);
      }
      ElementsSpell(doors, elements[1..], false, pieces[1..]);
      ElementsTextStep(doors, elements, first);
      ListedStep(pieces, first);
      assert Comma(first) + pieces[0] + (Listed(pieces[1..], false) + "]")
          == Comma(first) + pieces[0] + Listed(pieces[1..], false) + "]";
    } else {
      ListedNothing(first);
      assert pieces == [];
    }
  }

  lemma ListedNothing(first: bool)
    ensures Listed([], first) + "]" == "]" && Listed([], first) + "}" == "}"
  {
  }

  lemma {:induction false} ElementsPieces(doors: Doors, elements: seq<Json>, first: bool) returns (pieces: seq<string>)
    requires ElementsText(doors, elements, first).Ok?
    ensures |pieces| == |elements|
    ensures forall i | 0 <= i < |elements| :: Canonical(doors, elements[i]) == Ok(pieces[i])
    decreases |elements|
  {
    hide Canonical;
    pieces := [];
    if elements != [] {
      ElementsTextStep(doors, elements, first);
      var rest := ElementsPieces(doors, elements[1..], false);
      pieces := [Canonical(doors, elements[0]).value] + rest;
      assert forall i | 0 < i < |elements| :: elements[i] == elements[1..][i - 1] && pieces[i] == rest[i - 1];
    }
  }

  lemma {:induction false} MembersSpell(doors: Doors, value: Json, keys: seq<string>, first: bool, pieces: seq<string>)
    requires value.Obj? && (forall k | k in keys :: k in value.members) && |pieces| == |keys|
    requires forall i | 0 <= i < |keys| :: keys[i] in value.members && Canonical(doors, value.members[keys[i]]) == Ok(pieces[i])
    ensures MembersText(doors, value, keys, first) == Ok(Listed(Entries(keys, pieces), first) + "}")
    decreases |keys|
  {
    hide Canonical, Listed, Quoted, Entry;
    var entries := Entries(keys, pieces);
    if keys != [] {
      assert keys[0] in value.members && Canonical(doors, value.members[keys[0]]) == Ok(pieces[0]);
      forall i | 0 <= i < |keys| - 1
        ensures keys[1..][i] in value.members && Canonical(doors, value.members[keys[1..][i]]) == Ok(pieces[1..][i])
      {
        assert keys[i + 1] in value.members && Canonical(doors, value.members[keys[i + 1]]) == Ok(pieces[i + 1]);
      }
      MembersSpell(doors, value, keys[1..], false, pieces[1..]);
      assert entries[1..] == Entries(keys[1..], pieces[1..]);
      MembersTextStep(doors, value, keys, first);
      ListedStep(entries, first);
      EntryStep(first, keys[0], pieces[0], Listed(entries[1..], false));
    } else {
      ListedNothing(first);
      assert entries == [];
    }
  }

  lemma EntryStep(first: bool, key: string, piece: string, rest: string)
    ensures Comma(first) + Quoted(key) + ":" + piece + (rest + "}") == Comma(first) + Entry(key, piece) + rest + "}"
  {
    hide Quoted;
  }

  lemma {:induction false} MembersPieces(doors: Doors, value: Json, keys: seq<string>, first: bool)
    returns (pieces: seq<string>)
    requires value.Obj? && (forall k | k in keys :: k in value.members)
    requires MembersText(doors, value, keys, first).Ok?
    ensures |pieces| == |keys|
    ensures forall i | 0 <= i < |keys| :: keys[i] in value.members && Canonical(doors, value.members[keys[i]]) == Ok(pieces[i])
    decreases |keys|
  {
    hide Canonical, Quoted;
    pieces := [];
    if keys != [] {
      assert keys[0] in keys;
      MembersTextStep(doors, value, keys, first);
      var rest := MembersPieces(doors, value, keys[1..], false);
      pieces := [Canonical(doors, value.members[keys[0]]).value] + rest;
      assert forall i | 0 < i < |keys| :: keys[i] == keys[1..][i - 1] && pieces[i] == rest[i - 1];
    }
  }

  lemma PiecesSpell(doors: Doors, elements: seq<Json>, pieces: seq<string>)
    requires |pieces| == |elements|
    requires forall i | 0 <= i < |elements| :: Canonical(doors, elements[i]) == Ok(pieces[i])
    ensures Canonical(doors, Arr(elements)) == Ok("[" + Joined(pieces, ',') + "]")
  {
    hide ElementsText, Joined;
    ElementsSpell(doors, elements, true, pieces);
    OpensListed(pieces);
  }

  lemma OpensListed(pieces: seq<string>)
    ensures "[" + (Listed(pieces, true) + "]") == "[" + Joined(pieces, ',') + "]"
    ensures "{" + (Listed(pieces, true) + "}") == "{" + Joined(pieces, ',') + "}"
  {
  }

  lemma EntriesSpell(doors: Doors, members: Object, pieces: seq<string>)
    requires var keys := SortedKeys(members.Keys);
             && |pieces| == |keys|
             && forall i | 0 <= i < |keys| :: keys[i] in members && Canonical(doors, members[keys[i]]) == Ok(pieces[i])
    ensures Canonical(doors, Obj(members)) == Ok("{" + Joined(Entries(SortedKeys(members.Keys), pieces), ',') + "}")
  {
    hide MembersText, Joined, SortedKeys, Quoted, Entry;
    var keys := SortedKeys(members.Keys);
    MembersSpell(doors, Obj(members), keys, true, pieces);
    OpensListed(Entries(keys, pieces));
  }

  /** A value has exactly the canonical texts that spell it: one, or none. */
  lemma {:induction false} CanonicalMeans(doors: Doors, value: Json, text: string)
    ensures Canonical(doors, value) == Ok(text) <==> Spells(doors, value, text)
    decreases value, 1
  {
    hide ElementsText, MembersText, SortedKeys, NumericText;
    match value
    case Str(s) => QuotedReads(s);
    case Arr(elements) =>
      if Canonical(doors, value) == Ok(text) {
        CanonicalSpellsList(doors, elements, text);
      }
      if Spells(doors, value, text) {
        SpellsCanonicalList(doors, elements, text);
      }
    case Obj(members) =>
      if Canonical(doors, value) == Ok(text) {
        CanonicalSpellsObject(doors, members, text);
      }
      if Spells(doors, value, text) {
        SpellsCanonicalObject(doors, members, text);
      }
    case _ =>
  }

  lemma {:induction false} CanonicalSpellsList(doors: Doors, elements: seq<Json>, text: string)
    requires Canonical(doors, Arr(elements)) == Ok(text)
    ensures Spells(doors, Arr(elements), text)
    decreases Arr(elements), 0
  {
    hide NumericText, MembersText, SortedKeys, Joined;
    var pieces := ElementsPieces(doors, elements, true);
    PiecesSpell(doors, elements, pieces);
    forall i | 0 <= i < |elements|
      ensures Spells(doors, elements[i], pieces[i])
    {
      CanonicalMeans(doors, elements[i], pieces[i]);
    }
  }

  lemma {:induction false} SpellsCanonicalList(doors: Doors, elements: seq<Json>, text: string)
    requires Spells(doors, Arr(elements), text)
    ensures Canonical(doors, Arr(elements)) == Ok(text)
    decreases Arr(elements), 0
  {
    hide NumericText, MembersText, SortedKeys, Joined;
    var pieces: seq<string> :|
      && |pieces| == |elements| && (forall i | 0 <= i < |elements| :: Spells(doors, elements[i], pieces[i]))
      && text == "[" + Joined(pieces, ',') + "]";
    forall i | 0 <= i < |elements|
      ensures Canonical(doors, elements[i]) == Ok(pieces[i])
    {
      CanonicalMeans(doors, elements[i], pieces[i]);
    }
    PiecesSpell(doors, elements, pieces);
  }

  lemma {:induction false} CanonicalSpellsObject(doors: Doors, members: Object, text: string)
    requires Canonical(doors, Obj(members)) == Ok(text)
    ensures Spells(doors, Obj(members), text)
    decreases Obj(members), 0
  {
    hide NumericText, ElementsText, SortedKeys, Joined, Entries;
    var keys := SortedKeys(members.Keys);
    var pieces := MembersPieces(doors, Obj(members), keys, true);
    EntriesSpell(doors, members, pieces);
    forall i | 0 <= i < |keys|
      ensures keys[i] in members && Spells(doors, members[keys[i]], pieces[i])
    {
      CanonicalMeans(doors, members[keys[i]], pieces[i]);
    }
  }

  lemma {:induction false} SpellsCanonicalObject(doors: Doors, members: Object, text: string)
    requires Spells(doors, Obj(members), text)
    ensures Canonical(doors, Obj(members)) == Ok(text)
    decreases Obj(members), 0
  {
    hide NumericText, ElementsText, SortedKeys, Joined, Entries;
    var keys := SortedKeys(members.Keys);
    var pieces: seq<string> :|
      && |pieces| == |keys|
      && (forall i | 0 <= i < |keys| :: keys[i] in members && Spells(doors, members[keys[i]], pieces[i]))
      && text == "{" + Joined(Entries(keys, pieces), ',') + "}";
    forall i | 0 <= i < |keys|
      ensures keys[i] in members && Canonical(doors, members[keys[i]]) == Ok(pieces[i])
    {
      CanonicalMeans(doors, members[keys[i]], pieces[i]);
    }
    EntriesSpell(doors, members, pieces);
  }

  /** The address of a value of a kind: a text behind `s:`, a number's observed text, a boolean's word, a list's
      or an object's canonical text; free JSON has none. */
  predicate IsAddress(doors: Doors, kind: Kind, value: Json, text: string) {
    match value
    case Str(s) => (kind.StringKind? || kind.EnumKind? || kind.RefKind?) && text == "s:" + s
    case Num(n) =>
      (kind.IntegerKind? || kind.NumberKind? || kind.Binary64Kind?) && NumericText(doors, n) == Some(text)
    case Bool(truth) => kind.BooleanKind? && text == if truth then "true" else "false"
    case Arr(_) => kind.ArrayKind? && Canonical(doors, value) == Ok(text)
    case Obj(_) => (kind.ObjectKind? || kind.MapKind? || kind.UnionKind?) && Canonical(doors, value) == Ok(text)
    case Null => false
  }

  lemma AddressMeans(doors: Doors, kind: Kind, value: Json, text: string)
    ensures Address(doors, kind, value) == Ok(text) <==> IsAddress(doors, kind, value, text)
  {
    hide Canonical, NumericText;
  }

  /** It has no canonical text exactly when a null or a number nobody can observe stands somewhere in it. */
  lemma {:induction false} Unspellable(doors: Doors, value: Json)
    ensures Canonical(doors, value).Err?
       <==> exists place :: Unwritten(doors, At(value, place))
  {
    hide Canonical, Unwritten;
    if Canonical(doors, value).Err? {
      var place := FailsThere(doors, value);
    }
    forall place | Unwritten(doors, At(value, place))
      ensures Canonical(doors, value).Err?
    {
      ThereFails(doors, value, place);
    }
  }

  predicate Unwritten(doors: Doors, value: Option<Json>) {
    match value
    case Some(Null) => true
    case Some(Num(n)) => NumericText(doors, n).None?
    case _ => false
  }

  lemma {:induction false} FailsThere(doors: Doors, value: Json) returns (place: Place)
    requires Canonical(doors, value).Err?
    ensures Unwritten(doors, At(value, place))
    decreases value
  {
    hide NumericText, Quoted, SortedKeys;
    match value
    case Arr(elements) =>
      var i := FailingElement(doors, elements, true);
      var rest := FailsThere(doors, elements[i]);
      place := [Element(i)] + rest;
      AtBelow(value, Element(i), rest);
    case Obj(members) =>
      var k := FailingMember(doors, value, SortedKeys(members.Keys), true);
      var rest := FailsThere(doors, members[k]);
      place := [Member(k)] + rest;
      AtBelow(value, Member(k), rest);
    case _ => place := [];
  }

  lemma {:induction false} FailingElement(doors: Doors, elements: seq<Json>, first: bool) returns (i: nat)
    requires ElementsText(doors, elements, first).Err?
    ensures i < |elements| && Canonical(doors, elements[i]).Err?
    decreases |elements|
  {
    hide Canonical;
    ElementsTextStep(doors, elements, first);
    if Canonical(doors, elements[0]).Err? {
      i := 0;
    } else {
      i := FailingElement(doors, elements[1..], false);
      i := i + 1;
    }
  }

  lemma {:induction false} FailingMember(doors: Doors, value: Json, keys: seq<string>, first: bool) returns (k: string)
    requires value.Obj? && (forall k | k in keys :: k in value.members)
    requires MembersText(doors, value, keys, first).Err?
    ensures k in value.members && Canonical(doors, value.members[k]).Err?
    decreases |keys|
  {
    hide Canonical, Quoted;
    MembersTextStep(doors, value, keys, first);
    if Canonical(doors, value.members[keys[0]]).Err? {
      k := keys[0];
    } else {
      k := FailingMember(doors, value, keys[1..], false);
    }
  }

  lemma {:induction false} ThereFails(doors: Doors, value: Json, place: Place)
    requires Unwritten(doors, At(value, place))
    ensures Canonical(doors, value).Err?
    decreases |place|
  {
    hide NumericText, Quoted, SortedKeys;
    if place != [] {
      var rest := place[1..];
      assert place == [place[0]] + rest;
      AtBelow(value, place[0], rest);
      ThereFails(doors, Below(value, place[0]).value, rest);
      match value
      case Arr(elements) =>
        if Canonical(doors, value).Ok? {
          var pieces := ElementsPieces(doors, elements, true);
        }
      case Obj(members) =>
        if Canonical(doors, value).Ok? {
          var keys := SortedKeys(members.Keys);
          var pieces := MembersPieces(doors, value, keys, true);
          assert place[0].key in keys;
        }
      case _ =>
    }
  }
}
