/** The failure-carrying results, orderings and text primitives every other module reads. */
module Prelude {

  datatype Option<+T> = None | Some(value: T) {
    predicate IsFailure() {
      None?
    }

    function PropagateFailure<U>(): Option<U>
      requires None?
    {
      None
    }

    function Extract(): T
      requires Some?
    {
      value
    }
  }

  datatype Result<+T, +E> = Ok(value: T) | Err(error: E) {
    predicate IsFailure() {
      Err?
    }

    function PropagateFailure<U>(): Result<U, E>
      requires Err?
    {
      Err(error)
    }

    function Extract(): T
      requires Ok?
    {
      value
    }
  }

  /** What comparing two values of an ordered kind answers. */
  datatype Ordering = Less | Equal | Greater {
    function Reverse(): Ordering {
      match this
      case Less => Greater
      case Equal => Equal
      case Greater => Less
    }
  }

  function OrderInt(a: int, b: int): Ordering {
    if a < b then Less else if a == b then Equal else Greater
  }

  function OrderReal(a: real, b: real): Ordering {
    if a < b then Less else if a == b then Equal else Greater
  }

  const I64_MIN: int := -0x8000_0000_0000_0000
  const I64_MAX: int := 0x7fff_ffff_ffff_ffff
  const U32_MAX: int := 0xffff_ffff
  const U64_MAX: int := 0xffff_ffff_ffff_ffff
  const I128_MAX: int := 0x7fff_ffff_ffff_ffff_ffff_ffff_ffff_ffff
  const I128_MIN: int := -I128_MAX - 1

  predicate InI64(n: int) {
    I64_MIN <= n <= I64_MAX
  }

  /** The index of the first character of `s` that `p` accepts, or `|s|`. */
  function FirstIndex(s: string, p: char -> bool): (i: nat)
    ensures i <= |s|
  {
    if s == [] || p(s[0]) then 0 else 1 + FirstIndex(s[1..], p)
  }

  lemma {:induction false} FirstIndexIsFirst(s: string, p: char -> bool)
    ensures var i := FirstIndex(s, p);
            && (i < |s| ==> p(s[i]))
            && forall j | 0 <= j < i :: !p(s[j])
  {
    if s != [] && !p(s[0]) {
      FirstIndexIsFirst(s[1..], p);
      assert forall j | 1 <= j < FirstIndex(s, p) :: s[j] == s[1..][j - 1];
    }
  }

  /** The text before and after the first character `p` accepts. */
  function SplitOnce(s: string, p: char -> bool): Option<(string, string)> {
    var i := FirstIndex(s, p);
    if i < |s| then Some((s[..i], s[i + 1..])) else None
  }

  /** Splitting at the only accepted character between two texts recovers both. */
  lemma SplitOnceAt(a: string, c: char, b: string, p: char -> bool)
    requires p(c) && forall j | 0 <= j < |a| :: !p(a[j])
    ensures SplitOnce(a + [c] + b, p) == Some((a, b))
  {
    var s := a + [c] + b;
    var i := FirstIndex(s, p);
    FirstIndexIsFirst(s, p);
    assert s[|a|] == c;
    assert forall j | 0 <= j < |a| :: s[j] == a[j];
    assert i == |a|;
    assert s[..i] == a && s[i + 1..] == b;
  }

  /** A text with no accepted character is not split. */
  lemma SplitOnceNowhere(s: string, p: char -> bool)
    requires forall j | 0 <= j < |s| :: !p(s[j])
    ensures SplitOnce(s, p) == None
  {
    FirstIndexIsFirst(s, p);
  }

  /** The pieces of a text between every occurrence of `c`. */
  function Split(s: string, c: char): (pieces: seq<string>)
    ensures |pieces| >= 1
    decreases |s|
  {
    var i := FirstIndex(s, x => x == c);
    if i == |s| then [s] else [s[..i]] + Split(s[i + 1..], c)
  }

  /** The pieces with `c` written between them. */
  function Joined(pieces: seq<string>, c: char): string {
    if pieces == [] then "" else if |pieces| == 1 then pieces[0] else pieces[0] + [c] + Joined(pieces[1..], c)
  }

  /** The text is these pieces, none of which holds `c`, with `c` between them. */
  predicate CutAt(s: string, c: char, pieces: seq<string>) {
    pieces != [] && (forall p | p in pieces :: c !in p) && Joined(pieces, c) == s
  }

  lemma {:induction false} SplitCuts(s: string, c: char)
    ensures CutAt(s, c, Split(s, c))
    decreases |s|
  {
    var p := x => x == c;
    var i := FirstIndex(s, p);
    FirstIndexIsFirst(s, p);
    if i < |s| {
      SplitCuts(s[i + 1..], c);
      var rest := Split(s[i + 1..], c);
      assert ([s[..i]] + rest)[1..] == rest;
      assert s == s[..i] + [c] + s[i + 1..];
    }
  }

  lemma {:induction false} CutsOnce(s: string, c: char, pieces: seq<string>)
    requires CutAt(s, c, pieces)
    ensures Split(s, c) == pieces
    decreases |pieces|
  {
    var p := x => x == c;
    FirstIndexIsFirst(s, p);
    if |pieces| > 1 {
      var rest := Joined(pieces[1..], c);
      assert s == pieces[0] + [c] + rest && c !in pieces[0];
      SplitOnceAt(pieces[0], c, rest, p);
      assert CutAt(rest, c, pieces[1..]);
      CutsOnce(rest, c, pieces[1..]);
      assert pieces == [pieces[0]] + pieces[1..];
    } else {
      assert pieces == [s] && pieces[0] in pieces;
    }
  }

  /** Splitting a text is the one way of cutting it at every `c`. */
  lemma SplitExactly(s: string, c: char, pieces: seq<string>)
    ensures Split(s, c) == pieces <==> CutAt(s, c, pieces)
  {
    SplitCuts(s, c);
    if CutAt(s, c, pieces) {
      CutsOnce(s, c, pieces);
    }
  }

  predicate IsDigit(c: char) {
    '0' <= c <= '9'
  }

  predicate AllDigits(s: string) {
    forall i | 0 <= i < |s| :: IsDigit(s[i])
  }

  predicate IsSpace(c: char) {
    c == ' ' || '\t' <= c <= '\r' || c as int in
      {0x85, 0xA0, 0x1680, 0x2028, 0x2029, 0x202F, 0x205F, 0x3000} || 0x2000 <= c as int <= 0x200A
  }

  function TrimStart(s: string): (t: string)
    ensures t != [] ==> !IsSpace(t[0])
    ensures |t| <= |s|
  {
    if s != [] && IsSpace(s[0]) then TrimStart(s[1..]) else s
  }

  function TrimEnd(s: string): (t: string)
    ensures t <= s
    ensures t != [] ==> !IsSpace(t[|t| - 1])
  {
    if s != [] && IsSpace(s[|s| - 1]) then TrimEnd(s[..|s| - 1]) else s
  }

  /** The text without leading and trailing white space. */
  function Trim(s: string): string {
    TrimEnd(TrimStart(s))
  }

  /** Whether nothing but white space is written. */
  predicate Blank(s: string)
  {
    forall i | 0 <= i < |s| :: IsSpace(s[i])
  }
}
