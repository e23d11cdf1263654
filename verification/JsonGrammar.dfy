/**
 * JSON texts as concrete syntax: every datatype value is one way of writing one JSON value,
 * with its white space and its choice of escapes, following RFC 8259 sections 2 to 7.
 */
module JsonGrammar {
  /** One character of a string literal: written plainly, with a short escape, or as \uXXXX. */
  datatype Ch = Plain(c: char) | Escape(c: char) | Unicode(hex: string)

  datatype Json =
    | Word(word: string)
    | Num(negative: bool, whole: string, fraction: string, exponent: string)
    | Str(chars: seq<Ch>)
    | Arr(pad: string, elems: Elems)
    | Obj(pad: string, members: Members)

  datatype Elems =
    | NoElem
    | Elem(before: string, value: Json, after: string, rest: Elems)

  datatype Members =
    | NoMember
    | Member(before: string, key: seq<Ch>, mid: string, gap: string, value: Json, after: string, others: Members)

  // ---------------------------------------------------------------- well-formedness

  predicate IsWs(s: string) {
    forall i :: 0 <= i < |s| ==> s[i] in " \t\n\r"
  }

  predicate IsDigits(s: string) {
    s != "" && forall i :: 0 <= i < |s| ==> '0' <= s[i] <= '9'
  }

  predicate IsHex(c: char) {
    '0' <= c <= '9' || 'a' <= c <= 'f' || 'A' <= c <= 'F'
  }

  predicate CharOk(ch: Ch) {
    match ch
    case Plain(c) => c >= ' ' && c != '"' && c != '\\'
    case Escape(c) => c in "\"\\/bfnrt"
    case Unicode(h) => |h| == 4 && forall i :: 0 <= i < 4 ==> IsHex(h[i])
  }

  predicate CharsOk(s: seq<Ch>) {
    forall i :: 0 <= i < |s| ==> CharOk(s[i])
  }

  predicate IsFraction(s: string) {
    s == "" || (s[0] == '.' && IsDigits(s[1..]))
  }

  predicate IsExponent(s: string) {
    s == "" || (s[0] in "eE" && (IsDigits(s[1..]) || (|s| > 1 && s[1] in "+-" && IsDigits(s[2..]))))
  }

  predicate WellFormed(v: Json) {
    match v
    case Word(w) => w in ["true", "false", "null"]
    case Num(_, whole, fraction, exponent) =>
      IsDigits(whole) && (whole[0] == '0' ==> |whole| == 1) && IsFraction(fraction) && IsExponent(exponent)
    case Str(chars) => CharsOk(chars)
    case Arr(pad, elems) => IsWs(pad) && ElemsOk(elems)
    case Obj(pad, members) => IsWs(pad) && MembersOk(members)
  }

  predicate ElemsOk(es: Elems) {
    match es
    case NoElem => true
    case Elem(before, v, after, rest) => IsWs(before) && WellFormed(v) && IsWs(after) && ElemsOk(rest)
  }

  predicate MembersOk(ms: Members) {
    match ms
    case NoMember => true
    case Member(before, key, mid, gap, v, after, others) =>
      IsWs(before) && CharsOk(key) && IsWs(mid) && IsWs(gap) && WellFormed(v) && IsWs(after) && MembersOk(others)
  }

  // ---------------------------------------------------------------- the text

  function ChText(ch: Ch): string {
    match ch
    case Plain(c) => [c]
    case Escape(c) => ['\\', c]
    case Unicode(h) => "\\u" + h
  }

  function CharsText(s: seq<Ch>): string {
    if s == [] then "" else ChText(s[0]) + CharsText(s[1..])
  }

  function StringText(s: seq<Ch>): string {
    "\"" + CharsText(s) + "\""
  }

  function Text(v: Json): string {
    match v
    case Word(w) => w
    case Num(negative, whole, fraction, exponent) =>
      (if negative then "-" else "") + whole + fraction + exponent
    case Str(chars) => StringText(chars)
    case Arr(pad, elems) => "[" + (pad + ElemsText(elems)) + "]"
    case Obj(pad, members) => "{" + (pad + MembersText(members)) + "}"
  }

  function ElemsText(es: Elems): string {
    match es
    case NoElem => ""
    case Elem(before, v, after, rest) =>
      before + Text(v) + after + (if rest.NoElem? then "" else "," + ElemsText(rest))
  }

  function MembersText(ms: Members): string {
    match ms
    case NoMember => ""
    case Member(before, key, mid, gap, v, after, others) =>
      before + StringText(key) + (mid + ":" + gap) + Text(v) + after
      + (if others.NoMember? then "" else "," + MembersText(others))
  }
}
