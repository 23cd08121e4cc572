/** The texts RFC 8259 calls JSON, as concrete syntax: every serialization of a value is `Text`
    of one `Value`, with its own choice of whitespace, escapes and number spelling. */
module JsonText {

  datatype Piece =
    | Plain(c: char)          // an unescaped character, section 7
    | Short(code: char)       // a two-character escape
    | Hex(digits: string)     // a \uXXXX escape

  datatype Number = Number(negative: bool, whole: string, frac: string, exp: string)

  datatype Value =
    | Word(text: string)                                // true, false, null
    | Num(number: Number)
    | Str(pieces: seq<Piece>)
    | Array(blank: string, items: seq<Item>)
    | Object(blank: string, members: seq<Member>)

  /** A value with the whitespace section 2 allows on both sides. */
  datatype Item = Item(before: string, value: Value, after: string)

  datatype Member = Member(before: string, key: seq<Piece>, afterKey: string, item: Item)

  // ---------- Well-formed texts ----------

  predicate IsBlank(s: string) {
    forall i :: 0 <= i < |s| ==> s[i] == ' ' || s[i] == '\t' || s[i] == '\n' || s[i] == '\r'
  }

  predicate IsDigit(c: char) { '0' <= c <= '9' }

  predicate IsHexDigit(c: char) {
    IsDigit(c) || 'a' <= c <= 'f' || 'A' <= c <= 'F'
  }

  predicate AllDigits(s: string) {
    s != [] && forall i :: 0 <= i < |s| ==> IsDigit(s[i])
  }

  /** Section 6: no leading zero, a fraction needs digits, an exponent may carry a sign. */
  predicate IsNumber(n: Number) {
    && AllDigits(n.whole) && (n.whole[0] == '0' ==> |n.whole| == 1)
    && (n.frac == [] || (n.frac[0] == '.' && AllDigits(n.frac[1..])))
    && (n.exp == [] || (
          && (n.exp[0] == 'e' || n.exp[0] == 'E')
          && (AllDigits(n.exp[1..]) || (|n.exp| > 1 && (n.exp[1] == '+' || n.exp[1] == '-') && AllDigits(n.exp[2..])))))
  }

  predicate IsPiece(p: Piece) {
    match p
    case Plain(c) => c >= ' ' && c != '"' && c != '\\'
    case Short(code) => code in "\"\\/bfnrt"
    case Hex(digits) => |digits| == 4 && forall i :: 0 <= i < 4 ==> IsHexDigit(digits[i])
  }

  predicate ArePieces(ps: seq<Piece>) {
    forall i :: 0 <= i < |ps| ==> IsPiece(ps[i])
  }

  predicate IsValue(v: Value)
    decreases v, 0
  {
    match v
    case Word(t) => t == "true" || t == "false" || t == "null"
    case Num(n) => IsNumber(n)
    case Str(ps) => ArePieces(ps)
    case Array(blank, items) => IsBlank(blank) && AreItems(items)
    case Object(blank, members) => IsBlank(blank) && AreMembers(members)
  }

  predicate IsItem(it: Item)
    decreases it, 1
  {
    IsBlank(it.before) && IsValue(it.value) && IsBlank(it.after)
  }

  predicate AreItems(items: seq<Item>)
    decreases items, 2
  {
    items == [] || (IsItem(items[0]) && AreItems(items[1..]))
  }

  predicate AreMembers(ms: seq<Member>)
    decreases ms, 2
  {
    ms == [] || (
      && IsBlank(ms[0].before) && ArePieces(ms[0].key) && IsBlank(ms[0].afterKey)
      && IsItem(ms[0].item) && AreMembers(ms[1..]))
  }

  // ---------- Their characters ----------

  function PieceText(p: Piece): string {
    match p
    case Plain(c) => [c]
    case Short(code) => "\\" + [code]
    case Hex(digits) => "\\u" + digits
  }

  function PiecesText(ps: seq<Piece>): string {
    if ps == [] then "" else PieceText(ps[0]) + PiecesText(ps[1..])
  }

  function StringText(ps: seq<Piece>): string {
    "\"" + PiecesText(ps) + "\""
  }

  function NumberText(n: Number): string {
    (if n.negative then "-" else "") + n.whole + n.frac + n.exp
  }

  function Text(v: Value): string
    decreases v, 0
  {
    match v
    case Word(t) => t
    case Num(n) => NumberText(n)
    case Str(ps) => StringText(ps)
    case Array(blank, items) => "[" + blank + ItemsText(items) + "]"
    case Object(blank, members) => "{" + blank + MembersText(members) + "}"
  }

  function ItemText(it: Item): string
    decreases it, 1
  {
    it.before + Text(it.value) + it.after
  }

  function ItemsText(items: seq<Item>): string
    decreases items, 2
  {
    if items == [] then ""
    else ItemText(items[0]) + (if |items| == 1 then "" else "," + ItemsText(items[1..]))
  }

  function MembersText(ms: seq<Member>): string
    decreases ms, 2
  {
    if ms == [] then ""
    else ms[0].before + StringText(ms[0].key) + ms[0].afterKey + ":" + ItemText(ms[0].item) +
         (if |ms| == 1 then "" else "," + MembersText(ms[1..]))
  }
}
