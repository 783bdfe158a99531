/** JSON texts as the grammar of RFC 8259 (sections 2 to 7) describes them: a concrete syntax
    tree for every production, its printed text, and the JSON value and events it stands for.
    Text is a sequence of bytes, written as characters. The conversion of numerals with a
    fraction or an exponent to doubles is a parameter. */
module JsonGrammar {
  import opened Characters
  import opened Wrappers

  // ---------- Values and events ----------

  datatype Json =
    | Null
    | Bool(b: bool)
    | Int(n: int)
    | Num(bits: nat)
    | Str(s: string)
    | Arr(items: seq<Json>)
    | Obj(members: seq<Member>)

  datatype Member = Member(key: string, value: Json)

  datatype Event =
    | ObjectBegin
    | ObjectEnd
    | ArrayBegin
    | ArrayEnd
    | Key(name: string)
    | Scalar(value: Json)

  /** The in-order traversal of a value. */
  function Events(j: Json): seq<Event>
    decreases j, 0
  {
    match j
    case Arr(items) => [ArrayBegin] + EventsOfItems(items) + [ArrayEnd]
    case Obj(members) => [ObjectBegin] + EventsOfMembers(members) + [ObjectEnd]
    case _ => [Scalar(j)]
  }

  function EventsOfItems(items: seq<Json>): seq<Event>
    decreases items, 1
  {
    if items == [] then [] else Events(items[0]) + EventsOfItems(items[1..])
  }

  function EventsOfMembers(members: seq<Member>): seq<Event>
    decreases members, 1
  {
    if members == [] then []
    else [Key(members[0].key)] + Events(members[0].value) + EventsOfMembers(members[1..])
  }

  // ---------- UTF-8 (section 3 of RFC 3629) ----------

  const MAX_CODE: nat := 0x10_FFFF

  predicate IsHigh(code: nat) { 0xD800 <= code <= 0xDBFF }
  predicate IsLow(code: nat) { 0xDC00 <= code <= 0xDFFF }

  function Byte(b: nat): char
    requires b < 256
  {
    b as char
  }

  function Utf8(code: nat): string
    requires code <= MAX_CODE
  {
    if code <= 0x7F then [Byte(code)]
    else if code <= 0x7FF then [Byte(0xC0 + code / 64), Byte(0x80 + code % 64)]
    else if code <= 0xFFFF then [Byte(0xE0 + code / 4096), Byte(0x80 + code / 64 % 64), Byte(0x80 + code % 64)]
    else
      [Byte(0xF0 + code / 262144), Byte(0x80 + code / 4096 % 64), Byte(0x80 + code / 64 % 64), Byte(0x80 + code % 64)]
  }

  predicate IsTail(c: char) { 0x80 <= c as int <= 0xBF }

  /** A decoder of one encoded code point that refuses overlong forms and surrogates. */
  function DecodeUtf8(s: string): Option<nat> {
    if |s| == 1 && s[0] as int <= 0x7F then Some(s[0] as int)
    else if |s| == 2 && 0xC2 <= s[0] as int <= 0xDF && IsTail(s[1]) then
      Some((s[0] as int - 0xC0) * 64 + (s[1] as int - 0x80))
    else if |s| == 3 && 0xE0 <= s[0] as int <= 0xEF && IsTail(s[1]) && IsTail(s[2]) then
      var code := (s[0] as int - 0xE0) * 4096 + (s[1] as int - 0x80) * 64 + (s[2] as int - 0x80);
      if code < 0x800 || IsHigh(code) || IsLow(code) then None else Some(code)
    else if |s| == 4 && 0xF0 <= s[0] as int <= 0xF4 && IsTail(s[1]) && IsTail(s[2]) && IsTail(s[3]) then
      var code := (s[0] as int - 0xF0) * 262144 + (s[1] as int - 0x80) * 4096 + (s[2] as int - 0x80) * 64
        + (s[3] as int - 0x80);
      if code < 0x1_0000 || code > MAX_CODE then None else Some(code)
    else None
  }

  lemma {:induction false} Utf8Decodes(code: nat)
    requires code <= MAX_CODE && !IsHigh(code) && !IsLow(code)
    ensures DecodeUtf8(Utf8(code)) == Some(code)
  {
    if code > 0xFFFF {
      FourDigits(code);
    } else if code > 0x7FF {
      ThreeDigits(code);
    }
  }

  lemma {:induction false} ThreeDigits(code: nat)
    ensures code == code / 4096 * 4096 + code / 64 % 64 * 64 + code % 64
  {
    assert code / 64 / 64 == code / 4096;
  }

  lemma {:induction false} FourDigits(code: nat)
    ensures code == code / 262144 * 262144 + code / 4096 % 64 * 4096 + code / 64 % 64 * 64 + code % 64
  {
    ThreeDigits(code);
    assert code / 4096 / 64 == code / 262144;
  }

  // ---------- Strings ----------

  predicate IsHex(c: char) { '0' <= c <= '9' || 'a' <= c <= 'f' || 'A' <= c <= 'F' }

  function HexDigit(c: char): (n: nat)
    requires IsHex(c)
    ensures n < 16
  {
    if c <= '9' then c as int - '0' as int
    else if c <= 'F' then c as int - 'A' as int + 10
    else c as int - 'a' as int + 10
  }

  predicate IsHex4(h: string) { |h| == 4 && IsHex(h[0]) && IsHex(h[1]) && IsHex(h[2]) && IsHex(h[3]) }

  function Hex4(h: string): (n: nat)
    requires IsHex4(h)
    ensures n <= 0xFFFF
  {
    HexDigit(h[0]) * 4096 + HexDigit(h[1]) * 256 + HexDigit(h[2]) * 16 + HexDigit(h[3])
  }

  /** One unit of a string literal: a plain byte, a two-character escape, an escaped code
      point of four hexadecimal digits, or an escaped surrogate pair. */
  datatype Piece = Raw(c: char) | Escape(c: char) | Unicode(h: string) | Pair(h: string, l: string)

  predicate IsEscape(c: char) { c in "\"\\/bfnrt" }

  predicate ValidPiece(p: Piece) {
    match p
    case Raw(c) => c >= ' ' && c != '"' && c != '\\'
    case Escape(c) => IsEscape(c)
    case Unicode(h) => IsHex4(h) && !IsHigh(Hex4(h)) && !IsLow(Hex4(h))
    case Pair(h, l) => IsHex4(h) && IsHigh(Hex4(h)) && IsHex4(l) && IsLow(Hex4(l))
  }

  function PrintPiece(p: Piece): (s: string)
    ensures ValidPiece(p) ==> s != [] && s[0] != '"'
  {
    match p
    case Raw(c) => [c]
    case Escape(c) => ['\\', c]
    case Unicode(h) => ['\\', 'u'] + h
    case Pair(h, l) => ['\\', 'u'] + h + ['\\', 'u'] + l
  }

  function Unescaped(c: char): char {
    match c
    case 'b' => 8 as char
    case 'f' => 12 as char
    case 'n' => '\n'
    case 'r' => '\r'
    case 't' => '\t'
    case _ => c
  }

  /** The bytes a piece stands for. */
  function PieceText(p: Piece): string
    requires ValidPiece(p)
  {
    match p
    case Raw(c) => [c]
    case Escape(c) => [Unescaped(c)]
    case Unicode(h) => Utf8(Hex4(h))
    case Pair(h, l) => Utf8(0x1_0000 + (Hex4(h) - 0xD800) * 1024 + (Hex4(l) - 0xDC00))
  }

  predicate ValidPieces(s: seq<Piece>) { s == [] || (ValidPiece(s[0]) && ValidPieces(s[1..])) }

  function PrintPieces(s: seq<Piece>): string {
    if s == [] then "" else PrintPiece(s[0]) + PrintPieces(s[1..])
  }

  function TextOf(s: seq<Piece>): string
    requires ValidPieces(s)
  {
    if s == [] then "" else PieceText(s[0]) + TextOf(s[1..])
  }

  function PrintString(s: seq<Piece>): string { "\"" + (PrintPieces(s) + "\"") }

  // ---------- Numbers ----------

  /** A numeral, cut into an optional minus sign, the digits before the point, the fraction with
      its point and the exponent with its letter and sign. */
  datatype Numeral = Numeral(minus: bool, whole: string, fraction: string, exponent: string) {
    predicate Integral() { fraction == "" && exponent == "" }
    function Text(): string { (if minus then "-" else "") + (whole + (fraction + exponent)) }
  }

  predicate SomeDigits(s: string) { s != [] && AllDigits(s) }

  predicate ValidWhole(s: string) { SomeDigits(s) && (s[0] == '0' ==> |s| == 1) }

  predicate ValidFraction(s: string) { s == "" || (s[0] == '.' && SomeDigits(s[1..])) }

  predicate ValidExponent(s: string) {
    s == "" || ((s[0] == 'e' || s[0] == 'E') && SomeDigits(AfterSign(s[1..])))
  }

  function AfterSign(s: string): string { if s != [] && (s[0] == '+' || s[0] == '-') then s[1..] else s }

  predicate ValidNumeral(x: Numeral) {
    ValidWhole(x.whole) && ValidFraction(x.fraction) && ValidExponent(x.exponent)
  }

  function IntegerOf(x: Numeral): int
    requires ValidNumeral(x)
  {
    if x.minus then 0 - DecimalValue(x.whole) else DecimalValue(x.whole)
  }

  const MIN_INT64: int := -0x8000_0000_0000_0000
  const MAX_INT64: int := 0x7FFF_FFFF_FFFF_FFFF

  type Conversion = string -> Option<nat>

  /** Integral numerals must fit 64 bits; the others must convert to a finite double. */
  predicate Representable(conv: Conversion, x: Numeral)
    requires ValidNumeral(x)
  {
    if x.Integral() then MIN_INT64 <= IntegerOf(x) <= MAX_INT64 else conv(x.Text()).Some?
  }

  function NumberOf(conv: Conversion, x: Numeral): Json
    requires ValidNumeral(x) && Representable(conv, x)
  {
    if x.Integral() then Int(IntegerOf(x)) else Num(conv(x.Text()).value)
  }

  // ---------- Values with their white space ----------

  const MAX_JSON_DEPTH: nat := 64

  datatype Node =
    | NNull
    | NTrue
    | NFalse
    | NNumber(x: Numeral)
    | NString(s: seq<Piece>)
    | NArray(gap: string, elems: seq<Elem>)
    | NObject(gap: string, fields: seq<Field>)

  datatype Elem = Elem(before: string, node: Node, after: string)

  datatype Field = Field(before: string, key: seq<Piece>, afterKey: string, beforeNode: string, node: Node,
                         after: string)

  /** A JSON text the parser can accept with `depth` containers already open. `gap` is the white
      space of an empty container. */
  predicate ValidNode(conv: Conversion, n: Node, depth: nat)
    decreases n, 0
  {
    match n
    case NNumber(x) => ValidNumeral(x) && Representable(conv, x)
    case NString(s) => ValidPieces(s)
    case NArray(gap, elems) =>
      depth < MAX_JSON_DEPTH && AllSpace(gap) && (elems != [] ==> gap == "") && ValidElems(conv, elems, depth + 1)
    case NObject(gap, fields) =>
      depth < MAX_JSON_DEPTH && AllSpace(gap) && (fields != [] ==> gap == "") && ValidFields(conv, fields, depth + 1)
    case _ => true
  }

  predicate ValidElems(conv: Conversion, s: seq<Elem>, depth: nat)
    decreases s, 1
  {
    s == [] || (ValidElem(conv, s[0], depth) && ValidElems(conv, s[1..], depth))
  }

  predicate ValidElem(conv: Conversion, e: Elem, depth: nat)
    decreases e, 1
  {
    AllSpace(e.before) && AllSpace(e.after) && ValidNode(conv, e.node, depth)
  }

  predicate ValidFields(conv: Conversion, s: seq<Field>, depth: nat)
    decreases s, 1
  {
    s == [] || (ValidField(conv, s[0], depth) && ValidFields(conv, s[1..], depth))
  }

  predicate ValidField(conv: Conversion, f: Field, depth: nat)
    decreases f, 1
  {
    && AllSpace(f.before) && AllSpace(f.afterKey) && AllSpace(f.beforeNode) && AllSpace(f.after)
    && ValidPieces(f.key) && ValidNode(conv, f.node, depth)
  }

  function PrintNode(n: Node): string
    decreases n, 0
  {
    match n
    case NNull => "null"
    case NTrue => "true"
    case NFalse => "false"
    case NNumber(x) => x.Text()
    case NString(s) => PrintString(s)
    case NArray(gap, elems) => "[" + (if elems == [] then gap + "]" else PrintElems(elems))
    case NObject(gap, fields) => "{" + (if fields == [] then gap + "}" else PrintFields(fields))
  }

  /** The elements from here on, with the bracket that closes the array. */
  function PrintElems(s: seq<Elem>): string
    requires s != []
    decreases s, 2
  {
    ElemText(s[0], if |s| == 1 then "]" else "," + PrintElems(s[1..]))
  }

  /** An element followed by other text. */
  function ElemText(e: Elem, rest: string): string
    decreases e, 1
  {
    e.before + (PrintNode(e.node) + (e.after + rest))
  }

  function PrintFields(s: seq<Field>): string
    requires s != []
    decreases s, 2
  {
    FieldText(s[0], if |s| == 1 then "}" else "," + PrintFields(s[1..]))
  }

  function FieldText(f: Field, rest: string): string
    decreases f, 1
  {
    KeyText(f.before, f.key, f.afterKey, f.beforeNode + (PrintNode(f.node) + (f.after + rest)))
  }

  function KeyText(before: string, key: seq<Piece>, after: string, rest: string): string {
    before + (PrintString(key) + (after + (":" + rest)))
  }

  /** The JSON value of a syntax tree. */
  function TreeOf(conv: Conversion, n: Node, depth: nat): Json
    requires ValidNode(conv, n, depth)
    decreases n, 0
  {
    match n
    case NNull => Null
    case NTrue => Bool(true)
    case NFalse => Bool(false)
    case NNumber(x) => NumberOf(conv, x)
    case NString(s) => Str(TextOf(s))
    case NArray(_, elems) => Arr(ItemsOf(conv, elems, depth + 1))
    case NObject(_, fields) => Obj(MembersOf(conv, fields, depth + 1))
  }

  function ItemOf(conv: Conversion, e: Elem, depth: nat): Json
    requires ValidElem(conv, e, depth)
    decreases e, 1
  {
    TreeOf(conv, e.node, depth)
  }

  function ItemsOf(conv: Conversion, s: seq<Elem>, depth: nat): seq<Json>
    requires ValidElems(conv, s, depth)
    decreases s, 1
  {
    if s == [] then [] else [ItemOf(conv, s[0], depth)] + ItemsOf(conv, s[1..], depth)
  }

  function MemberOf(conv: Conversion, f: Field, depth: nat): Member
    requires ValidField(conv, f, depth)
    decreases f, 1
  {
    Member(TextOf(f.key), TreeOf(conv, f.node, depth))
  }

  function MembersOf(conv: Conversion, s: seq<Field>, depth: nat): seq<Member>
    requires ValidFields(conv, s, depth)
    decreases s, 1
  {
    if s == [] then []
    else [MemberOf(conv, s[0], depth)] + MembersOf(conv, s[1..], depth)
  }

  /** A whole text: a value with white space around it. */
  datatype Document = Document(before: string, node: Node, after: string)

  predicate ValidDocument(conv: Conversion, d: Document) {
    AllSpace(d.before) && AllSpace(d.after) && ValidNode(conv, d.node, 0)
  }

  function PrintDocument(d: Document): string { d.before + (PrintNode(d.node) + d.after) }

  function ValueOf(conv: Conversion, d: Document): Json
    requires ValidDocument(conv, d)
  {
    TreeOf(conv, d.node, 0)
  }
}
