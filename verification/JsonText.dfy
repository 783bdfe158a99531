/** What a JSON text means, said without the reader: strings by the table of escapes of section 7
    of RFC 8259, code points by decoding UTF-8, integers by their digits. */
module JsonText {
  import opened Characters
  import opened JsonGrammar
  import opened JsonReader
  import opened Wrappers

  // ---------- Strings ----------

  /** The short escapes and the bytes they stand for. */
  const SHORT: map<char, int> :=
    map['"' := 0x22, '\\' := 0x5C, '/' := 0x2F, 'b' := 0x08, 'f' := 0x0C, 'n' := 0x0A, 'r' := 0x0D, 't' := 0x09]

  const HEX: map<char, int> :=
    map['0' := 0, '1' := 1, '2' := 2, '3' := 3, '4' := 4, '5' := 5, '6' := 6, '7' := 7, '8' := 8, '9' := 9,
        'a' := 10, 'b' := 11, 'c' := 12, 'd' := 13, 'e' := 14, 'f' := 15,
        'A' := 10, 'B' := 11, 'C' := 12, 'D' := 13, 'E' := 14, 'F' := 15]

  /** Four hexadecimal digits of either case and the number they write. */
  predicate Writes(h: string, n: int) {
    |h| == 4 && h[0] in HEX && h[1] in HEX && h[2] in HEX && h[3] in HEX
    && n == ((HEX[h[0]] * 16 + HEX[h[1]]) * 16 + HEX[h[2]]) * 16 + HEX[h[3]]
  }

  /** A code point that is no surrogate, written as one escape or, above 0xFFFF, as two. */
  predicate WritesCode(spelling: string, code: nat) {
    if code <= 0xFFFF then
      !(0xD800 <= code <= 0xDFFF) && |spelling| == 6 && spelling[..2] == "\\u" && Writes(spelling[2..], code)
    else
      && code <= 0x10_FFFF && |spelling| == 12 && spelling[..2] == "\\u" && spelling[6..8] == "\\u"
      && Writes(spelling[2..6], 0xD800 + (code - 0x1_0000) / 0x400)
      && Writes(spelling[8..], 0xDC00 + (code - 0x1_0000) % 0x400)
  }

  /** One byte, escape or code point of a string literal and the bytes it stands for. */
  datatype Unit = Unit(spelling: string, bytes: string)

  ghost predicate Stands(u: Unit) {
    || (|u.spelling| == 1 && u.spelling[0] as int >= 0x20 && u.spelling != "\"" && u.spelling != "\\"
        && u.bytes == u.spelling)
    || (|u.spelling| == 2 && u.spelling[0] == '\\' && u.spelling[1] in SHORT
        && |u.bytes| == 1 && u.bytes[0] as int == SHORT[u.spelling[1]])
    || (exists code: nat :: WritesCode(u.spelling, code) && DecodeUtf8(u.bytes) == Some(code))
  }

  function Spelling(units: seq<Unit>): string { if units == [] then "" else units[0].spelling + Spelling(units[1..]) }

  function Bytes(units: seq<Unit>): string { if units == [] then "" else units[0].bytes + Bytes(units[1..]) }

  /** A string literal and the bytes it stands for. */
  ghost predicate Literal(text: string, bytes: string) {
    exists units: seq<Unit> ::
      (forall i :: 0 <= i < |units| ==> Stands(units[i])) && text == "\"" + (Spelling(units) + "\"") && bytes == Bytes(units)
  }

  // ---------- The decoder is exact ----------

  /** What the decoder takes is exactly what the encoder makes. */
  lemma {:induction false} DecodedEncodes(s: string, code: nat)
    requires DecodeUtf8(s) == Some(code)
    ensures code <= MAX_CODE && !IsHigh(code) && !IsLow(code) && Utf8(code) == s
  {
    if |s| == 2 {
      var a, b := s[0] as int - 0xC0, s[1] as int - 0x80;
      assert code == a * 64 + b && code / 64 == a && code % 64 == b;
    } else if |s| == 3 {
      ThreeBack(s[0] as int - 0xE0, s[1] as int - 0x80, s[2] as int - 0x80, code);
    } else if |s| == 4 {
      FourBack(s[0] as int - 0xF0, s[1] as int - 0x80, s[2] as int - 0x80, s[3] as int - 0x80, code);
    }
  }

  lemma {:induction false} ThreeBack(a: int, b: int, c: int, code: int)
    requires 0 <= b < 64 && 0 <= c < 64 && code == a * 4096 + b * 64 + c
    ensures code / 4096 == a && code / 64 % 64 == b && code % 64 == c && code / 64 == a * 64 + b
  {
    assert code == (a * 64 + b) * 64 + c;
    assert code / 64 == a * 64 + b;
  }

  lemma {:induction false} FourBack(a: int, b: int, c: int, d: int, code: int)
    requires 0 <= b < 64 && 0 <= c < 64 && 0 <= d < 64 && code == a * 262144 + b * 4096 + c * 64 + d
    ensures code / 262144 == a && code / 4096 % 64 == b && code / 64 % 64 == c && code % 64 == d
  {
    assert code == (a * 64 + b) * 4096 + c * 64 + d;
    ThreeBack(a * 64 + b, c, d, code);
    assert code / 4096 == a * 64 + b;
    assert code / 4096 / 64 == code / 262144;
  }

  // ---------- Pieces of the grammar are units ----------

  lemma {:induction false} DigitIsHex(c: char)
    ensures IsHex(c) <==> c in HEX
    ensures IsHex(c) ==> HexDigit(c) == HEX[c]
  {
    if c in HEX || IsHex(c) {
      assert c as int in {0x30, 0x31, 0x32, 0x33, 0x34, 0x35, 0x36, 0x37, 0x38, 0x39,
                          0x41, 0x42, 0x43, 0x44, 0x45, 0x46, 0x61, 0x62, 0x63, 0x64, 0x65, 0x66};
    }
  }

  lemma {:induction false} HexWrites(h: string, n: int)
    ensures Writes(h, n) <==> IsHex4(h) && Hex4(h) == n
  {
    hide HexDigit, IsHex;
    if |h| == 4 {
      DigitIsHex(h[0]);
      DigitIsHex(h[1]);
      DigitIsHex(h[2]);
      DigitIsHex(h[3]);
      hide HEX;
    }
  }

  lemma {:induction false} EscapeIsShort(c: char)
    ensures IsEscape(c) <==> c in SHORT
    ensures IsEscape(c) ==> Unescaped(c) as int == SHORT[c]
  {
    assert IsEscape(c) <==> c == '"' || c == '\\' || c == '/' || c == 'b' || c == 'f' || c == 'n' || c == 'r' || c == 't';
  }

  lemma {:induction false} PieceStands(p: JsonGrammar.Piece)
    requires ValidPiece(p)
    ensures Stands(Unit(PrintPiece(p), PieceText(p)))
  {
    hide Utf8, DecodeUtf8, Writes, Hex4, IsHex4, Unescaped, IsEscape;
    match p
    case Raw(c) =>
    case Escape(c) => EscapeIsShort(c);
    case Unicode(h) =>
      FourLong(h);
      HexWrites(h, Hex4(h));
      Utf8Decodes(Hex4(h));
      assert PrintPiece(p)[2..] == h;
      assert WritesCode(PrintPiece(p), Hex4(h));
    case Pair(h, l) =>
      FourLong(h);
      FourLong(l);
      HexWrites(h, Hex4(h));
      HexWrites(l, Hex4(l));
      var code := PairCode(Hex4(h), Hex4(l));
      Utf8Decodes(code);
      var s := PrintPiece(p);
      assert s[2..6] == h && s[6..8] == "\\u" && s[8..] == l;
      assert WritesCode(s, code);
  }

  lemma {:induction false} FourLong(h: string)
    requires IsHex4(h)
    ensures |h| == 4
  {}

  /** The code point of a surrogate pair, and the pair of a code point. */
  lemma {:induction false} PairCode(high: nat, low: nat) returns (code: nat)
    requires IsHigh(high) && IsLow(low)
    ensures code == 0x1_0000 + (high - 0xD800) * 1024 + (low - 0xDC00) && 0xFFFF < code <= MAX_CODE
    ensures high == 0xD800 + (code - 0x1_0000) / 0x400 && low == 0xDC00 + (code - 0x1_0000) % 0x400
  {
    code := 0x1_0000 + (high - 0xD800) * 1024 + (low - 0xDC00);
    assert (code - 0x1_0000) / 1024 == high - 0xD800;
  }

  lemma {:induction false} StandsIsPiece(u: Unit) returns (p: JsonGrammar.Piece)
    requires Stands(u)
    ensures ValidPiece(p) && PrintPiece(p) == u.spelling && PieceText(p) == u.bytes
  {
    hide Utf8, DecodeUtf8, Writes, Hex4, IsHex4, Unescaped, IsEscape;
    if |u.spelling| == 1 {
      p := Raw(u.spelling[0]);
    } else if |u.spelling| == 2 {
      EscapeIsShort(u.spelling[1]);
      p := Escape(u.spelling[1]);
      assert PrintPiece(p) == u.spelling;
    } else {
      var code: nat :| WritesCode(u.spelling, code) && DecodeUtf8(u.bytes) == Some(code);
      DecodedEncodes(u.bytes, code);
      if code <= 0xFFFF {
        var h := u.spelling[2..];
        HexWrites(h, code);
        p := Unicode(h);
        assert PrintPiece(p) == u.spelling[..2] + h == u.spelling;
      } else {
        p := CodeIsPair(u.spelling, code);
      }
    }
  }

  lemma {:induction false} CodeIsPair(s: string, code: nat) returns (p: JsonGrammar.Piece)
    requires WritesCode(s, code) && code > 0xFFFF
    ensures ValidPiece(p) && PrintPiece(p) == s && PieceText(p) == Utf8(code)
  {
    hide Utf8, Writes, Hex4, IsHex4;
    var h, l := s[2..6], s[8..];
    var offset := code - 0x1_0000;
    HexWrites(h, 0xD800 + offset / 0x400);
    HexWrites(l, 0xDC00 + offset % 0x400);
    assert 0 <= offset / 0x400 < 0x400 && offset == offset / 0x400 * 0x400 + offset % 0x400;
    p := Pair(h, l);
    assert s == s[..2] + h + s[6..8] + l;
    assert PrintPiece(p) == s;
  }

  // ---------- String literals ----------

  function UnitsOf(ps: seq<JsonGrammar.Piece>): (r: seq<Unit>)
    requires ValidPieces(ps)
    ensures |r| == |ps|
  {
    if ps == [] then [] else [Unit(PrintPiece(ps[0]), PieceText(ps[0]))] + UnitsOf(ps[1..])
  }

  lemma {:induction false} UnitsStand(ps: seq<JsonGrammar.Piece>)
    requires ValidPieces(ps)
    ensures forall i :: 0 <= i < |ps| ==> Stands(UnitsOf(ps)[i])
    ensures Spelling(UnitsOf(ps)) == PrintPieces(ps) && Bytes(UnitsOf(ps)) == TextOf(ps)
  {
    hide Stands, ValidPiece, PrintPiece, PieceText;
    if ps != [] {
      PieceStands(ps[0]);
      UnitsStand(ps[1..]);
      assert UnitsOf(ps)[1..] == UnitsOf(ps[1..]);
    }
  }

  lemma {:induction false} UnitsArePieces(units: seq<Unit>) returns (ps: seq<JsonGrammar.Piece>)
    requires forall i :: 0 <= i < |units| ==> Stands(units[i])
    ensures ValidPieces(ps) && PrintPieces(ps) == Spelling(units) && TextOf(ps) == Bytes(units)
  {
    hide Stands, ValidPiece, PrintPiece, PieceText;
    ps := [];
    if units != [] {
      var p := StandsIsPiece(units[0]);
      var rest := UnitsArePieces(units[1..]);
      ps := [p] + rest;
      assert ps[1..] == rest;
    }
  }

  /** The literals of the grammar are those of the table, with the same bytes. */
  lemma {:induction false} PiecesAreLiterals(ps: seq<JsonGrammar.Piece>)
    requires ValidPieces(ps)
    ensures Literal(PrintString(ps), TextOf(ps))
  {
    UnitsStand(ps);
    assert PrintString(ps) == "\"" + (Spelling(UnitsOf(ps)) + "\"");
  }

  /** A text that is a literal by the table is read as a string, and the string is the bytes the
      table gives. */
  lemma {:induction false} LiteralIsRead(conv: Conversion, text: string, bytes: string)
    requires Literal(text, bytes)
    ensures
      var r := ReadText(conv, text);
      r.Got? && ValidDocument(conv, r.value) && ValueOf(conv, r.value) == Str(bytes)
  {
    hide ReadText, Stands, ValidPieces, TextOf, PrintPieces;
    var units: seq<Unit> :|
      (forall i :: 0 <= i < |units| ==> Stands(units[i])) && text == "\"" + (Spelling(units) + "\"") && bytes == Bytes(units);
    var ps := UnitsArePieces(units);
    NoSpace();
    var d := Document("", NString(ps), "");
    assert PrintDocument(d) == text;
    ReadsExactlyTheGrammar(conv, text, d);
  }

  /** And a text that is read as a string is a literal by the table, between white space. */
  lemma {:induction false} ReadIsLiteral(conv: Conversion, text: string, bytes: string)
    requires ReadText(conv, text).Got?
    requires ValidDocument(conv, ReadText(conv, text).value) && ValueOf(conv, ReadText(conv, text).value) == Str(bytes)
    ensures exists before, literal, after ::
      AllSpace(before) && AllSpace(after) && text == before + (literal + after) && Literal(literal, bytes)
  {
    hide ReadText, Literal, ValidPieces, TextOf, PrintPieces;
    var d := ReadText(conv, text).value;
    assert ReadText(conv, text).rest == [] by { WholeText(conv, text); }
    ReadsExactlyTheGrammar(conv, text, d);
    match d.node {
      case NString(ps) => PiecesAreLiterals(ps);
      case NNumber(x) => NumbersAreNumbers(conv, x);
      case _ =>
    }
  }

  lemma {:induction false} WholeText(conv: Conversion, text: string)
    ensures ReadText(conv, text).Got? ==> ReadText(conv, text).rest == []
  {
    hide ReadValue;
  }

  lemma {:induction false} NumbersAreNumbers(conv: Conversion, x: Numeral)
    requires ValidNumeral(x) && Representable(conv, x)
    ensures !NumberOf(conv, x).Str?
  {}

  // ---------- Integers ----------

  /** Digits without a leading zero, after an optional minus sign. */
  predicate WritesInteger(t: string, n: int) {
    var minus := t != [] && t[0] == '-';
    var d := if minus then t[1..] else t;
    d != [] && AreDigits(d) && (d[0] == '0' ==> |d| == 1) && n == if minus then -Written(d) else Written(d)
  }

  lemma {:induction false} IntegerIsNumeral(t: string, n: int) returns (x: Numeral)
    requires WritesInteger(t, n)
    ensures ValidNumeral(x) && x.Integral() && x.Text() == t && IntegerOf(x) == n
  {
    var minus := t[0] == '-';
    var d := if minus then t[1..] else t;
    DigitsAreDigits(d);
    x := Numeral(minus, d, "", "");
    assert d + ("" + "") == d;
    assert minus ==> t == "-" + d;
  }

  /** An integer is read as the number its digits write if that fits 64 bits, and refused if not. */
  lemma {:induction false} IntegerIsRead(conv: Conversion, t: string, n: int)
    requires WritesInteger(t, n)
    ensures
      var r := ReadText(conv, t);
      if -9223372036854775808 <= n <= 9223372036854775807 then
        r.Got? && ValidDocument(conv, r.value) && ValueOf(conv, r.value) == Int(n)
      else r == Bad(InvalidNumber)
  {
    hide ReadText, WritesInteger;
    var x := IntegerIsNumeral(t, n);
    NoSpace();
    if -9223372036854775808 <= n <= 9223372036854775807 {
      var d := Document("", NNumber(x), "");
      assert PrintDocument(d) == t by { Alone(x); }
      ReadsExactlyTheGrammar(conv, t, d);
    } else {
      assert x.Text() + "" == t;
      NumeralComplete(x, "");
      NumeralStarts(x);
      RefusedNumber(conv, t);
    }
  }

  lemma {:induction false} Alone(x: Numeral)
    ensures PrintDocument(Document("", NNumber(x), "")) == x.Text()
  {
    assert "" + (x.Text() + "") == x.Text();
  }

  lemma {:induction false} NumeralStarts(x: Numeral)
    requires ValidNumeral(x)
    ensures x.Text() != [] && (x.Text()[0] == '-' || IsDigit(x.Text()[0]))
  {}

  lemma {:induction false} RefusedNumber(conv: Conversion, t: string)
    requires t != [] && (t[0] == '-' || IsDigit(t[0])) && ReadNumber(conv, t) == Bad(InvalidNumber)
    ensures ReadText(conv, t) == Bad(InvalidNumber)
  {
    hide ReadNumber, ReadArray, ReadObject, ReadString;
    assert !IsSpace(t[0]);
  }

  /** And whatever is read as an integer is written by its digits, between white space. */
  lemma {:induction false} ReadIsInteger(conv: Conversion, text: string, n: int)
    requires ReadText(conv, text).Got?
    requires ValidDocument(conv, ReadText(conv, text).value) && ValueOf(conv, ReadText(conv, text).value) == Int(n)
    ensures exists before, t, after ::
      AllSpace(before) && AllSpace(after) && text == before + (t + after) && WritesInteger(t, n)
  {
    hide ReadText, ValidPieces, TextOf;
    var d := ReadText(conv, text).value;
    WholeText(conv, text);
    ReadsExactlyTheGrammar(conv, text, d);
    match d.node {
      case NNumber(x) => NumeralIsInteger(x);
      case _ =>
    }
  }

  lemma {:induction false} NumeralIsInteger(x: Numeral)
    requires ValidNumeral(x) && x.Integral()
    ensures WritesInteger(x.Text(), IntegerOf(x))
  {
    DigitsAreDigits(x.whole);
    assert x.whole + ("" + "") == x.whole;
    if x.minus {
      assert x.Text() == "-" + x.whole && x.Text()[1..] == x.whole;
    } else {
      assert x.Text() == "" + x.whole == x.whole && IsDigit(x.whole[0]);
      OneDigit(x.whole[0]);
    }
  }

  // ---------- Other numbers ----------

  predicate Digits(s: string) { s != "" && AreDigits(s) }

  predicate SignedDigits(s: string) { Digits(s) || (s != "" && s[0] in "+-" && Digits(s[1..])) }

  /** A number cut into its parts. */
  datatype Parts = Parts(minus: bool, whole: string, fraction: string, exponent: string) {
    function Joined(): string { (if minus then "-" else "") + (whole + (fraction + exponent)) }
  }

  /** It has a fraction, an exponent or both. */
  predicate IsReal(p: Parts) {
    && Digits(p.whole) && (p.whole[0] == '0' ==> |p.whole| == 1)
    && (p.fraction == "" || (p.fraction[0] == '.' && Digits(p.fraction[1..])))
    && (p.exponent == "" || (p.exponent[0] in "eE" && SignedDigits(p.exponent[1..])))
    && !(p.fraction == "" && p.exponent == "")
  }

  ghost predicate WritesReal(t: string) { exists p: Parts :: IsReal(p) && t == p.Joined() }

  lemma {:induction false} PartsAreNumeral(p: Parts)
    ensures
      IsReal(p)
      <==> ValidNumeral(Numeral(p.minus, p.whole, p.fraction, p.exponent)) && !(p.fraction == "" && p.exponent == "")
  {
    DigitsAreDigits(p.whole);
    if p.fraction != "" { DigitsAreDigits(p.fraction[1..]); }
    if p.exponent != "" {
      var s := p.exponent[1..];
      DigitsAreDigits(s);
      if s != "" {
        DigitsAreDigits(s[1..]);
        OneDigit(s[0]);
      }
    }
  }

  /** A number with a fraction or an exponent is read as the double it converts to, and refused if
      there is none. */
  lemma {:induction false} RealIsRead(conv: Conversion, t: string)
    requires WritesReal(t)
    ensures
      var r := ReadText(conv, t);
      if conv(t).Some? then
        r.Got? && ValidDocument(conv, r.value) && ValueOf(conv, r.value) == Num(conv(t).value)
      else r == Bad(InvalidNumber)
  {
    hide ReadText, IsReal;
    var p: Parts :| IsReal(p) && t == p.Joined();
    PartsAreNumeral(p);
    var x := Numeral(p.minus, p.whole, p.fraction, p.exponent);
    hide ValidNumeral;
    NoSpace();
    if conv(t).Some? {
      var d := Document("", NNumber(x), "");
      assert PrintDocument(d) == t by { Alone(x); }
      ReadsExactlyTheGrammar(conv, t, d);
    } else {
      assert x.Text() + "" == t;
      NumeralComplete(x, "");
      NumeralStarts(x);
      RefusedNumber(conv, t);
    }
  }

  /** And whatever is read as a double is so written, between white space. */
  lemma {:induction false} ReadIsReal(conv: Conversion, text: string, bits: nat)
    requires ReadText(conv, text).Got?
    requires ValidDocument(conv, ReadText(conv, text).value) && ValueOf(conv, ReadText(conv, text).value) == Num(bits)
    ensures exists before, t, after ::
      && AllSpace(before) && AllSpace(after) && text == before + (t + after)
      && WritesReal(t) && conv(t) == Some(bits)
  {
    hide ReadText, ValidPieces, TextOf, IsReal;
    var d := ReadText(conv, text).value;
    WholeText(conv, text);
    ReadsExactlyTheGrammar(conv, text, d);
    match d.node {
      case NNumber(x) =>
        var p := Parts(x.minus, x.whole, x.fraction, x.exponent);
        PartsAreNumeral(p);
        NumberIsReal(conv, x, bits);
        assert IsReal(p) && p.Joined() == x.Text();
        assert WritesReal(x.Text());
      case _ =>
    }
  }

  lemma {:induction false} NumberIsReal(conv: Conversion, x: Numeral, bits: nat)
    requires ValidNumeral(x) && Representable(conv, x) && NumberOf(conv, x) == Num(bits)
    ensures !(x.fraction == "" && x.exponent == "") && conv(x.Text()) == Some(bits)
  {}

  // ---------- White space and nesting ----------

  /** The three words and the values they write. */
  const WORDS: map<string, Json> := map["null" := Null, "true" := Bool(true), "false" := Bool(false)]

  lemma {:induction false} WordIsRead(conv: Conversion, word: string)
    requires word in WORDS
    ensures
      var r := ReadText(conv, word);
      r.Got? && ValidDocument(conv, r.value) && ValueOf(conv, r.value) == WORDS[word]
  {
    hide ReadText;
    NoSpace();
    var node := if word == "null" then NNull else if word == "true" then NTrue else NFalse;
    var d := Document("", node, "");
    assert word in {"null", "true", "false"};
    assert PrintNode(node) == word;
    assert PrintDocument(d) == word;
    ReadsExactlyTheGrammar(conv, word, d);
  }

  /** The four bytes of white space, and no others, may follow a value. */
  lemma {:induction false} SpaceExactly(conv: Conversion, c: char)
    ensures ReadText(conv, "null" + [c]).Got? <==> IsBlank(c)
  {
    var s := "null" + [c];
    assert s[4..] == [c] && "null" <= s;
    assert Skip(s) == s;
    assert ReadValue(conv, s, 0) == Got(NNull, [c]);
    assert [c][1..] == [];
    BlankIsSpace(c);
    assert Skip([c]) == if IsSpace(c) then [] else [c];
  }

  function Open(n: nat): string { if n == 0 then "" else "[" + Open(n - 1) }

  function Close(n: nat): string { if n == 0 then "" else Close(n - 1) + "]" }

  function Nest(n: nat): Node
    requires n > 0
  {
    NArray("", if n == 1 then [] else [Elem("", Nest(n - 1), "")])
  }

  lemma {:induction false} NestIsValid(conv: Conversion, n: nat, depth: nat)
    requires 0 < n && depth + n <= 64
    ensures ValidNode(conv, Nest(n), depth) && PrintNode(Nest(n)) == Open(n) + Close(n)
  {
    NoSpace();
    if n > 1 {
      NestIsValid(conv, n - 1, depth + 1);
      var e := Elem("", Nest(n - 1), "");
      assert [e][1..] == [];
      assert ElemText(e, "]") == PrintNode(Nest(n - 1)) + "]";
      assert "[" + ((Open(n - 1) + Close(n - 1)) + "]") == ("[" + Open(n - 1)) + (Close(n - 1) + "]");
    } else {
      assert Open(1) == "[" && Close(1) == "]";
    }
  }

  lemma {:induction false} TooDeep(conv: Conversion, n: nat, rest: string, depth: nat)
    requires 0 < n && depth + n > 64 && depth <= 64
    ensures ReadValue(conv, Open(n) + rest, depth) == Bad(NestingTooDeep)
    decreases n
  {
    hide ReadObject, ReadString, ReadNumber;
    var s := Open(n) + rest;
    assert s[0] == '[' && s[1..] == Open(n - 1) + rest;
    if depth < 64 {
      TooDeep(conv, n - 1, rest, depth + 1);
      var t := Open(n - 1) + rest;
      assert t[0] == '[' && Skip(t) == t;
      assert ReadElem(conv, t, depth + 1) == Bad(NestingTooDeep);
      assert ReadElems(conv, t, depth + 1) == Bad(NestingTooDeep);
      assert ReadArray(conv, t, depth) == Bad(NestingTooDeep);
    }
  }

  /** Sixty-four containers may be open at once, and no more. */
  lemma {:induction false} NestingExactly(conv: Conversion, n: nat)
    requires 0 < n
    ensures ReadText(conv, Open(n) + Close(n)).Got? <==> n <= 64
    ensures n > 64 ==> ReadText(conv, Open(n) + Close(n)) == Bad(NestingTooDeep)
  {
    if n <= 64 {
      NestsIn(conv, n);
    } else {
      var text := Open(n) + Close(n);
      hide ReadValue;
      assert text[0] == '[' && Skip(text) == text;
      TooDeep(conv, n, Close(n), 0);
    }
  }

  lemma {:induction false} NestsIn(conv: Conversion, n: nat)
    requires 0 < n <= 64
    ensures ReadText(conv, Open(n) + Close(n)).Got?
  {
    hide ReadText, ValidNode, PrintNode;
    NestIsValid(conv, n, 0);
    NoSpace();
    var d := Document("", Nest(n), "");
    assert PrintDocument(d) == Open(n) + Close(n);
    ReadsExactlyTheGrammar(conv, Open(n) + Close(n), d);
  }
}
