/** The recursive-descent reader of JSON, as a function from the text still to be read to a
    syntax tree and the text after it, proved to accept exactly the grammar. */
module JsonReader {
  import opened Characters
  import opened JsonGrammar
  import opened Wrappers

  datatype Error =
    | UnexpectedEnd
    | UnexpectedToken
    | InvalidString
    | InvalidEscape
    | InvalidUnicode
    | InvalidNumber
    | NestingTooDeep

  datatype Read<+T> = Got(value: T, rest: string) | Bad(error: Error)

  // ---------- White space and digits ----------

  function Leading(s: string): string { s[..|s| - |Skip(s)|] }

  lemma {:induction false} SkipSplits(s: string)
    ensures s == Leading(s) + Skip(s) && AllSpace(Leading(s))
  {
    if s != [] && IsSpace(s[0]) {
      SkipSplits(s[1..]);
      assert Leading(s) == [s[0]] + Leading(s[1..]);
    }
  }

  lemma {:induction false} NoSpace()
    ensures AllSpace("")
  {}

  lemma {:induction false} SkipPrinted(w: string, r: string)
    requires AllSpace(w) && (r == [] || !IsSpace(r[0]))
    ensures Skip(w + r) == r && Leading(w + r) == w
  {
    if w == [] {
      assert w + r == r;
    } else {
      assert (w + r)[1..] == w[1..] + r;
      SkipPrinted(w[1..], r);
    }
  }

  function DigitCount(s: string): (n: nat)
    ensures n <= |s| && AllDigits(s[..n])
    ensures n < |s| ==> !IsDigit(s[n])
  {
    if s == [] || !IsDigit(s[0]) then 0
    else
      assert s[..1 + DigitCount(s[1..])] == [s[0]] + s[1..][..DigitCount(s[1..])];
      1 + DigitCount(s[1..])
  }

  predicate NoDigitFirst(r: string) { r == [] || !IsDigit(r[0]) }

  lemma {:induction false} DigitCountPrinted(d: string, r: string)
    requires AllDigits(d) && NoDigitFirst(r)
    ensures DigitCount(d + r) == |d|
  {
    if d == [] {
      assert d + r == r;
    } else {
      assert (d + r)[1..] == d[1..] + r;
      DigitCountPrinted(d[1..], r);
    }
  }

  lemma {:induction false} CutAt(a: string, b: string)
    ensures (a + b)[..|a|] == a && (a + b)[|a|..] == b
  {}

  // ---------- Strings ----------

  datatype PieceRead = Closed(rest: string) | Piece(piece: JsonGrammar.Piece, rest: string) | Wrong(error: Error)

  function NextPiece(s: string): (r: PieceRead)
    requires s != []
    ensures !r.Wrong? ==> |r.rest| < |s|
  {
    if s[0] == '"' then Closed(s[1..])
    else if s[0] < ' ' then Wrong(InvalidString)
    else if s[0] != '\\' then Piece(Raw(s[0]), s[1..])
    else if |s| == 1 then Wrong(UnexpectedEnd)
    else if s[1] == 'u' then CodePoint(s[2..])
    else if IsEscape(s[1]) then Piece(Escape(s[1]), s[2..])
    else Wrong(InvalidEscape)
  }

  /** After a backslash and a `u`. */
  function CodePoint(s: string): (r: PieceRead)
    ensures !r.Wrong? ==> |r.rest| < |s|
  {
    if |s| < 4 then Wrong(UnexpectedEnd)
    else if !IsHex4(s[..4]) then Wrong(InvalidUnicode)
    else if IsHigh(Hex4(s[..4])) then LowHalf(s[..4], s[4..])
    else if IsLow(Hex4(s[..4])) then Wrong(InvalidUnicode)
    else Piece(Unicode(s[..4]), s[4..])
  }

  function LowHalf(high: string, s: string): (r: PieceRead)
    ensures !r.Wrong? ==> |r.rest| < |s|
  {
    if |s| < 2 || s[0] != '\\' || s[1] != 'u' then Wrong(InvalidUnicode)
    else if |s| < 6 then Wrong(UnexpectedEnd)
    else if !IsHex4(s[2..6]) || !IsLow(Hex4(s[2..6])) then Wrong(InvalidUnicode)
    else Piece(Pair(high, s[2..6]), s[6..])
  }

  function ReadPieces(s: string): (r: Read<seq<JsonGrammar.Piece>>)
    ensures r.Got? ==> |r.rest| < |s|
    decreases |s|
  {
    if s == [] then Bad(UnexpectedEnd)
    else
      match NextPiece(s)
      case Closed(rest) => Got([], rest)
      case Wrong(e) => Bad(e)
      case Piece(p, rest) =>
        var more := ReadPieces(rest);
        if more.Bad? then Bad(more.error) else Got([p] + more.value, more.rest)
  }

  function ReadString(s: string): (r: Read<seq<JsonGrammar.Piece>>)
    ensures r.Got? ==> |r.rest| < |s|
  {
    if s == [] || s[0] != '"' then Bad(UnexpectedToken) else ReadPieces(s[1..])
  }

  lemma {:induction false} PieceSound(s: string)
    requires s != []
    ensures
      var r := NextPiece(s);
      && (r.Piece? ==> ValidPiece(r.piece) && s == PrintPiece(r.piece) + r.rest)
      && (r.Closed? ==> s == "\"" + r.rest)
  {
    hide CodePoint;
    if |s| > 1 && s[0] == '\\' && s[1] == 'u' {
      CodePointSound(s[2..]);
      assert s == ['\\', 'u'] + s[2..];
    }
  }

  lemma {:induction false} CodePointSound(s: string)
    ensures
      var r := CodePoint(s);
      !r.Closed? && (r.Piece? ==> ValidPiece(r.piece) && ['\\', 'u'] + s == PrintPiece(r.piece) + r.rest)
  {
    hide LowHalf;
    if |s| >= 4 && IsHex4(s[..4]) && IsHigh(Hex4(s[..4])) {
      LowHalfSound(s[..4], s[4..]);
    }
    if |s| >= 4 { assert s == s[..4] + s[4..]; }
  }

  lemma {:induction false} LowHalfSound(high: string, s: string)
    requires IsHex4(high) && IsHigh(Hex4(high))
    ensures
      var r := LowHalf(high, s);
      !r.Closed? && (r.Piece? ==> ValidPiece(r.piece) && ['\\', 'u'] + (high + s) == PrintPiece(r.piece) + r.rest)
  {
    var r := LowHalf(high, s);
    if r.Piece? {
      assert s == ['\\', 'u'] + (s[2..6] + r.rest);
    }
  }

  lemma {:induction false} PieceComplete(p: JsonGrammar.Piece, r: string)
    requires ValidPiece(p)
    ensures NextPiece(PrintPiece(p) + r) == Piece(p, r)
  {
    var s := PrintPiece(p) + r;
    match p
    case Raw(c) => assert s[1..] == r;
    case Escape(c) => assert s[2..] == r;
    case Unicode(h) => assert s[2..][..4] == h && s[2..][4..] == r;
    case Pair(h, l) =>
      var t := s[2..];
      assert t[..4] == h;
      var u := t[4..];
      assert u[2..6] == l && u[6..] == r && u[0] == '\\' && u[1] == 'u';
  }

  lemma {:induction false} PiecesSound(s: string)
    ensures
      var r := ReadPieces(s);
      r.Got? ==> ValidPieces(r.value) && s == PrintPieces(r.value) + ("\"" + r.rest)
    decreases |s|
  {
    hide NextPiece, ValidPiece, PrintPiece;
    var r := ReadPieces(s);
    if r.Got? {
      PieceSound(s);
      if NextPiece(s).Piece? {
        var p, rest := NextPiece(s).piece, NextPiece(s).rest;
        var more := ReadPieces(rest).value;
        PiecesSound(rest);
        assert r.value == [p] + more;
        assert r.value[1..] == more;
        Grouped(PrintPiece(p), PrintPieces(more), "\"" + r.rest);
      } else {
        assert r.value == [];
        assert "" + ("\"" + r.rest) == "\"" + r.rest;
      }
    }
  }

  lemma {:induction false} Grouped(a: string, b: string, c: string)
    ensures a + (b + c) == (a + b) + c
  {}

  lemma {:induction false} PiecesComplete(ps: seq<JsonGrammar.Piece>, r: string)
    requires ValidPieces(ps)
    ensures ReadPieces(PrintPieces(ps) + ("\"" + r)) == Got(ps, r)
  {
    hide NextPiece, ValidPiece, PrintPiece;
    var q := "\"" + r;
    if ps == [] {
      assert PrintPieces(ps) + q == q;
      QuoteCloses(r);
    } else {
      var rest := PrintPieces(ps[1..]) + q;
      assert PrintPieces(ps) + q == PrintPiece(ps[0]) + rest;
      PieceComplete(ps[0], rest);
      PieceTakesSpace(ps[0]);
      PiecesComplete(ps[1..], r);
      assert [ps[0]] + ps[1..] == ps;
    }
  }

  lemma {:induction false} PieceTakesSpace(p: JsonGrammar.Piece)
    ensures PrintPiece(p) != []
  {}

  lemma {:induction false} QuoteCloses(r: string)
    ensures NextPiece("\"" + r) == Closed(r)
  {
    assert ("\"" + r)[1..] == r;
  }

  lemma {:induction false} StringSound(s: string)
    ensures
      var r := ReadString(s);
      r.Got? ==> ValidPieces(r.value) && s == PrintString(r.value) + r.rest
  {
    if s != [] && s[0] == '"' {
      PiecesSound(s[1..]);
      var r := ReadString(s);
      if r.Got? {
        assert s == "\"" + (PrintPieces(r.value) + ("\"" + r.rest));
        assert PrintString(r.value) + r.rest == "\"" + (PrintPieces(r.value) + ("\"" + r.rest));
      }
    }
  }

  lemma {:induction false} StringComplete(ps: seq<JsonGrammar.Piece>, r: string)
    requires ValidPieces(ps)
    ensures ReadString(PrintString(ps) + r) == Got(ps, r)
  {
    hide ReadPieces, PrintPieces;
    var s := PrintString(ps) + r;
    assert s[0] == '"' && s[1..] == PrintPieces(ps) + ("\"" + r);
    PiecesComplete(ps, r);
  }

  // ---------- Numbers ----------

  function WholeLength(s: string): (n: Option<nat>)
    ensures n.Some? ==> n.value <= |s| && ValidWhole(s[..n.value])
  {
    if s != [] && s[0] == '0' then if |s| > 1 && IsDigit(s[1]) then None else Some(1)
    else if DigitCount(s) == 0 then None
    else Some(DigitCount(s))
  }

  function FractionLength(s: string): (n: Option<nat>)
    ensures n.Some? ==> n.value <= |s| && ValidFraction(s[..n.value])
  {
    if s == [] || s[0] != '.' then Some(0)
    else if DigitCount(s[1..]) == 0 then None
    else
      var n := 1 + DigitCount(s[1..]);
      assert s[..n][1..] == s[1..][..n - 1];
      Some(n)
  }

  function ExponentLength(s: string): (n: Option<nat>)
    ensures n.Some? ==> n.value <= |s| && ValidExponent(s[..n.value])
  {
    if s == [] || (s[0] != 'e' && s[0] != 'E') then Some(0)
    else
      var t := s[1..];
      var sign := |t| - |AfterSign(t)|;
      var n := DigitCount(AfterSign(t));
      if n == 0 then None
      else
        assert AfterSign(s[..1 + sign + n][1..]) == AfterSign(t)[..n];
        Some(1 + sign + n)
  }

  function ReadNumeral(s: string): Read<Numeral> {
    if s != [] && s[0] == '-' then ReadUnsigned(true, s[1..]) else ReadUnsigned(false, s)
  }

  function ReadUnsigned(minus: bool, t: string): Read<Numeral> {
    var w := WholeLength(t);
    if w.None? then Bad(InvalidNumber)
    else
      var u := t[w.value..];
      var f := FractionLength(u);
      if f.None? then Bad(InvalidNumber)
      else
        var v := u[f.value..];
        var e := ExponentLength(v);
        if e.None? then Bad(InvalidNumber)
        else Got(Numeral(minus, t[..w.value], u[..f.value], v[..e.value]), v[e.value..])
  }

  lemma {:induction false} JoinFour(a: string, b: string, c: string, d: string, r: string)
    ensures (a + (b + (c + d))) + r == a + (b + (c + (d + r)))
  {}

  lemma {:induction false} Rejoined(s: string, n: nat)
    requires n <= |s|
    ensures s == s[..n] + s[n..]
  {}

  lemma {:induction false} NumeralSound(s: string)
    ensures
      var r := ReadNumeral(s);
      r.Got? ==> ValidNumeral(r.value) && s == r.value.Text() + r.rest && |r.rest| < |s|
  {
    hide ValidWhole, ValidFraction, ValidExponent, WholeLength, FractionLength, ExponentLength;
    var r := ReadNumeral(s);
    if r.Got? {
      var x := r.value;
      var sign := if x.minus then "-" else "";
      var t := if x.minus then s[1..] else s;
      var u := t[|x.whole|..];
      var v := u[|x.fraction|..];
      Rejoined(t, |x.whole|);
      Rejoined(u, |x.fraction|);
      Rejoined(v, |x.exponent|);
      assert s == sign + t;
      JoinFour(sign, x.whole, x.fraction, x.exponent, r.rest);
      WholeNotEmpty(x.whole);
    }
  }

  lemma {:induction false} WholeNotEmpty(w: string)
    ensures ValidWhole(w) ==> w != [] && IsDigit(w[0])
  {}

  /** What may follow a value inside a text. */
  predicate Follows(r: string) { r == [] || IsSpace(r[0]) || r[0] == ',' || r[0] == ']' || r[0] == '}' }

  lemma {:induction false} WholeComplete(w: string, r: string)
    requires ValidWhole(w) && NoDigitFirst(r)
    ensures WholeLength(w + r) == Some(|w|)
  {
    DigitCountPrinted(w, r);
    if |w + r| > 1 && |w| == 1 { assert (w + r)[1] == r[0]; }
  }

  lemma {:induction false} FractionComplete(f: string, r: string)
    requires ValidFraction(f) && NoDigitFirst(r) && (f == "" ==> r == [] || r[0] != '.')
    ensures FractionLength(f + r) == Some(|f|)
  {
    if f == "" {
      assert f + r == r;
    } else {
      assert (f + r)[1..] == f[1..] + r;
      DigitCountPrinted(f[1..], r);
    }
  }

  lemma {:induction false} ExponentComplete(e: string, r: string)
    requires ValidExponent(e) && NoDigitFirst(r) && (e == "" ==> r == [] || (r[0] != 'e' && r[0] != 'E'))
    ensures ExponentLength(e + r) == Some(|e|)
  {
    if e == "" {
      assert e + r == r;
    } else {
      var t := (e + r)[1..];
      assert t == e[1..] + r;
      assert AfterSign(t) == AfterSign(e[1..]) + r;
      DigitCountPrinted(AfterSign(e[1..]), r);
    }
  }

  lemma {:induction false} NumeralComplete(x: Numeral, r: string)
    requires ValidNumeral(x) && Follows(r)
    ensures ReadNumeral(x.Text() + r) == Got(x, r)
  {
    hide ReadUnsigned, ValidWhole, ValidFraction, ValidExponent;
    var t := x.whole + (x.fraction + (x.exponent + r));
    var sign := if x.minus then "-" else "";
    JoinFour(sign, x.whole, x.fraction, x.exponent, r);
    UnsignedComplete(x, r);
    WholeNotEmpty(x.whole);
    assert t[0] == x.whole[0];
    CutAt(sign, t);
    assert !x.minus ==> sign + t == t;
  }

  lemma {:induction false} UnsignedComplete(x: Numeral, r: string)
    requires ValidNumeral(x) && Follows(r)
    ensures ReadUnsigned(x.minus, x.whole + (x.fraction + (x.exponent + r))) == Got(x, r)
  {
    hide ValidWhole, ValidFraction, ValidExponent, WholeLength, FractionLength, ExponentLength;
    var v := x.exponent + r;
    var u := x.fraction + v;
    FollowsNumber(r);
    ExponentStarts(x.exponent, r);
    FractionStarts(x.fraction, v);
    ExponentComplete(x.exponent, r);
    FractionComplete(x.fraction, v);
    WholeComplete(x.whole, u);
    CutAt(x.whole, u);
    CutAt(x.fraction, v);
    CutAt(x.exponent, r);
  }

  lemma {:induction false} FollowsNumber(r: string)
    requires Follows(r)
    ensures NoDigitFirst(r) && (r == [] || r[0] !in ".eE")
  {}

  lemma {:induction false} ExponentStarts(e: string, r: string)
    requires ValidExponent(e) && NoDigitFirst(r) && (r == [] || r[0] != '.')
    ensures NoDigitFirst(e + r) && (e + r == [] || (e + r)[0] != '.')
  {
    if e == "" { assert e + r == r; }
  }

  lemma {:induction false} FractionStarts(f: string, r: string)
    requires ValidFraction(f) && NoDigitFirst(r)
    ensures NoDigitFirst(f + r)
  {
    if f == "" { assert f + r == r; }
  }

  function ReadNumber(conv: Conversion, s: string): (r: Read<Node>) {
    var x := ReadNumeral(s);
    if x.Bad? then Bad(x.error)
    else if Representable(conv, x.value) then Got(NNumber(x.value), x.rest)
    else Bad(InvalidNumber)
  }

  // ---------- Values ----------

  function ReadLiteral(word: string, node: Node, s: string): Read<Node> {
    if word <= s then Got(node, s[|word|..]) else Bad(UnexpectedToken)
  }

  /** A value that starts at the first byte, with `depth` containers open around it. */
  function ReadValue(conv: Conversion, s: string, depth: nat): (r: Read<Node>)
    ensures r.Got? ==> |r.rest| < |s|
    decreases |s|, 0
  {
    if s == [] then Bad(UnexpectedEnd)
    else if s[0] == '{' then if depth >= MAX_JSON_DEPTH then Bad(NestingTooDeep) else ReadObject(conv, s[1..], depth)
    else if s[0] == '[' then if depth >= MAX_JSON_DEPTH then Bad(NestingTooDeep) else ReadArray(conv, s[1..], depth)
    else if s[0] == '"' then
      var text := ReadString(s);
      if text.Bad? then Bad(text.error) else Got(NString(text.value), text.rest)
    else if s[0] == 't' then ReadLiteral("true", NTrue, s)
    else if s[0] == 'f' then ReadLiteral("false", NFalse, s)
    else if s[0] == 'n' then ReadLiteral("null", NNull, s)
    else if s[0] == '-' || IsDigit(s[0]) then
      NumberShortens(conv, s);
      ReadNumber(conv, s)
    else Bad(UnexpectedToken)
  }

  /** An array after its opening bracket. */
  function ReadArray(conv: Conversion, s: string, depth: nat): (r: Read<Node>)
    ensures r.Got? ==> |r.rest| < |s|
    decreases |s|, 3
  {
    if Skip(s) != [] && Skip(s)[0] == ']' then Got(NArray(Leading(s), []), Skip(s)[1..])
    else
      var elems := ReadElems(conv, s, depth + 1);
      if elems.Bad? then Bad(elems.error) else Got(NArray("", elems.value), elems.rest)
  }

  /** An object after its opening bracket. */
  function ReadObject(conv: Conversion, s: string, depth: nat): (r: Read<Node>)
    ensures r.Got? ==> |r.rest| < |s|
    decreases |s|, 3
  {
    if Skip(s) != [] && Skip(s)[0] == '}' then Got(NObject(Leading(s), []), Skip(s)[1..])
    else
      var fields := ReadFields(conv, s, depth + 1);
      if fields.Bad? then Bad(fields.error) else Got(NObject("", fields.value), fields.rest)
  }

  /** One element with the white space around it. */
  function ReadElem(conv: Conversion, s: string, depth: nat): (r: Read<Elem>)
    ensures r.Got? ==> |r.rest| < |s|
    decreases |s|, 1
  {
    var v := ReadValue(conv, Skip(s), depth);
    if v.Bad? then Bad(v.error) else Got(Elem(Leading(s), v.value, Leading(v.rest)), Skip(v.rest))
  }

  /** The elements up to the bracket that closes the array. */
  function ReadElems(conv: Conversion, s: string, depth: nat): (r: Read<seq<Elem>>)
    ensures r.Got? ==> |r.rest| < |s|
    decreases |s|, 2
  {
    var e := ReadElem(conv, s, depth);
    if e.Bad? then Bad(e.error)
    else if e.rest == [] then Bad(UnexpectedToken)
    else if e.rest[0] == ']' then Got([e.value], e.rest[1..])
    else if e.rest[0] != ',' then Bad(UnexpectedToken)
    else
      var more := ReadElems(conv, e.rest[1..], depth);
      if more.Bad? then Bad(more.error) else Got([e.value] + more.value, more.rest)
  }

  /** A key with the white space around it, up to and including the colon. */
  datatype KeyPart = KeyPart(before: string, key: seq<JsonGrammar.Piece>, afterKey: string)

  function ReadKey(s: string): (r: Read<KeyPart>)
    ensures r.Got? ==> |r.rest| < |s|
  {
    if Skip(s) == [] then Bad(UnexpectedEnd)
    else
      var key := ReadString(Skip(s));
      if key.Bad? then Bad(key.error)
      else if Skip(key.rest) == [] || Skip(key.rest)[0] != ':' then Bad(UnexpectedToken)
      else Got(KeyPart(Leading(s), key.value, Leading(key.rest)), Skip(key.rest)[1..])
  }

  function ReadField(conv: Conversion, s: string, depth: nat): (r: Read<Field>)
    ensures r.Got? ==> |r.rest| < |s|
    decreases |s|, 1
  {
    var k := ReadKey(s);
    if k.Bad? then Bad(k.error)
    else
      var v := ReadValue(conv, Skip(k.rest), depth);
      if v.Bad? then Bad(v.error)
      else
        Got(Field(k.value.before, k.value.key, k.value.afterKey, Leading(k.rest), v.value, Leading(v.rest)),
            Skip(v.rest))
  }

  function ReadFields(conv: Conversion, s: string, depth: nat): (r: Read<seq<Field>>)
    ensures r.Got? ==> |r.rest| < |s|
    decreases |s|, 2
  {
    var f := ReadField(conv, s, depth);
    if f.Bad? then Bad(f.error)
    else if f.rest == [] then Bad(UnexpectedToken)
    else if f.rest[0] == '}' then Got([f.value], f.rest[1..])
    else if f.rest[0] != ',' then Bad(UnexpectedToken)
    else
      var more := ReadFields(conv, f.rest[1..], depth);
      if more.Bad? then Bad(more.error) else Got([f.value] + more.value, more.rest)
  }

  /** A whole text: one value and nothing but white space around it. */
  function ReadText(conv: Conversion, text: string): Read<Document> {
    var v := ReadValue(conv, Skip(text), 0);
    if v.Bad? then Bad(v.error)
    else if Skip(v.rest) != [] then Bad(UnexpectedToken)
    else Got(Document(Leading(text), v.value, Leading(v.rest)), [])
  }

  lemma {:induction false} NumberShortens(conv: Conversion, s: string)
    ensures
      var r := ReadNumber(conv, s);
      r.Got? ==>
        |r.rest| < |s| && r.value.NNumber? && ValidNode(conv, r.value, 0) && s == PrintNode(r.value) + r.rest
  {
    hide ReadNumeral;
    NumeralSound(s);
  }

  // ---------- Everything read is a text of the grammar ----------

  lemma {:induction false} LiteralSound(word: string, node: Node, s: string)
    ensures
      var r := ReadLiteral(word, node, s);
      r.Got? ==> r.value == node && s == word + r.rest
  {}

  lemma {:induction false} ValueSound(conv: Conversion, s: string, depth: nat)
    ensures
      var r := ReadValue(conv, s, depth);
      r.Got? ==> ValidNode(conv, r.value, depth) && s == PrintNode(r.value) + r.rest
    decreases |s|, 0
  {
    hide ReadArray, ReadObject, PrintElems, PrintFields, ReadNumber, ReadString, ReadNumeral, ReadLiteral;
    hide ValidNumeral, Representable, ValidPieces, PrintString, Numeral.Text;
    var r := ReadValue(conv, s, depth);
    if r.Got? {
      if s[0] == '{' {
        ObjectSound(conv, s[1..], depth);
      } else if s[0] == '[' {
        ArraySound(conv, s[1..], depth);
      } else if s[0] == '"' {
        StringSound(s);
      } else if s[0] == 't' {
        LiteralSound("true", NTrue, s);
      } else if s[0] == 'f' {
        LiteralSound("false", NFalse, s);
      } else if s[0] == 'n' {
        LiteralSound("null", NNull, s);
      } else {
        NumberShortens(conv, s);
      }
    }
  }

  lemma {:induction false} Bracketed(a: string, b: string, c: string, d: string)
    ensures a + (b + (c + d)) == (a + (b + c)) + d
  {}

  lemma {:induction false} EmptyArray(conv: Conversion, gap: string, depth: nat, rest: string)
    requires AllSpace(gap) && depth < MAX_JSON_DEPTH
    ensures
      var n := NArray(gap, []);
      ValidNode(conv, n, depth) && "[" + (gap + ("]" + rest)) == PrintNode(n) + rest
  {
    hide AllSpace;
    Bracketed("[", gap, "]", rest);
  }

  lemma {:induction false} FullArray(conv: Conversion, s: seq<Elem>, depth: nat, rest: string)
    requires s != [] && ValidElems(conv, s, depth + 1) && depth < MAX_JSON_DEPTH
    ensures
      var n := NArray("", s);
      ValidNode(conv, n, depth) && "[" + (PrintElems(s) + rest) == PrintNode(n) + rest
  {
    hide ValidElems, PrintElems;
    Grouped("[", PrintElems(s), rest);
    NoSpace();
  }

  lemma {:induction false} EmptyObject(conv: Conversion, gap: string, depth: nat, rest: string)
    requires AllSpace(gap) && depth < MAX_JSON_DEPTH
    ensures
      var n := NObject(gap, []);
      ValidNode(conv, n, depth) && "{" + (gap + ("}" + rest)) == PrintNode(n) + rest
  {
    hide AllSpace;
    Bracketed("{", gap, "}", rest);
  }

  lemma {:induction false} FullObject(conv: Conversion, s: seq<Field>, depth: nat, rest: string)
    requires s != [] && ValidFields(conv, s, depth + 1) && depth < MAX_JSON_DEPTH
    ensures
      var n := NObject("", s);
      ValidNode(conv, n, depth) && "{" + (PrintFields(s) + rest) == PrintNode(n) + rest
  {
    hide ValidFields, PrintFields;
    Grouped("{", PrintFields(s), rest);
    NoSpace();
  }

  lemma {:induction false} ArraySound(conv: Conversion, s: string, depth: nat)
    requires depth < MAX_JSON_DEPTH
    ensures
      var r := ReadArray(conv, s, depth);
      r.Got? ==> ValidNode(conv, r.value, depth) && "[" + s == PrintNode(r.value) + r.rest
    decreases |s|, 3
  {
    hide ReadElems, PrintElems, ValidElems, AllSpace, ValidNode, PrintNode, Skip, Leading;
    var r := ReadArray(conv, s, depth);
    var t := Skip(s);
    if t != [] && t[0] == ']' {
      var gap, rest := Leading(s), t[1..];
      SkipSplits(s);
      assert t == "]" + rest;
      assert s == gap + ("]" + rest);
      EmptyArray(conv, gap, depth, rest);
      assert r == Got(NArray(gap, []), rest);
    } else if r.Got? {
      ElemsSound(conv, s, depth + 1);
      FullArray(conv, r.value.elems, depth, r.rest);
    }
  }

  lemma {:induction false} ElemSound(conv: Conversion, s: string, depth: nat)
    ensures
      var r := ReadElem(conv, s, depth);
      r.Got? ==> ValidElem(conv, r.value, depth) && s == ElemText(r.value, r.rest)
    decreases |s|, 1
  {
    hide ReadValue, ValidNode, PrintNode, AllSpace;
    var v := ReadValue(conv, Skip(s), depth);
    SkipSplits(s);
    ValueSound(conv, Skip(s), depth);
    if v.Got? { SkipSplits(v.rest); }
  }

  lemma {:induction false} ElemTextJoins(e: Elem, a: string, b: string)
    ensures ElemText(e, a) + b == ElemText(e, a + b)
  {
    hide PrintNode;
    Grouped(e.after, a, b);
    Grouped(PrintNode(e.node), e.after + a, b);
    Grouped(e.before, PrintNode(e.node) + (e.after + a), b);
  }

  lemma {:induction false} ElemsSound(conv: Conversion, s: string, depth: nat)
    ensures
      var r := ReadElems(conv, s, depth);
      r.Got? ==> r.value != [] && ValidElems(conv, r.value, depth) && s == PrintElems(r.value) + r.rest
    decreases |s|, 2
  {
    hide ReadElem, ValidElem, ElemText;
    var r := ReadElems(conv, s, depth);
    if r.Got? {
      var e := ReadElem(conv, s, depth);
      ElemSound(conv, s, depth);
      assert e.rest == [e.rest[0]] + e.rest[1..];
      if e.rest[0] == ']' {
        assert r.value == [e.value];
        ElemTextJoins(e.value, "]", r.rest);
      } else {
        var more := ReadElems(conv, e.rest[1..], depth).value;
        ElemsSound(conv, e.rest[1..], depth);
        assert r.value == [e.value] + more && r.value[1..] == more;
        Grouped(",", PrintElems(more), r.rest);
        ElemTextJoins(e.value, "," + PrintElems(more), r.rest);
      }
    }
  }

  lemma {:induction false} ObjectSound(conv: Conversion, s: string, depth: nat)
    requires depth < MAX_JSON_DEPTH
    ensures
      var r := ReadObject(conv, s, depth);
      r.Got? ==> ValidNode(conv, r.value, depth) && "{" + s == PrintNode(r.value) + r.rest
    decreases |s|, 3
  {
    hide ReadFields, PrintFields, ValidFields, AllSpace, ValidNode, PrintNode, Skip, Leading;
    var r := ReadObject(conv, s, depth);
    var t := Skip(s);
    if t != [] && t[0] == '}' {
      var gap, rest := Leading(s), t[1..];
      SkipSplits(s);
      assert t == "}" + rest;
      assert s == gap + ("}" + rest);
      EmptyObject(conv, gap, depth, rest);
      assert r == Got(NObject(gap, []), rest);
    } else if r.Got? {
      FieldsSound(conv, s, depth + 1);
      FullObject(conv, r.value.fields, depth, r.rest);
    }
  }

  lemma {:induction false} KeySound(s: string)
    ensures
      var r := ReadKey(s);
      r.Got? ==>
        && AllSpace(r.value.before) && ValidPieces(r.value.key) && AllSpace(r.value.afterKey)
        && s == KeyText(r.value.before, r.value.key, r.value.afterKey, r.rest)
  {
    hide ReadString, ValidPieces, PrintString, AllSpace;
    var r := ReadKey(s);
    if r.Got? {
      var key := ReadString(Skip(s));
      SkipSplits(s);
      StringSound(Skip(s));
      SkipSplits(key.rest);
      assert Skip(key.rest) == ":" + r.rest;
    }
  }

  lemma {:induction false} FieldSound(conv: Conversion, s: string, depth: nat)
    ensures
      var r := ReadField(conv, s, depth);
      r.Got? ==> ValidField(conv, r.value, depth) && s == FieldText(r.value, r.rest)
    decreases |s|, 1
  {
    hide ReadValue, ReadKey, KeyText, ValidNode, PrintNode, AllSpace, ValidPieces;
    var k := ReadKey(s);
    KeySound(s);
    if k.Got? {
      var v := ReadValue(conv, Skip(k.rest), depth);
      SkipSplits(k.rest);
      ValueSound(conv, Skip(k.rest), depth);
      if v.Got? { SkipSplits(v.rest); }
    }
  }

  lemma {:induction false} KeyTextJoins(
      before: string, key: seq<JsonGrammar.Piece>, after: string, a: string, b: string)
    ensures KeyText(before, key, after, a) + b == KeyText(before, key, after, a + b)
  {
    hide PrintString;
    Grouped(":", a, b);
    Grouped(after, ":" + a, b);
    Grouped(PrintString(key), after + (":" + a), b);
    Grouped(before, PrintString(key) + (after + (":" + a)), b);
  }

  lemma {:induction false} FieldTextJoins(f: Field, a: string, b: string)
    ensures FieldText(f, a) + b == FieldText(f, a + b)
  {
    hide PrintNode, KeyText;
    Grouped(f.after, a, b);
    Grouped(PrintNode(f.node), f.after + a, b);
    Grouped(f.beforeNode, PrintNode(f.node) + (f.after + a), b);
    KeyTextJoins(f.before, f.key, f.afterKey, f.beforeNode + (PrintNode(f.node) + (f.after + a)), b);
  }

  lemma {:induction false} FieldsSound(conv: Conversion, s: string, depth: nat)
    ensures
      var r := ReadFields(conv, s, depth);
      r.Got? ==> r.value != [] && ValidFields(conv, r.value, depth) && s == PrintFields(r.value) + r.rest
    decreases |s|, 2
  {
    hide ReadField, ValidField, FieldText;
    var r := ReadFields(conv, s, depth);
    if r.Got? {
      var f := ReadField(conv, s, depth);
      FieldSound(conv, s, depth);
      assert f.rest == [f.rest[0]] + f.rest[1..];
      if f.rest[0] == '}' {
        assert r.value == [f.value];
        FieldTextJoins(f.value, "}", r.rest);
      } else {
        var more := ReadFields(conv, f.rest[1..], depth).value;
        FieldsSound(conv, f.rest[1..], depth);
        assert r.value == [f.value] + more && r.value[1..] == more;
        Grouped(",", PrintFields(more), r.rest);
        FieldTextJoins(f.value, "," + PrintFields(more), r.rest);
      }
    }
  }

  // ---------- Every text of the grammar is read ----------

  lemma {:induction false} NodeStarts(conv: Conversion, n: Node, depth: nat)
    requires ValidNode(conv, n, depth)
    ensures PrintNode(n) != [] && !IsSpace(PrintNode(n)[0]) && PrintNode(n)[0] !in "]}"
  {
    hide PrintElems, PrintFields, PrintString, ValidElems, ValidFields, Representable, ValidPieces;
    if n.NNumber? {
      WholeNotEmpty(n.x.whole);
      assert n.x.Text()[0] == (if n.x.minus then '-' else n.x.whole[0]);
    } else if n.NString? {
      QuoteFirst(n.s);
    }
  }

  lemma {:induction false} QuoteFirst(s: seq<JsonGrammar.Piece>)
    ensures PrintString(s) != [] && PrintString(s)[0] == '"'
  {}

  lemma {:induction false} LiteralComplete(word: string, node: Node, r: string)
    ensures ReadLiteral(word, node, word + r) == Got(node, r)
  {
    CutAt(word, r);
  }

  lemma {:induction false} ValueComplete(conv: Conversion, n: Node, depth: nat, r: string)
    requires ValidNode(conv, n, depth) && Follows(r)
    ensures ReadValue(conv, PrintNode(n) + r, depth) == Got(n, r)
    decreases n, 3
  {
    hide ReadArray, ReadObject, PrintElems, PrintFields, ReadNumber, ReadString, ReadNumeral, ReadLiteral;
    hide ValidNumeral, Representable, ValidPieces, PrintString, Numeral.Text, ValidElems, ValidFields;
    NodeStarts(conv, n, depth);
    var s := PrintNode(n) + r;
    assert s[0] == PrintNode(n)[0];
    match n
    case NNull => LiteralComplete("null", NNull, r);
    case NTrue => LiteralComplete("true", NTrue, r);
    case NFalse => LiteralComplete("false", NFalse, r);
    case NNumber(x) => NumberComplete(conv, x, r);
    case NString(ps) =>
      QuoteFirst(ps);
      StringComplete(ps, r);
    case NArray(gap, elems) =>
      ArrayComplete(conv, n, depth, r);
    case NObject(gap, fields) =>
      ObjectComplete(conv, n, depth, r);
  }

  lemma {:induction false} NumberComplete(conv: Conversion, x: Numeral, r: string)
    requires ValidNumeral(x) && Representable(conv, x) && Follows(r)
    ensures
      && ReadNumber(conv, x.Text() + r) == Got(NNumber(x), r)
      && x.Text() != [] && (x.Text()[0] == '-' || IsDigit(x.Text()[0]))
  {
    hide ReadNumeral, Representable;
    NumeralComplete(x, r);
    WholeNotEmpty(x.whole);
    assert x.Text()[0] == (if x.minus then '-' else x.whole[0]);
  }

  lemma {:induction false} ArrayComplete(conv: Conversion, n: Node, depth: nat, r: string)
    requires n.NArray? && ValidNode(conv, n, depth)
    ensures PrintNode(n) + r != [] && (PrintNode(n) + r)[0] == '['
    ensures ReadArray(conv, (PrintNode(n) + r)[1..], depth) == Got(n, r)
    decreases n, 0
  {
    hide ReadElems, PrintElems, ValidElems;
    var body := if n.elems == [] then n.gap + "]" else PrintElems(n.elems);
    var s := body + r;
    Grouped("[", body, r);
    assert ("[" + s)[1..] == s;
    if n.elems == [] {
      var t := "]" + r;
      Grouped(n.gap, "]", r);
      SkipPrinted(n.gap, t);
      assert t[1..] == r;
    } else {
      ElemsStart(conv, n.elems, depth + 1, r);
      ElemsComplete(conv, n.elems, depth + 1, r);
    }
  }

  lemma {:induction false} ElemStarts(conv: Conversion, e: Elem, depth: nat, tail: string)
    requires ValidElem(conv, e, depth)
    ensures
      var body := PrintNode(e.node) + (e.after + tail);
      && Skip(ElemText(e, tail)) == body && Leading(ElemText(e, tail)) == e.before
      && body != [] && !IsSpace(body[0]) && body[0] !in "]}"
  {
    hide PrintNode, ValidNode;
    var body := PrintNode(e.node) + (e.after + tail);
    NodeStarts(conv, e.node, depth);
    assert body[0] == PrintNode(e.node)[0];
    SkipPrinted(e.before, body);
  }

  lemma {:induction false} ElemsStart(conv: Conversion, s: seq<Elem>, depth: nat, r: string)
    requires s != [] && ValidElems(conv, s, depth)
    ensures var t := Skip(PrintElems(s) + r); t != [] && t[0] != ']'
  {
    hide ElemText, ValidElem;
    var tail := if |s| == 1 then "]" else "," + PrintElems(s[1..]);
    ElemTextJoins(s[0], tail, r);
    ElemStarts(conv, s[0], depth, tail + r);
  }

  lemma {:induction false} ElemComplete(conv: Conversion, e: Elem, depth: nat, tail: string)
    requires ValidElem(conv, e, depth) && tail != [] && tail[0] in ",]}"
    ensures ReadElem(conv, ElemText(e, tail), depth) == Got(e, tail)
    decreases e, 1
  {
    hide ReadValue, PrintNode, ElemText;
    var q := e.after + tail;
    ElemStarts(conv, e, depth, tail);
    AfterFollows(e.after, tail);
    SkipPrinted(e.after, tail);
    ValueComplete(conv, e.node, depth, q);
  }

  lemma {:induction false} AfterFollows(w: string, tail: string)
    requires AllSpace(w) && Follows(tail)
    ensures Follows(w + tail)
  {
    if w == [] { assert w + tail == tail; }
  }

  lemma {:induction false} ElemsComplete(conv: Conversion, s: seq<Elem>, depth: nat, r: string)
    requires s != [] && ValidElems(conv, s, depth)
    ensures ReadElems(conv, PrintElems(s) + r, depth) == Got(s, r)
    decreases s, 2
  {
    hide ReadElem, ElemText, ValidElem;
    var tail := if |s| == 1 then "]" else "," + PrintElems(s[1..]);
    ElemTextJoins(s[0], tail, r);
    var t := tail + r;
    ElemComplete(conv, s[0], depth, t);
    if |s| == 1 {
      assert t[1..] == r;
      assert s == [s[0]];
    } else {
      Grouped(",", PrintElems(s[1..]), r);
      assert t[1..] == PrintElems(s[1..]) + r;
      ElemsComplete(conv, s[1..], depth, r);
      assert s == [s[0]] + s[1..];
    }
  }

  lemma {:induction false} ObjectComplete(conv: Conversion, n: Node, depth: nat, r: string)
    requires n.NObject? && ValidNode(conv, n, depth)
    ensures PrintNode(n) + r != [] && (PrintNode(n) + r)[0] == '{'
    ensures ReadObject(conv, (PrintNode(n) + r)[1..], depth) == Got(n, r)
    decreases n, 0
  {
    hide ReadFields, PrintFields, ValidFields;
    var body := if n.fields == [] then n.gap + "}" else PrintFields(n.fields);
    var s := body + r;
    Grouped("{", body, r);
    assert ("{" + s)[1..] == s;
    if n.fields == [] {
      var t := "}" + r;
      Grouped(n.gap, "}", r);
      SkipPrinted(n.gap, t);
      assert t[1..] == r;
    } else {
      FieldsStart(conv, n.fields, depth + 1, r);
      FieldsComplete(conv, n.fields, depth + 1, r);
    }
  }

  lemma {:induction false} KeyComplete(before: string, key: seq<JsonGrammar.Piece>, after: string, tail: string)
    requires AllSpace(before) && ValidPieces(key) && AllSpace(after)
    ensures ReadKey(KeyText(before, key, after, tail)) == Got(KeyPart(before, key, after), tail)
    ensures
      var t := Skip(KeyText(before, key, after, tail));
      t != [] && t[0] == '"'
  {
    hide ReadString, PrintString, ValidPieces;
    var colon := ":" + tail;
    var q := after + colon;
    var body := PrintString(key) + q;
    QuoteFirst(key);
    assert body[0] == '"';
    SkipPrinted(before, body);
    StringComplete(key, q);
    SkipPrinted(after, colon);
    assert colon[1..] == tail;
  }

  lemma {:induction false} FieldsStart(conv: Conversion, s: seq<Field>, depth: nat, r: string)
    requires s != [] && ValidFields(conv, s, depth)
    ensures var t := Skip(PrintFields(s) + r); t != [] && t[0] != '}'
  {
    hide KeyText;
    var tail := if |s| == 1 then "}" else "," + PrintFields(s[1..]);
    var f := s[0];
    FieldTextJoins(f, tail, r);
    assert ValidField(conv, f, depth);
    KeyComplete(f.before, f.key, f.afterKey, f.beforeNode + (PrintNode(f.node) + (f.after + (tail + r))));
  }

  lemma {:induction false} FieldComplete(conv: Conversion, f: Field, depth: nat, tail: string)
    requires ValidField(conv, f, depth) && tail != [] && tail[0] in ",]}"
    ensures ReadField(conv, FieldText(f, tail), depth) == Got(f, tail)
    decreases f, 1
  {
    hide ReadValue, PrintNode, ReadKey, KeyText;
    var q := f.after + tail;
    var body := PrintNode(f.node) + q;
    KeyComplete(f.before, f.key, f.afterKey, f.beforeNode + body);
    NodeStarts(conv, f.node, depth);
    assert body[0] == PrintNode(f.node)[0];
    SkipPrinted(f.beforeNode, body);
    AfterFollows(f.after, tail);
    SkipPrinted(f.after, tail);
    ValueComplete(conv, f.node, depth, q);
  }

  lemma {:induction false} FieldsComplete(conv: Conversion, s: seq<Field>, depth: nat, r: string)
    requires s != [] && ValidFields(conv, s, depth)
    ensures ReadFields(conv, PrintFields(s) + r, depth) == Got(s, r)
    decreases s, 2
  {
    hide ReadField, FieldText, ValidField;
    var tail := if |s| == 1 then "}" else "," + PrintFields(s[1..]);
    FieldTextJoins(s[0], tail, r);
    var t := tail + r;
    FieldComplete(conv, s[0], depth, t);
    if |s| == 1 {
      assert t[1..] == r;
      assert s == [s[0]];
    } else {
      Grouped(",", PrintFields(s[1..]), r);
      assert t[1..] == PrintFields(s[1..]) + r;
      FieldsComplete(conv, s[1..], depth, r);
      assert s == [s[0]] + s[1..];
    }
  }

  // ---------- The reader accepts exactly the grammar ----------

  /** The reader accepts a text exactly when it is the printed form of a valid document, and
      the document it returns is the only one: the grammar is unambiguous. */
  lemma {:induction false} ReadsExactlyTheGrammar(conv: Conversion, text: string, d: Document)
    ensures ReadText(conv, text) == Got(d, []) <==> ValidDocument(conv, d) && PrintDocument(d) == text
  {
    hide ReadValue, PrintNode, ValidNode;
    var v := ReadValue(conv, Skip(text), 0);
    if ReadText(conv, text).Got? {
      SkipSplits(text);
      ValueSound(conv, Skip(text), 0);
      SkipSplits(v.rest);
      assert v.rest == Leading(v.rest);
    }
    if ValidDocument(conv, d) && PrintDocument(d) == text {
      var body := PrintNode(d.node) + d.after;
      NodeStarts(conv, d.node, 0);
      assert body[0] == PrintNode(d.node)[0];
      SkipPrinted(d.before, body);
      SkipPrinted(d.after, []);
      assert d.after + [] == d.after;
      AfterFollows(d.after, []);
      ValueComplete(conv, d.node, 0, d.after);
    }
  }
}
