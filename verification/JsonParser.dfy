/** The event parser of server_engine/json/json_parser.cpp: a position that moves over the text,
    a recorded failure, and the events handed to the handler, in order. */
module JsonParser {
  import opened Characters
  import opened JsonGrammar
  import opened JsonReader
  import JsonText
  import opened Wrappers

  // ---------- Events of syntax trees ----------

  ghost function NodeEvents(conv: Conversion, n: Node, depth: nat): seq<Event>
    requires ValidNode(conv, n, depth)
  {
    Events(TreeOf(conv, n, depth))
  }

  ghost function ElemEvents(conv: Conversion, s: seq<Elem>, depth: nat): seq<Event>
    requires ValidElems(conv, s, depth)
  {
    EventsOfItems(ItemsOf(conv, s, depth))
  }

  ghost function FieldEvents(conv: Conversion, s: seq<Field>, depth: nat): seq<Event>
    requires ValidFields(conv, s, depth)
  {
    EventsOfMembers(MembersOf(conv, s, depth))
  }

  ghost function MemberEvents(conv: Conversion, f: Field, depth: nat): seq<Event>
    requires ValidField(conv, f, depth)
  {
    [Key(TextOf(f.key))] + NodeEvents(conv, f.node, depth)
  }

  // ---------- Events before an error ----------

  ghost function WholeEvents(conv: Conversion, n: Node, depth: nat): seq<Event> {
    if ValidNode(conv, n, depth) then NodeEvents(conv, n, depth) else []
  }

  /** What is emitted while reading a value that cannot be read to its end. */
  ghost function PartOfValue(conv: Conversion, s: string, depth: nat): seq<Event>
    decreases |s|, 0
  {
    if s == [] || depth >= MAX_JSON_DEPTH then []
    else if s[0] == '{' then [ObjectBegin] + PartOfFields(conv, s[1..], depth + 1)
    else if s[0] == '[' then [ArrayBegin] + PartOfElems(conv, s[1..], depth + 1)
    else []
  }

  ghost function PartOfElems(conv: Conversion, s: string, depth: nat): seq<Event>
    decreases |s|, 1
  {
    var e := ReadElem(conv, s, depth);
    if e.Bad? then PartOfValue(conv, Skip(s), depth)
    else
      WholeEvents(conv, e.value.node, depth) +
      if e.rest != [] && e.rest[0] == ',' then PartOfElems(conv, e.rest[1..], depth) else []
  }

  /** A key is emitted as soon as its string is read, before its colon. */
  ghost function PartOfKey(s: string): seq<Event> {
    var key := ReadString(Skip(s));
    if Skip(s) == [] || key.Bad? || !ValidPieces(key.value) then [] else [Key(TextOf(key.value))]
  }

  ghost function PartOfField(conv: Conversion, s: string, depth: nat): seq<Event>
    decreases |s|, 1
  {
    var k := ReadKey(s);
    PartOfKey(s) + if k.Bad? then [] else PartOfValue(conv, Skip(k.rest), depth)
  }

  ghost function PartOfFields(conv: Conversion, s: string, depth: nat): seq<Event>
    decreases |s|, 2
  {
    var f := ReadField(conv, s, depth);
    if f.Bad? then PartOfField(conv, s, depth)
    else
      (if ValidField(conv, f.value, depth) then MemberEvents(conv, f.value, depth) else []) +
      if f.rest != [] && f.rest[0] == ',' then PartOfFields(conv, f.rest[1..], depth) else []
  }

  /** What a handler has heard when reading a text has ended in an error. */
  ghost function PartOfText(conv: Conversion, text: string): seq<Event> {
    var v := ReadValue(conv, Skip(text), 0);
    if v.Bad? then PartOfValue(conv, Skip(text), 0) else WholeEvents(conv, v.value, 0)
  }

  /** What has been heard before an error is how the events of some value begin: a handler never
      hears anything that could not come from a value. */
  lemma {:induction false} PartBegins(conv: Conversion, s: string, depth: nat) returns (v: Json)
    ensures PartOfValue(conv, s, depth) <= Events(v)
    decreases |s|, 0
  {
    v := Null;
    if s != [] && depth < MAX_JSON_DEPTH && s[0] == '{' {
      var members := FieldsPartBegins(conv, s[1..], depth + 1);
      v := Obj(members);
    } else if s != [] && depth < MAX_JSON_DEPTH && s[0] == '[' {
      var items := ElemsPartBegins(conv, s[1..], depth + 1);
      v := Arr(items);
    }
  }

  lemma {:induction false} ElemsPartBegins(conv: Conversion, s: string, depth: nat) returns (items: seq<Json>)
    ensures PartOfElems(conv, s, depth) <= EventsOfItems(items)
    decreases |s|, 1
  {
    hide ReadElem, PartOfValue, Skip, Events;
    var e := ReadElem(conv, s, depth);
    if e.Bad? {
      var v := PartBegins(conv, Skip(s), depth);
      items := [v];
    } else {
      ElemSound(conv, s, depth);
      var more: seq<Json> := [];
      if e.rest != [] && e.rest[0] == ',' { more := ElemsPartBegins(conv, e.rest[1..], depth); }
      var v := TreeOf(conv, e.value.node, depth);
      ItemEventsCons(v, more);
      items := [v] + more;
    }
  }

  lemma {:induction false} FieldsPartBegins(conv: Conversion, s: string, depth: nat) returns (members: seq<Member>)
    ensures PartOfFields(conv, s, depth) <= EventsOfMembers(members)
    decreases |s|, 2
  {
    hide ReadField, PartOfField, Skip, Events;
    var f := ReadField(conv, s, depth);
    if f.Bad? {
      members := FieldPartBegins(conv, s, depth);
    } else {
      FieldSound(conv, s, depth);
      var more: seq<Member> := [];
      if f.rest != [] && f.rest[0] == ',' { more := FieldsPartBegins(conv, f.rest[1..], depth); }
      var m := MemberOf(conv, f.value, depth);
      MemberEventsCons(m, more);
      members := [m] + more;
    }
  }

  lemma {:induction false} FieldPartBegins(conv: Conversion, s: string, depth: nat) returns (members: seq<Member>)
    ensures PartOfField(conv, s, depth) <= EventsOfMembers(members)
    decreases |s|, 1
  {
    hide PartOfValue, Skip, Events, ReadString, ValidPieces, TextOf;
    members := [];
    KeySound(s);
    if PartOfKey(s) != [] {
      var v := Null;
      var k := ReadKey(s);
      if k.Got? { v := PartBegins(conv, Skip(k.rest), depth); }
      var m := Member(PartOfKey(s)[0].name, v);
      members := [m];
      MemberEventsCons(m, []);
      assert [m] + [] == [m];
    }
  }

  lemma {:induction false} ItemEventsCons(j: Json, s: seq<Json>)
    ensures EventsOfItems([j] + s) == Events(j) + EventsOfItems(s)
  {
    hide Events;
    assert ([j] + s)[1..] == s;
  }

  lemma {:induction false} MemberEventsCons(m: Member, s: seq<Member>)
    ensures EventsOfMembers([m] + s) == [Key(m.key)] + Events(m.value) + EventsOfMembers(s)
  {
    hide Events;
    assert ([m] + s)[1..] == s;
  }

  lemma {:induction false} ElemEventsCons(conv: Conversion, e: Elem, s: seq<Elem>, depth: nat)
    requires ValidElem(conv, e, depth) && ValidElems(conv, s, depth)
    ensures ValidElems(conv, [e] + s, depth)
    ensures ElemEvents(conv, [e] + s, depth) == NodeEvents(conv, e.node, depth) + ElemEvents(conv, s, depth)
  {
    hide ValidNode, TreeOf;
    assert ([e] + s)[1..] == s;
    ItemEventsCons(ItemOf(conv, e, depth), ItemsOf(conv, s, depth));
  }

  lemma {:induction false} FieldEventsCons(conv: Conversion, f: Field, s: seq<Field>, depth: nat)
    requires ValidField(conv, f, depth) && ValidFields(conv, s, depth)
    ensures ValidFields(conv, [f] + s, depth)
    ensures
      FieldEvents(conv, [f] + s, depth) == MemberEvents(conv, f, depth) + FieldEvents(conv, s, depth)
  {
    hide ValidNode, TreeOf, TextOf, ValidPieces;
    assert ([f] + s)[1..] == s;
    MemberEventsCons(MemberOf(conv, f, depth), MembersOf(conv, s, depth));
  }

  /** What remains of reading a sequence of elements agrees with reading all of them: the same
      failure, or the same end, and together the same events. */
  ghost predicate ElemsGoOn(conv: Conversion, total: Read<seq<Elem>>, now: Read<seq<Elem>>, start: seq<Event>,
                            events: seq<Event>, depth: nat, whole: seq<Event>, left: seq<Event>)
  {
    if total.Bad? then now == total && start + whole == events + left
    else
      && now.Got? && now.rest == total.rest
      && ValidElems(conv, total.value, depth) && ValidElems(conv, now.value, depth)
      && start + ElemEvents(conv, total.value, depth) == events + ElemEvents(conv, now.value, depth)
  }

  ghost predicate FieldsGoOn(conv: Conversion, total: Read<seq<Field>>, now: Read<seq<Field>>, start: seq<Event>,
                             events: seq<Event>, depth: nat, whole: seq<Event>, left: seq<Event>)
  {
    if total.Bad? then now == total && start + whole == events + left
    else
      && now.Got? && now.rest == total.rest
      && ValidFields(conv, total.value, depth) && ValidFields(conv, now.value, depth)
      && start + FieldEvents(conv, total.value, depth) == events + FieldEvents(conv, now.value, depth)
  }

  lemma {:induction false} ElemsBegin(conv: Conversion, s: string, start: seq<Event>, depth: nat)
    ensures
      var part := PartOfElems(conv, s, depth);
      ElemsGoOn(conv, ReadElems(conv, s, depth), ReadElems(conv, s, depth), start, start, depth, part, part)
  {
    ElemsSound(conv, s, depth);
  }

  lemma {:induction false} FieldsBegin(conv: Conversion, s: string, start: seq<Event>, depth: nat)
    ensures
      var part := PartOfFields(conv, s, depth);
      FieldsGoOn(conv, ReadFields(conv, s, depth), ReadFields(conv, s, depth), start, start, depth, part, part)
  {
    FieldsSound(conv, s, depth);
  }

  /** One element read and its events emitted: the rest goes on, or the array ends here. */
  lemma {:induction false} ElemStep(conv: Conversion, total: Read<seq<Elem>>, whole: seq<Event>, s: string,
                                    start: seq<Event>, events: seq<Event>, depth: nat)
    requires ElemsGoOn(conv, total, ReadElems(conv, s, depth), start, events, depth, whole, PartOfElems(conv, s, depth))
    ensures
      var e := ReadElem(conv, s, depth);
      if e.Bad? then total == Bad(e.error) && start + whole == events + PartOfValue(conv, Skip(s), depth)
      else
        && ValidElem(conv, e.value, depth)
        && var emitted := events + NodeEvents(conv, e.value.node, depth);
          && (e.rest == [] || e.rest[0] !in ",]" ==> total == Bad(UnexpectedToken) && start + whole == emitted)
          && (e.rest != [] && e.rest[0] == ']' ==>
                total.Got? && total.rest == e.rest[1..] && ValidElems(conv, total.value, depth) &&
                emitted == start + ElemEvents(conv, total.value, depth))
          && (e.rest != [] && e.rest[0] == ',' ==>
                ElemsGoOn(conv, total, ReadElems(conv, e.rest[1..], depth), start, emitted, depth, whole,
                          PartOfElems(conv, e.rest[1..], depth)))
  {
    hide ReadElem, ElemEvents, NodeEvents, PartOfValue, Skip, ValidNode;
    var e := ReadElem(conv, s, depth);
    ElemSound(conv, s, depth);
    if e.Got? && e.rest != [] {
      if e.rest[0] == ']' {
        ElemEventsCons(conv, e.value, [], depth);
        NoElems(conv, depth);
        assert [e.value] + [] == [e.value];
      } else if e.rest[0] == ',' {
        var more := ReadElems(conv, e.rest[1..], depth);
        if more.Got? {
          ElemsSound(conv, e.rest[1..], depth);
          ElemEventsCons(conv, e.value, more.value, depth);
        }
      }
    }
  }

  lemma {:induction false} NoElems(conv: Conversion, depth: nat)
    ensures ValidElems(conv, [], depth) && ElemEvents(conv, [], depth) == []
    ensures ValidFields(conv, [], depth) && FieldEvents(conv, [], depth) == []
  {}

  lemma {:induction false} FieldStep(conv: Conversion, total: Read<seq<Field>>, whole: seq<Event>, s: string,
                                     start: seq<Event>, events: seq<Event>, depth: nat)
    requires FieldsGoOn(conv, total, ReadFields(conv, s, depth), start, events, depth, whole, PartOfFields(conv, s, depth))
    ensures
      var f := ReadField(conv, s, depth);
      if f.Bad? then total == Bad(f.error) && start + whole == events + PartOfField(conv, s, depth)
      else
        && ValidField(conv, f.value, depth)
        && var emitted := events + MemberEvents(conv, f.value, depth);
          && (f.rest == [] || f.rest[0] !in ",}" ==> total == Bad(UnexpectedToken) && start + whole == emitted)
          && (f.rest != [] && f.rest[0] == '}' ==>
                total.Got? && total.rest == f.rest[1..] && ValidFields(conv, total.value, depth) &&
                emitted == start + FieldEvents(conv, total.value, depth))
          && (f.rest != [] && f.rest[0] == ',' ==>
                FieldsGoOn(conv, total, ReadFields(conv, f.rest[1..], depth), start, emitted, depth, whole,
                           PartOfFields(conv, f.rest[1..], depth)))
  {
    hide ReadField, ValidField, ValidFields, FieldEvents, MemberEvents, PartOfField, FieldText, PrintFields;
    var f := ReadField(conv, s, depth);
    FieldSound(conv, s, depth);
    if f.Got? && f.rest != [] {
      if f.rest[0] == '}' {
        NoElems(conv, depth);
        FieldEventsCons(conv, f.value, [], depth);
        assert [f.value] + [] == [f.value];
      } else if f.rest[0] == ',' {
        var more := ReadFields(conv, f.rest[1..], depth);
        var m, part := MemberEvents(conv, f.value, depth), PartOfFields(conv, f.rest[1..], depth);
        assert events + (m + part) == (events + m) + part;
        if more.Got? {
          FieldsSound(conv, f.rest[1..], depth);
          FieldEventsCons(conv, f.value, more.value, depth);
          var left := FieldEvents(conv, more.value, depth);
          assert events + (m + left) == (events + m) + left;
        }
      }
    }
  }

  // ---------- The parser ----------

  class Parser {
    const conv: Conversion
    const text: string
    var position: nat
    var failure: Option<Error>
    /** The calls made on the handler. */
    var events: seq<Event>

    constructor (conv: Conversion, text: string)
      ensures this.conv == conv && this.text == text
      ensures position == 0 && failure == None && events == []
    {
      this.conv, this.text, position, failure, events := conv, text, 0, None, [];
    }

    function Rest(): string
      reads this
      requires position <= |text|
    {
      text[position..]
    }

    ghost predicate Running()
      reads this
    {
      position <= |text| && failure == None
    }

    method Fail(code: Error) returns (ok: bool)
      requires Running()
      modifies `failure
      ensures !ok && failure == Some(code)
    {
      failure := Some(code);
      ok := false;
    }

    method Emit(event: Event)
      modifies `events
      ensures events == old(events) + [event]
    {
      events := events + [event];
    }

    method Advance()
      requires position < |text|
      modifies `position
      ensures position == old(position) + 1 && Rest() == old(Rest())[1..]
    {
      position := position + 1;
    }

    method SkipSpace()
      requires position <= |text|
      modifies `position
      ensures old(position) <= position <= |text| && Rest() == Skip(old(Rest()))
    {
      while position < |text| && IsSpace(text[position])
        invariant old(position) <= position <= |text|
        invariant Skip(Rest()) == Skip(old(Rest()))
      {
        Advance();
      }
    }

    method SkipDigits()
      requires position <= |text|
      modifies `position
      ensures old(position) <= position <= |text|
      ensures position == old(position) + DigitCount(old(Rest())) && Rest() == old(Rest())[DigitCount(old(Rest()))..]
    {
      ghost var before := Rest();
      while position < |text| && IsDigit(text[position])
        invariant old(position) <= position <= |text|
        invariant position + DigitCount(Rest()) == old(position) + DigitCount(before)
        invariant Rest() == before[position - old(position)..]
      {
        Advance();
      }
    }

    method Consume(c: char) returns (ok: bool)
      requires position <= |text|
      modifies `position
      ensures position <= |text| && ok == (old(Rest()) != [] && old(Rest())[0] == c)
      ensures position == old(position) + (if ok then 1 else 0)
      ensures Rest() == if ok then old(Rest())[1..] else old(Rest())
    {
      ok := position < |text| && text[position] == c;
      if ok { Advance(); }
    }

    // ----- Strings -----

    method ParseHex4() returns (ok: bool, output: nat)
      requires Running()
      modifies `position, `failure
      ensures position <= |text|
      ensures
        var s := old(Rest());
        if |s| < 4 then !ok && failure == Some(UnexpectedEnd)
        else if !IsHex4(s[..4]) then !ok && failure == Some(InvalidUnicode)
        else ok && failure == None && Rest() == s[4..] && output == Hex4(s[..4]) && position == old(position) + 4
    {
      output := 0;
      if position + 4 > |text| {
        ok := Fail(UnexpectedEnd);
        return;
      }
      ghost var s := Rest();
      ghost var start := position;
      var i := 0;
      while i < 4
        invariant 0 <= i <= 4 && position == start + i && failure == None
        invariant forall k :: 0 <= k < i ==> IsHex(s[k])
        invariant i >= 1 ==> (i == 1 ==> output == HexDigit(s[0]))
        invariant i == 0 ==> output == 0
        invariant i == 2 ==> output == HexDigit(s[0]) * 16 + HexDigit(s[1])
        invariant i == 3 ==> output == HexDigit(s[0]) * 256 + HexDigit(s[1]) * 16 + HexDigit(s[2])
        invariant i == 4 ==> output == Hex4(s[..4])
      {
        var c := text[position];
        assert c == s[i];
        position := position + 1;
        if !IsHex(c) {
          assert s[..4][i] == c;
          ok := Fail(InvalidUnicode);
          return;
        }
        output := output * 16 + HexDigit(c);
        i := i + 1;
      }
      ok := true;
    }

    /** After `\u`: the code point of one escape, or of two that form a surrogate pair. */
    method ParseCodePoint() returns (ok: bool, codepoint: nat)
      requires Running()
      modifies `position, `failure
      ensures position <= |text|
      ensures
        var r := CodePoint(old(Rest()));
        if r.Wrong? then !ok && failure == Some(r.error)
        else
          && ok && failure == None && r.Piece? && ValidPiece(r.piece) && Rest() == r.rest && position > old(position)
          && codepoint <= MAX_CODE && Utf8(codepoint) == PieceText(r.piece)
    {
      ghost var s := Rest();
      CodePointSound(s);
      var first;
      ok, first := ParseHex4();
      codepoint := first;
      if !ok { return; }
      ghost var t := Rest();
      if 0xD800 <= first <= 0xDBFF {
        if position + 2 > |text| || text[position] != '\\' || text[position + 1] != 'u' {
          ok := Fail(InvalidUnicode);
          return;
        }
        position := position + 2;
        assert Rest() == t[2..] && (|t| >= 6 ==> t[2..][..4] == t[2..6]);
        var second;
        ok, second := ParseHex4();
        if !ok { return; }
        assert t[2..][4..] == t[6..];
        if second < 0xDC00 || second > 0xDFFF {
          ok := Fail(InvalidUnicode);
          return;
        }
        codepoint := 0x1_0000 + (first - 0xD800) * 1024 + (second - 0xDC00);
      } else if 0xDC00 <= first <= 0xDFFF {
        ok := Fail(InvalidUnicode);
      }
    }

    /** After a backslash: the bytes the escape stands for. `s` is the text from the backslash. */
    method ParseEscape(ghost s: string) returns (ok: bool, bytes: string)
      requires Running() && s != [] && s[0] == '\\' && Rest() == s[1..]
      modifies `position, `failure
      ensures position <= |text|
      ensures
        var r := NextPiece(s);
        if r.Wrong? then !ok && failure == Some(r.error)
        else
          && ok && failure == None && r.Piece? && ValidPiece(r.piece) && Rest() == r.rest
          && position > old(position) && bytes == PieceText(r.piece)
    {
      hide CodePoint, Utf8;
      bytes := "";
      if position >= |text| {
        ok := Fail(UnexpectedEnd);
        return;
      }
      var escape := text[position];
      assert escape == s[1];
      Advance();
      assert Rest() == s[2..];
      if IsEscape(escape) {
        ok, bytes := true, [Unescaped(escape)];
      } else if escape == 'u' {
        var codepoint;
        ok, codepoint := ParseCodePoint();
        if ok { bytes := Utf8(codepoint); }
      } else {
        ok := Fail(InvalidEscape);
      }
    }

    method ParseString() returns (ok: bool, output: string)
      requires Running()
      modifies `position, `failure
      ensures position <= |text|
      ensures
        var r := ReadString(old(Rest()));
        if r.Bad? then !ok && failure == Some(r.error)
        else
          && ok && failure == None && Rest() == r.rest && position > old(position)
          && ValidPieces(r.value) && output == TextOf(r.value)
      ensures ok ==> old(position) <= position && JsonText.Literal(text[old(position)..position], output)
    {
      hide NextPiece, ReadPieces, ValidPiece, PieceText, TextOf, ValidPieces, PiecesGoOn, JsonText.Literal;
      output := "";
      ghost var r := ReadString(Rest());
      ok := Consume('"');
      if !ok {
        ok := Fail(UnexpectedToken);
        return;
      }
      PiecesStart(Rest());
      while position < |text|
        invariant old(position) < position && Running()
        invariant PiecesGoOn(r, ReadPieces(Rest()), output)
      {
        ghost var s := Rest();
        PieceStep(r, s, output);
        PlainPiece(s);
        var value := text[position];
        assert value == s[0];
        Advance();
        if value == '"' {
          LiteralTaken(old(Rest()), Rest());
          assert text[old(position)..position] == old(Rest())[..|old(Rest())| - |Rest()|];
          return true, output;
        }
        if value < ' ' {
          ok := Fail(InvalidString);
          return;
        }
        if value != '\\' {
          output := output + [value];
        } else {
          var bytes;
          ok, bytes := ParseEscape(s);
          if !ok { return; }
          output := output + bytes;
        }
      }
      NoPieces(r, Rest(), output);
      ok := Fail(UnexpectedEnd);
    }

    // ----- Numbers -----

    /** The digits before the point, without a leading zero. */
    method ScanWhole() returns (ok: bool, whole: string)
      requires Running()
      modifies `position, `failure
      ensures old(position) <= position <= |text|
      ensures Scanned(old(Rest()), WholeLength(old(Rest())), ok, whole, Rest(), failure)
    {
      hide DigitCount, ValidWhole;
      ghost var t := Rest();
      var at := position;
      whole := "";
      NonZeroWhole(t);
      var zero := Consume('0');
      if zero {
        assert position < |text| ==> t[1] == text[position];
        if position < |text| && IsDigit(text[position]) {
          ok := Fail(InvalidNumber);
          return;
        }
      } else {
        if position >= |text| || !IsDigit(text[position]) {
          ok := Fail(InvalidNumber);
          return;
        }
        SkipDigits();
      }
      ok, whole := true, text[at..position];
      assert whole == t[..position - at];
    }

    method ScanFraction() returns (ok: bool, fraction: string)
      requires Running()
      modifies `position, `failure
      ensures old(position) <= position <= |text|
      ensures Scanned(old(Rest()), FractionLength(old(Rest())), ok, fraction, Rest(), failure)
    {
      hide DigitCount, ValidFraction;
      ghost var t := Rest();
      var at := position;
      fraction := "";
      var point := Consume('.');
      if point {
        NoDigits(t[1..]);
        if position >= |text| || !IsDigit(text[position]) {
          ok := Fail(InvalidNumber);
          return;
        }
        SkipDigits();
      }
      ok, fraction := true, text[at..position];
      assert fraction == t[..position - at];
    }

    method ScanExponent() returns (ok: bool, exponent: string)
      requires Running()
      modifies `position, `failure
      ensures old(position) <= position <= |text|
      ensures Scanned(old(Rest()), ExponentLength(old(Rest())), ok, exponent, Rest(), failure)
    {
      hide DigitCount, ValidExponent, AfterSign, ExponentLength;
      ghost var t := Rest();
      ExponentShape(t);
      var at := position;
      exponent := "";
      if position < |text| && (text[position] == 'e' || text[position] == 'E') {
        Advance();
        ghost var w := Rest();
        SignSkipped(w);
        if position < |text| && (text[position] == '+' || text[position] == '-') { Advance(); }
        NoDigits(AfterSign(w));
        if position >= |text| || !IsDigit(text[position]) {
          ok := Fail(InvalidNumber);
          return;
        }
        SkipDigits();
      }
      ok, exponent := true, text[at..position];
      assert exponent == t[..position - at];
    }

    method ScanNumeral() returns (ok: bool, x: Numeral)
      requires Running()
      modifies `position, `failure
      ensures old(position) <= position <= |text|
      ensures
        var r := ReadNumeral(old(Rest()));
        if r.Bad? then !ok && failure == Some(r.error)
        else ok && failure == None && r == Got(x, Rest())
    {
      hide WholeLength, FractionLength, ExponentLength, ValidWhole, ValidFraction, ValidExponent;
      var minus := Consume('-');
      x := Numeral(minus, "", "", "");
      var whole, fraction, exponent;
      ok, whole := ScanWhole();
      if !ok { return; }
      ok, fraction := ScanFraction();
      if !ok { return; }
      ok, exponent := ScanExponent();
      x := Numeral(minus, whole, fraction, exponent);
    }

    method ParseNumber() returns (ok: bool)
      requires Running()
      modifies `position, `failure, `events
      ensures old(position) <= position <= |text|
      ensures
        var r := ReadNumber(conv, old(Rest()));
        if r.Bad? then !ok && failure == Some(r.error) && events == old(events)
        else
          && ok && failure == None && Rest() == r.rest
          && r.value.NNumber? && ValidNumeral(r.value.x) && Representable(conv, r.value.x)
          && events == old(events) + [Scalar(NumberOf(conv, r.value.x))]
    {
      hide ReadNumeral, ReadNumber, Representable, NumberOf, ValidNumeral;
      NumberShape(conv, Rest());
      var x;
      ok, x := ScanNumeral();
      if !ok { return; }
      if Representable(conv, x) {
        Emit(Scalar(NumberOf(conv, x)));
      } else {
        ok := Fail(InvalidNumber);
      }
    }

    // ----- Values -----

    method ParseLiteral(word: string, event: Event, ghost node: Node) returns (ok: bool)
      requires Running()
      modifies `position, `failure, `events
      ensures old(position) <= position <= |text|
      ensures
        var r := ReadLiteral(word, node, old(Rest()));
        if r.Bad? then !ok && failure == Some(r.error) && events == old(events)
        else ok && failure == None && Rest() == r.rest && events == old(events) + [event]
    {
      assert word <= Rest() <==> position + |word| <= |text| && text[position..position + |word|] == word;
      if position + |word| > |text| || text[position..position + |word|] != word {
        ok := Fail(UnexpectedToken);
        return;
      }
      position := position + |word|;
      Emit(event);
      ok := true;
    }

    /** The loop over the elements, up to and including the closing bracket. */
    method ParseElems(depth: nat) returns (ok: bool)
      requires Running()
      modifies `position, `failure, `events
      ensures position <= |text|
      ensures
        var r := ReadElems(conv, old(Rest()), depth);
        if r.Bad? then !ok && failure == Some(r.error) && events == old(events) + PartOfElems(conv, old(Rest()), depth)
        else
          && ok && failure == None && Rest() == r.rest && ValidElems(conv, r.value, depth)
          && events == old(events) + ElemEvents(conv, r.value, depth)
      decreases |text| - position, 4
    {
      hide ReadElem, ReadElems, ElemsGoOn, NodeEvents, ElemEvents, ValidElem, ValidElems, PartOfElems, PartOfValue;
      ghost var r, start, whole := ReadElems(conv, Rest(), depth), events, PartOfElems(conv, Rest(), depth);
      ElemsBegin(conv, Rest(), start, depth);
      while true
        invariant Running() && old(position) <= position
        invariant
          ElemsGoOn(conv, r, ReadElems(conv, Rest(), depth), start, events, depth, whole, PartOfElems(conv, Rest(), depth))
        decreases |text| - position
      {
        ElemStep(conv, r, whole, Rest(), start, events, depth);
        ok := ParseElement(depth);
        if !ok { return; }
        ok := Consume(']');
        if ok { return; }
        ok := Consume(',');
        if !ok {
          ok := Fail(UnexpectedToken);
          return;
        }
      }
    }

    method ParseArray(depth: nat) returns (ok: bool)
      requires Running() && Rest() != [] && Rest()[0] == '['
      modifies `position, `failure, `events
      ensures position <= |text|
      ensures ValueDone(conv, old(Rest()), depth, ok, failure, Rest(), old(events), events)
      decreases |text| - position, 1
    {
      hide Skip, ReadElems, ReadArray, ReadValue, ElemsGoOn, NodeEvents, ValidNode, ElemEvents, ValidElem;
      hide ValidElems, IsSpace, PartOfElems;
      ghost var s, start := Rest(), events;
      ValueCases(conv, s, depth);
      if depth >= MAX_JSON_DEPTH {
        ok := Fail(NestingTooDeep);
        return;
      }
      Advance();
      ghost var inside, begun := Rest(), start + [ArrayBegin];
      ArrayShape(conv, inside, depth, start, begun);
      Emit(ArrayBegin);
      SkipSpace();
      ok := Consume(']');
      if ok {
        Emit(ArrayEnd);
        return;
      }
      ElemsAgree(conv, inside, events, depth + 1);
      ok := ParseElems(depth + 1);
      if ok { Emit(ArrayEnd); }
    }

    /** A value with the white space around it. */
    method ParseElement(depth: nat) returns (ok: bool)
      requires Running()
      modifies `position, `failure, `events
      ensures position <= |text|
      ensures
        var e := ReadElem(conv, old(Rest()), depth);
        if e.Bad? then
          !ok && failure == Some(e.error) && events == old(events) + PartOfValue(conv, Skip(old(Rest())), depth)
        else
          && ok && failure == None && Rest() == e.rest && position > old(position) && ValidElem(conv, e.value, depth)
          && events == old(events) + NodeEvents(conv, e.value.node, depth)
      decreases |text| - position, 3
    {
      hide Skip, ReadElem, ReadValue, NodeEvents, ValidNode, ValidElem, PartOfValue;
      ghost var s := Rest();
      ElemReading(conv, s, depth);
      ElemIsValid(conv, s, depth);
      ok := ParseValue(depth);
      if !ok { return; }
      SkipSpace();
    }

    method ParseKey() returns (ok: bool)
      requires Running()
      modifies `position, `failure, `events
      ensures position <= |text|
      ensures
        var k := ReadKey(old(Rest()));
        if k.Bad? then !ok && failure == Some(k.error) && events == old(events) + PartOfKey(old(Rest()))
        else
          && ok && failure == None && Rest() == k.rest && position > old(position)
          && ValidPieces(k.value.key) && PartOfKey(old(Rest())) == [Key(TextOf(k.value.key))]
          && events == old(events) + [Key(TextOf(k.value.key))]
    {
      hide Skip, ReadString, TextOf, ValidPieces;
      SkipSpace();
      if position >= |text| {
        ok := Fail(UnexpectedEnd);
        return;
      }
      var key;
      ok, key := ParseString();
      if !ok { return; }
      Emit(Key(key));
      SkipSpace();
      ok := Consume(':');
      if !ok { ok := Fail(UnexpectedToken); }
    }

    /** A key, its colon and its value, with the white space after it. */
    method ParseMember(depth: nat) returns (ok: bool)
      requires Running()
      modifies `position, `failure, `events
      ensures position <= |text|
      ensures
        var f := ReadField(conv, old(Rest()), depth);
        if f.Bad? then !ok && failure == Some(f.error) && events == old(events) + PartOfField(conv, old(Rest()), depth)
        else
          && ok && failure == None && Rest() == f.rest && position > old(position) && ValidField(conv, f.value, depth)
          && events == old(events) + MemberEvents(conv, f.value, depth)
      decreases |text| - position, 1
    {
      hide Skip, ReadField, ReadKey, ReadValue, NodeEvents, ValidNode, ValidField, TextOf, ValidPieces, PartOfKey,
        PartOfValue;
      ghost var t := Rest();
      FieldReading(conv, t, depth);
      ok := ParseKey();
      if !ok { return; }
      ok := ParseValue(depth);
      if !ok { return; }
      SkipSpace();
      FieldIsValid(conv, t, depth);
      ghost var f := ReadField(conv, t, depth).value;
      Grouping(old(events), Key(TextOf(f.key)), NodeEvents(conv, f.node, depth));
    }

    /** The loop over the members, up to and including the closing bracket. */
    method ParseFields(depth: nat) returns (ok: bool)
      requires Running()
      modifies `position, `failure, `events
      ensures position <= |text|
      ensures
        var r := ReadFields(conv, old(Rest()), depth);
        if r.Bad? then !ok && failure == Some(r.error) && events == old(events) + PartOfFields(conv, old(Rest()), depth)
        else
          && ok && failure == None && Rest() == r.rest && ValidFields(conv, r.value, depth)
          && events == old(events) + FieldEvents(conv, r.value, depth)
      decreases |text| - position, 4
    {
      hide ReadField, ReadFields, FieldsGoOn, NodeEvents, FieldEvents, ValidField, ValidFields, MemberEvents,
        PartOfFields, PartOfField;
      ghost var r, start, whole := ReadFields(conv, Rest(), depth), events, PartOfFields(conv, Rest(), depth);
      FieldsBegin(conv, Rest(), start, depth);
      while true
        invariant Running() && old(position) <= position
        invariant
          FieldsGoOn(conv, r, ReadFields(conv, Rest(), depth), start, events, depth, whole, PartOfFields(conv, Rest(), depth))
        decreases |text| - position
      {
        FieldStep(conv, r, whole, Rest(), start, events, depth);
        ok := ParseMember(depth);
        if !ok { return; }
        ok := Consume('}');
        if ok { return; }
        ok := Consume(',');
        if !ok {
          ok := Fail(UnexpectedToken);
          return;
        }
      }
    }

    method ParseObject(depth: nat) returns (ok: bool)
      requires Running() && Rest() != [] && Rest()[0] == '{'
      modifies `position, `failure, `events
      ensures position <= |text|
      ensures ValueDone(conv, old(Rest()), depth, ok, failure, Rest(), old(events), events)
      decreases |text| - position, 1
    {
      hide Skip, ReadField, ReadFields, ReadObject, ReadValue, FieldsGoOn, NodeEvents, ValidNode, FieldEvents;
      hide ValidField, ValidFields, TextOf, ValidPieces, IsSpace, MemberEvents, PartOfFields;
      ghost var s, start := Rest(), events;
      ValueCases(conv, s, depth);
      if depth >= MAX_JSON_DEPTH {
        ok := Fail(NestingTooDeep);
        return;
      }
      Advance();
      ghost var inside, begun := Rest(), start + [ObjectBegin];
      ObjectShape(conv, inside, depth, start, begun);
      Emit(ObjectBegin);
      SkipSpace();
      ok := Consume('}');
      if ok {
        Emit(ObjectEnd);
        return;
      }
      FieldsAgree(conv, inside, events, depth + 1);
      ok := ParseFields(depth + 1);
      if ok { Emit(ObjectEnd); }
    }

    /** One value, white space before it allowed. */
    method ParseValue(depth: nat) returns (ok: bool)
      requires Running()
      modifies `position, `failure, `events
      ensures position <= |text|
      ensures ValueDone(conv, Skip(old(Rest())), depth, ok, failure, Rest(), old(events), events)
      decreases |text| - position, 2
    {
      hide Skip, ReadValue, NodeEvents, ValidNode, ReadString, ReadNumber, ReadArray, ReadObject, ReadLiteral;
      hide ValidPieces, TextOf, ValidNumeral, Representable, NumberOf, PartOfFields, PartOfElems;
      SkipSpace();
      ghost var s := Rest();
      ValueCases(conv, s, depth);
      if position >= |text| {
        ok := Fail(UnexpectedEnd);
        return;
      }
      LeafEvents(conv, s, depth);
      if text[position] == '{' {
        ok := ParseObject(depth);
      } else if text[position] == '[' {
        ok := ParseArray(depth);
      } else if text[position] == '"' {
        var value;
        ok, value := ParseString();
        if ok { Emit(Scalar(Str(value))); }
      } else if text[position] == 't' {
        ok := ParseLiteral("true", Scalar(Bool(true)), NTrue);
      } else if text[position] == 'f' {
        ok := ParseLiteral("false", Scalar(Bool(false)), NFalse);
      } else if text[position] == 'n' {
        ok := ParseLiteral("null", Scalar(Null), NNull);
      } else if text[position] == '-' || IsDigit(text[position]) {
        ok := ParseNumber();
      } else {
        ok := Fail(UnexpectedToken);
      }
    }

    /** The whole text. On success the handler has received exactly the events of the value the
        text denotes, and otherwise those of the part before the error. */
    method Run()
      requires Running() && position == 0 && events == []
      modifies `position, `failure, `events
      ensures position <= |text|
      ensures
        var r := ReadText(conv, text);
        if r.Bad? then failure == Some(r.error) && events == PartOfText(conv, text)
        else failure == None && ValidDocument(conv, r.value) && events == Events(ValueOf(conv, r.value))
    {
      hide Skip, ReadValue, ValidNode, ReadText, ValidDocument, ValueOf, NodeEvents, Events, PartOfValue;
      assert Rest() == text;
      ReadingText(conv, text);
      SkipTwice(text);
      SkipSpace();
      var ok := ParseValue(0);
      if !ok { return; }
      assert [] + events == events;
      SkipSpace();
      if position != |text| {
        var stopped := Fail(UnexpectedToken);
      }
    }
  }

  // ---------- Steps of the value methods ----------

  /** What a value method leaves behind, in terms of the reader function. */
  ghost predicate ValueDone(conv: Conversion, s: string, depth: nat, ok: bool, failure: Option<Error>, rest: string,
                            before: seq<Event>, after: seq<Event>)
  {
    var r := ReadValue(conv, s, depth);
    if r.Bad? then !ok && failure == Some(r.error) && after == before + PartOfValue(conv, s, depth)
    else
      && ok && failure == None && rest == r.rest
      && ValidNode(conv, r.value, depth) && after == before + NodeEvents(conv, r.value, depth)
  }

  lemma {:induction false} ValueCases(conv: Conversion, s: string, depth: nat)
    ensures s == [] ==> ReadValue(conv, s, depth) == Bad(UnexpectedEnd)
    ensures
      s != [] ==>
        ReadValue(conv, s, depth)
        == if s[0] == '{' then if depth >= MAX_JSON_DEPTH then Bad(NestingTooDeep) else ReadObject(conv, s[1..], depth)
           else if s[0] == '[' then if depth >= MAX_JSON_DEPTH then Bad(NestingTooDeep) else ReadArray(conv, s[1..], depth)
           else if s[0] == '"' then
             if ReadString(s).Bad? then Bad(ReadString(s).error) else Got(NString(ReadString(s).value), ReadString(s).rest)
           else if s[0] == 't' then ReadLiteral("true", NTrue, s)
           else if s[0] == 'f' then ReadLiteral("false", NFalse, s)
           else if s[0] == 'n' then ReadLiteral("null", NNull, s)
           else if s[0] == '-' || IsDigit(s[0]) then ReadNumber(conv, s)
           else Bad(UnexpectedToken)
  {
    hide ReadObject, ReadArray, ReadString, ReadLiteral, ReadNumber;
  }

  lemma {:induction false} LeafEvents(conv: Conversion, s: string, depth: nat)
    ensures forall ps | ValidPieces(ps) ::
      ValidNode(conv, NString(ps), depth) && NodeEvents(conv, NString(ps), depth) == [Scalar(Str(TextOf(ps)))]
    ensures forall x | ValidNumeral(x) && Representable(conv, x) ::
      ValidNode(conv, NNumber(x), depth) && NodeEvents(conv, NNumber(x), depth) == [Scalar(NumberOf(conv, x))]
    ensures forall n: Node | n.NTrue? || n.NFalse? || n.NNull? ::
      && ValidNode(conv, n, depth)
      && NodeEvents(conv, n, depth) == [Scalar(if n.NNull? then Null else Bool(n.NTrue?))]
    ensures ReadLiteral("true", NTrue, s).Got? ==> ReadLiteral("true", NTrue, s).value == NTrue
    ensures ReadLiteral("false", NFalse, s).Got? ==> ReadLiteral("false", NFalse, s).value == NFalse
    ensures ReadLiteral("null", NNull, s).Got? ==> ReadLiteral("null", NNull, s).value == NNull
  {
    hide ValidPieces, TextOf, ValidNumeral, Representable, IntegerOf;
  }

  lemma {:induction false} SkipTwice(s: string)
    ensures Skip(Skip(s)) == Skip(s)
  {
    SkipPrinted("", Skip(s));
    assert "" + Skip(s) == Skip(s);
  }

  lemma {:induction false} ElemReading(conv: Conversion, s: string, depth: nat)
    ensures
      var v := ReadValue(conv, Skip(s), depth);
      var e := ReadElem(conv, s, depth);
      if v.Bad? then e == Bad(v.error) else e.Got? && e.value.node == v.value && e.rest == Skip(v.rest)
  {
    hide ReadValue, Skip;
  }

  /** White space skipped before the first element changes nothing that is emitted. */
  lemma {:induction false} ElemsAfterSpace(conv: Conversion, s: string, start: seq<Event>, depth: nat)
    ensures ElemsGoOn(conv, ReadElems(conv, s, depth), ReadElems(conv, Skip(s), depth), start, start, depth, [], [])
  {
    hide ReadElem, ValidElem, ValidElems, Skip, ElemEvents, NodeEvents, PrintElems, IsSpace;
    SkipTwice(s);
    ElemReading(conv, s, depth);
    ElemReading(conv, Skip(s), depth);
    var a, b := ReadElem(conv, s, depth), ReadElem(conv, Skip(s), depth);
    var r, q := ReadElems(conv, s, depth), ReadElems(conv, Skip(s), depth);
    ElemsSound(conv, s, depth);
    ElemsSound(conv, Skip(s), depth);
    if r.Got? {
      ElemSound(conv, s, depth);
      ElemSound(conv, Skip(s), depth);
      if a.rest[0] == ']' {
        NoElems(conv, depth);
        ElemEventsCons(conv, a.value, [], depth);
        ElemEventsCons(conv, b.value, [], depth);
        assert [a.value] + [] == [a.value] && [b.value] + [] == [b.value];
      } else {
        var more := ReadElems(conv, a.rest[1..], depth);
        ElemsSound(conv, a.rest[1..], depth);
        ElemEventsCons(conv, a.value, more.value, depth);
        ElemEventsCons(conv, b.value, more.value, depth);
      }
    }
  }

  /** An array after its bracket: empty, or its elements between the two bracket events. */
  lemma {:induction false} ArrayShape(conv: Conversion, s: string, depth: nat, start: seq<Event>,
                                      begun: seq<Event>)
    requires depth < MAX_JSON_DEPTH && begun == start + [ArrayBegin]
    ensures
      var t := Skip(s);
      var r := ReadArray(conv, s, depth);
      if t != [] && t[0] == ']' then
        && r.Got? && r.rest == t[1..] && ValidNode(conv, r.value, depth)
        && begun + [ArrayEnd] == start + NodeEvents(conv, r.value, depth)
      else
        var elems := ReadElems(conv, s, depth + 1);
        if elems.Bad? then r == Bad(elems.error)
        else
          && r.Got? && r.rest == elems.rest && ValidNode(conv, r.value, depth)
          && ValidElems(conv, elems.value, depth + 1)
          && begun + ElemEvents(conv, elems.value, depth + 1) + [ArrayEnd]
             == start + NodeEvents(conv, r.value, depth)
  {
    hide ReadElems, Skip, ValidElems, AllSpace, EventsOfItems;
    ElemsSound(conv, s, depth + 1);
    ArraySound(conv, s, depth);
    NoElems(conv, depth + 1);
  }

  lemma {:induction false} FieldReading(conv: Conversion, s: string, depth: nat)
    ensures
      var k := ReadKey(s);
      var f := ReadField(conv, s, depth);
      if k.Bad? then f == Bad(k.error)
      else
        var v := ReadValue(conv, Skip(k.rest), depth);
        if v.Bad? then f == Bad(v.error)
        else f.Got? && f.value.key == k.value.key && f.value.node == v.value && f.rest == Skip(v.rest)
  {
    hide ReadValue, Skip, ReadKey;
  }

  lemma {:induction false} KeyReading(s: string)
    ensures
      var a, b := ReadKey(s), ReadKey(Skip(s));
      if a.Bad? then b == a else b.Got? && b.rest == a.rest && b.value.key == a.value.key
  {
    SkipTwice(s);
    hide Skip, ReadString;
  }

  lemma {:induction false} Grouping(events: seq<Event>, e: Event, more: seq<Event>)
    ensures events + [e] + more == events + ([e] + more)
  {}

  /** The reader's results with and without the white space before the first element. */
  lemma {:induction false} ElemsAgree(conv: Conversion, s: string, start: seq<Event>, depth: nat)
    ensures
      var r, q := ReadElems(conv, s, depth), ReadElems(conv, Skip(s), depth);
      if r.Bad? then q == r && PartOfElems(conv, Skip(s), depth) == PartOfElems(conv, s, depth)
      else
        && q.Got? && q.rest == r.rest && ValidElems(conv, r.value, depth) && ValidElems(conv, q.value, depth)
        && start + ElemEvents(conv, r.value, depth) == start + ElemEvents(conv, q.value, depth)
  {
    ElemsAfterSpace(conv, s, start, depth);
    PartAfterSpace(conv, s, depth);
  }

  lemma {:induction false} FieldsAgree(conv: Conversion, s: string, start: seq<Event>, depth: nat)
    ensures
      var r, q := ReadFields(conv, s, depth), ReadFields(conv, Skip(s), depth);
      if r.Bad? then q == r && PartOfFields(conv, Skip(s), depth) == PartOfFields(conv, s, depth)
      else
        && q.Got? && q.rest == r.rest && ValidFields(conv, r.value, depth) && ValidFields(conv, q.value, depth)
        && start + FieldEvents(conv, r.value, depth) == start + FieldEvents(conv, q.value, depth)
  {
    FieldsAfterSpace(conv, s, start, depth);
    FieldPartAfterSpace(conv, s, depth);
  }

  lemma {:induction false} PartAfterSpace(conv: Conversion, s: string, depth: nat)
    ensures PartOfElems(conv, Skip(s), depth) == PartOfElems(conv, s, depth)
  {
    hide ReadElem, PartOfValue, WholeEvents, Skip;
    SkipTwice(s);
    ElemReading(conv, s, depth);
    ElemReading(conv, Skip(s), depth);
  }

  lemma {:induction false} FieldPartAfterSpace(conv: Conversion, s: string, depth: nat)
    ensures PartOfFields(conv, Skip(s), depth) == PartOfFields(conv, s, depth)
  {
    hide ReadField, ReadKey, PartOfValue, Skip, NodeEvents, TextOf, ValidNode, ValidPieces;
    SkipTwice(s);
    KeyReading(s);
    FieldReading(conv, s, depth);
    FieldReading(conv, Skip(s), depth);
    var f, g := ReadField(conv, s, depth), ReadField(conv, Skip(s), depth);
    if f.Got? {
      FieldSound(conv, s, depth);
      FieldSound(conv, Skip(s), depth);
    }
  }

  lemma {:induction false} ElemIsValid(conv: Conversion, s: string, depth: nat)
    ensures ReadElem(conv, s, depth).Got? ==> ValidElem(conv, ReadElem(conv, s, depth).value, depth)
  {
    ElemSound(conv, s, depth);
  }

  lemma {:induction false} FieldIsValid(conv: Conversion, s: string, depth: nat)
    ensures ReadField(conv, s, depth).Got? ==> ValidField(conv, ReadField(conv, s, depth).value, depth)
  {
    FieldSound(conv, s, depth);
  }

  lemma {:induction false} FieldsAfterSpace(conv: Conversion, s: string, start: seq<Event>, depth: nat)
    ensures FieldsGoOn(conv, ReadFields(conv, s, depth), ReadFields(conv, Skip(s), depth), start, start, depth, [], [])
  {
    hide ReadKey, ReadField, ValidField, ValidFields, Skip, FieldEvents, NodeEvents, TextOf, PrintFields, IsSpace;
    SkipTwice(s);
    KeyReading(s);
    FieldReading(conv, s, depth);
    FieldReading(conv, Skip(s), depth);
    var a, b := ReadField(conv, s, depth), ReadField(conv, Skip(s), depth);
    var r, q := ReadFields(conv, s, depth), ReadFields(conv, Skip(s), depth);
    FieldsSound(conv, s, depth);
    FieldsSound(conv, Skip(s), depth);
    if r.Got? {
      FieldSound(conv, s, depth);
      FieldSound(conv, Skip(s), depth);
      if a.rest[0] == '}' {
        NoElems(conv, depth);
        FieldEventsCons(conv, a.value, [], depth);
        FieldEventsCons(conv, b.value, [], depth);
        assert [a.value] + [] == [a.value] && [b.value] + [] == [b.value];
      } else {
        var more := ReadFields(conv, a.rest[1..], depth);
        FieldsSound(conv, a.rest[1..], depth);
        FieldEventsCons(conv, a.value, more.value, depth);
        FieldEventsCons(conv, b.value, more.value, depth);
      }
    }
  }

  lemma {:induction false} ObjectShape(conv: Conversion, s: string, depth: nat, start: seq<Event>,
                                      begun: seq<Event>)
    requires depth < MAX_JSON_DEPTH && begun == start + [ObjectBegin]
    ensures
      var t := Skip(s);
      var r := ReadObject(conv, s, depth);
      if t != [] && t[0] == '}' then
        && r.Got? && r.rest == t[1..] && ValidNode(conv, r.value, depth)
        && begun + [ObjectEnd] == start + NodeEvents(conv, r.value, depth)
      else
        var fields := ReadFields(conv, s, depth + 1);
        if fields.Bad? then r == Bad(fields.error)
        else
          && r.Got? && r.rest == fields.rest && ValidNode(conv, r.value, depth)
          && ValidFields(conv, fields.value, depth + 1)
          && begun + FieldEvents(conv, fields.value, depth + 1) + [ObjectEnd]
             == start + NodeEvents(conv, r.value, depth)
  {
    hide ReadFields, Skip, ValidFields, AllSpace, EventsOfMembers;
    FieldsSound(conv, s, depth + 1);
    ObjectSound(conv, s, depth);
    NoElems(conv, depth + 1);
  }

  lemma {:induction false} ReadingText(conv: Conversion, text: string)
    ensures
      var v := ReadValue(conv, Skip(text), 0);
      var r := ReadText(conv, text);
      if v.Bad? then r == Bad(v.error)
      else if Skip(v.rest) != [] then r == Bad(UnexpectedToken)
      else
        && r.Got? && ValidDocument(conv, r.value) && ValidNode(conv, v.value, 0)
        && Events(ValueOf(conv, r.value)) == NodeEvents(conv, v.value, 0)
  {
    hide ReadValue, ValidNode, Skip, AllSpace, TreeOf, Events;
    var r := ReadText(conv, text);
    if r.Got? { ReadsExactlyTheGrammar(conv, text, r.value); }
  }

  /** A part of a numeral: cut at the length the grammar gives, or an invalid number. */
  ghost predicate Scanned(s: string, length: Option<nat>, ok: bool, part: string, rest: string, failure: Option<Error>)
    requires length.Some? ==> length.value <= |s|
  {
    if length.None? then !ok && failure == Some(InvalidNumber)
    else ok && failure == None && part == s[..length.value] && rest == s[length.value..]
  }

  // ---------- Steps of the string loop ----------

  /** What reading a string takes from the text is a literal of the string, by the table of escapes. */
  lemma {:induction false} LiteralTaken(s: string, rest: string)
    requires ReadString(s).Got? && rest == ReadString(s).rest
    ensures |rest| <= |s| && ValidPieces(ReadString(s).value)
    ensures JsonText.Literal(s[..|s| - |rest|], TextOf(ReadString(s).value))
  {
    hide ReadString, JsonText.Literal;
    StringSound(s);
    JsonText.PiecesAreLiterals(ReadString(s).value);
    assert s[..|s| - |rest|] == PrintString(ReadString(s).value);
  }

  ghost predicate PiecesGoOn(total: Read<seq<JsonGrammar.Piece>>, now: Read<seq<JsonGrammar.Piece>>, output: string) {
    if total.Bad? then now == total
    else
      && now.Got? && now.rest == total.rest && ValidPieces(total.value) && ValidPieces(now.value)
      && TextOf(total.value) == output + TextOf(now.value)
  }

  lemma {:induction false} PiecesStart(s: string)
    ensures PiecesGoOn(ReadPieces(s), ReadPieces(s), "")
  {
    PiecesSound(s);
    if ReadPieces(s).Got? { assert "" + TextOf(ReadPieces(s).value) == TextOf(ReadPieces(s).value); }
  }

  lemma {:induction false} NoPieces(total: Read<seq<JsonGrammar.Piece>>, s: string, output: string)
    requires |s| == 0 && PiecesGoOn(total, ReadPieces(s), output)
    ensures total == Bad(UnexpectedEnd)
  {}

  lemma {:induction false} PieceStep(total: Read<seq<JsonGrammar.Piece>>, s: string, output: string)
    requires s != [] && PiecesGoOn(total, ReadPieces(s), output)
    ensures
      match NextPiece(s)
      case Wrong(e) => total == Bad(e)
      case Closed(rest) => total.Got? && total.rest == rest && ValidPieces(total.value) && output == TextOf(total.value)
      case Piece(p, rest) =>
        && ValidPiece(p)
        && forall more :: more == output + PieceText(p) ==> PiecesGoOn(total, ReadPieces(rest), more)
  {
    hide NextPiece, ValidPiece, PieceText;
    PieceSound(s);
    match NextPiece(s)
    case Wrong(e) =>
    case Closed(rest) =>
      assert output + "" == output;
    case Piece(p, rest) =>
      var more := ReadPieces(rest);
      if more.Got? {
        PiecesSound(rest);
        assert ([p] + more.value)[1..] == more.value;
        Grouped(output, PieceText(p), TextOf(more.value));
      }
  }

  lemma {:induction false} PlainPiece(s: string)
    requires s != []
    ensures s[0] == '"' ==> NextPiece(s) == Closed(s[1..])
    ensures s[0] < ' ' ==> NextPiece(s) == Wrong(InvalidString)
    ensures
      s[0] >= ' ' && s[0] != '"' && s[0] != '\\' ==>
        && NextPiece(s) == PieceRead.Piece(Raw(s[0]), s[1..])
        && ValidPiece(Raw(s[0])) && PieceText(Raw(s[0])) == [s[0]]
  {}

  // ---------- Steps of the number scanner ----------

  lemma {:induction false} NumberShape(conv: Conversion, s: string)
    ensures
      var x := ReadNumeral(s);
      x.Got? ==>
        ValidNumeral(x.value) &&
        ReadNumber(conv, s) == if Representable(conv, x.value) then Got(NNumber(x.value), x.rest) else Bad(InvalidNumber)
    ensures ReadNumeral(s).Bad? ==> ReadNumber(conv, s) == Bad(ReadNumeral(s).error)
  {
    hide ReadNumeral, Representable, ValidNumeral;
    NumeralSound(s);
  }

  lemma {:induction false} NonZeroWhole(t: string)
    ensures t == [] || !IsDigit(t[0]) ==> WholeLength(t) == None
    ensures t != [] && IsDigit(t[0]) && t[0] != '0' ==> DigitCount(t) > 0 && WholeLength(t) == Some(DigitCount(t))
  {}

  lemma {:induction false} NoDigits(s: string)
    ensures DigitCount(s) == 0 <==> s == [] || !IsDigit(s[0])
  {}

  lemma {:induction false} ExponentShape(t: string)
    ensures
      if t == [] || (t[0] != 'e' && t[0] != 'E') then ExponentLength(t) == Some(0)
      else
        var w := AfterSign(t[1..]);
        |w| < |t| &&
        ExponentLength(t) == if DigitCount(w) == 0 then None else Some(|t| - |w| + DigitCount(w))
  {
    hide DigitCount;
  }

  lemma {:induction false} SignSkipped(s: string)
    ensures AfterSign(s) == if s != [] && (s[0] == '+' || s[0] == '-') then s[1..] else s
  {}
}
