/** A text for every JSON value the parser can produce, and the proof that parsing it gives the
    value back. Doubles are spelled by a parameter. */
module JsonPrinter {
  import opened Characters
  import opened JsonGrammar
  import opened JsonReader
  import opened Wrappers

  type Spelling = nat -> Numeral

  /** Values within the parser's limits: 64 nested containers, integers of 64 bits, and doubles
      whose spelling converts back to them. */
  predicate Printable(conv: Conversion, spell: Spelling, j: Json, depth: nat)
    decreases j, 0
  {
    match j
    case Int(n) => MIN_INT64 <= n <= MAX_INT64
    case Num(bits) =>
      var x := spell(bits);
      ValidNumeral(x) && !x.Integral() && conv(x.Text()) == Some(bits)
    case Arr(items) => depth < MAX_JSON_DEPTH && AllPrintable(conv, spell, items, depth + 1)
    case Obj(members) => depth < MAX_JSON_DEPTH && MembersPrintable(conv, spell, members, depth + 1)
    case _ => true
  }

  predicate AllPrintable(conv: Conversion, spell: Spelling, s: seq<Json>, depth: nat)
    decreases s, 1
  {
    s == [] || (Printable(conv, spell, s[0], depth) && AllPrintable(conv, spell, s[1..], depth))
  }

  predicate MembersPrintable(conv: Conversion, spell: Spelling, s: seq<Member>, depth: nat)
    decreases s, 1
  {
    s == [] || (Printable(conv, spell, s[0].value, depth) && MembersPrintable(conv, spell, s[1..], depth))
  }

  function HexChar(n: nat): (c: char)
    requires n < 16
    ensures IsHex(c) && HexDigit(c) == n
  {
    if n < 10 then ('0' as int + n) as char else ('a' as int + (n - 10)) as char
  }

  /** Quotes, backslashes, slashes and the control bytes that have one are written with their short
      escape, the other control bytes as `\u00xx`, the rest as is. */
  function SpellByte(c: char): (p: Piece)
    ensures ValidPiece(p) && PieceText(p) == [c]
  {
    if c == '"' || c == '\\' || c == '/' then Escape(c)
    else if c as int == 8 then Escape('b')
    else if c as int == 9 then Escape('t')
    else if c as int == 10 then Escape('n')
    else if c as int == 12 then Escape('f')
    else if c as int == 13 then Escape('r')
    else if c < ' ' then
      var h := ['0', '0', HexChar(c as int / 16), HexChar(c as int % 16)];
      assert IsHex4(h) && Hex4(h) == c as int;
      Unicode(h)
    else Raw(c)
  }

  function SpellString(s: string): (ps: seq<Piece>)
    ensures ValidPieces(ps)
  {
    if s == [] then [] else [SpellByte(s[0])] + SpellString(s[1..])
  }

  lemma {:induction false} SpelledString(s: string)
    ensures TextOf(SpellString(s)) == s
  {
    if s != [] {
      SpelledString(s[1..]);
      assert SpellString(s)[1..] == SpellString(s[1..]);
      assert s == [s[0]] + s[1..];
    }
  }

  function SpellInteger(n: int): Numeral { Numeral(n < 0, Decimal(if n < 0 then -n else n), "", "") }

  function Spell(spell: Spelling, j: Json): Node
    decreases j, 0
  {
    match j
    case Null => NNull
    case Bool(b) => if b then NTrue else NFalse
    case Int(n) => NNumber(SpellInteger(n))
    case Num(bits) => NNumber(spell(bits))
    case Str(s) => NString(SpellString(s))
    case Arr(items) => NArray("", SpellItems(spell, items))
    case Obj(members) => NObject("", SpellMembers(spell, members))
  }

  function SpellItems(spell: Spelling, s: seq<Json>): seq<Elem>
    decreases s, 1
  {
    if s == [] then [] else [Elem("", Spell(spell, s[0]), "")] + SpellItems(spell, s[1..])
  }

  function SpellMembers(spell: Spelling, s: seq<Member>): seq<Field>
    decreases s, 1
  {
    if s == [] then []
    else [Field("", SpellString(s[0].key), "", "", Spell(spell, s[0].value), "")] + SpellMembers(spell, s[1..])
  }

  lemma {:induction false} SpelledInteger(conv: Conversion, n: int)
    requires MIN_INT64 <= n <= MAX_INT64
    ensures
      var x := SpellInteger(n);
      ValidNumeral(x) && Representable(conv, x) && NumberOf(conv, x) == Int(n)
  {
    var m := if n < 0 then -n else n;
    DecimalRoundTrip(m);
    assert m == 0 ==> |Decimal(m)| == 1;
  }

  lemma {:induction false} SpelledValue(conv: Conversion, spell: Spelling, j: Json, depth: nat)
    requires Printable(conv, spell, j, depth)
    ensures ValidNode(conv, Spell(spell, j), depth) && TreeOf(conv, Spell(spell, j), depth) == j
    decreases j, 0
  {
    hide NumberOf, Representable, ValidNumeral, SpellInteger, SpellString, ValidPieces, TextOf;
    hide ValidElems, ValidFields, ItemsOf, MembersOf, SpellItems, SpellMembers;
    match j
    case Int(n) => SpelledInteger(conv, n);
    case Num(bits) => SpelledDouble(conv, spell(bits));
    case Str(s) => SpelledString(s);
    case Arr(items) =>
      SpelledItems(conv, spell, items, depth + 1);
      NoSpace();
    case Obj(members) =>
      SpelledMembers(conv, spell, members, depth + 1);
      NoSpace();
    case _ =>
  }

  lemma {:induction false} SpelledDouble(conv: Conversion, x: Numeral)
    requires ValidNumeral(x) && !x.Integral() && conv(x.Text()).Some?
    ensures Representable(conv, x) && NumberOf(conv, x) == Num(conv(x.Text()).value)
  {}

  lemma {:induction false} SpelledItems(conv: Conversion, spell: Spelling, s: seq<Json>, depth: nat)
    requires AllPrintable(conv, spell, s, depth)
    ensures ValidElems(conv, SpellItems(spell, s), depth) && ItemsOf(conv, SpellItems(spell, s), depth) == s
    decreases s, 1
  {
    hide Printable, Spell, ValidNode, TreeOf;
    if s != [] {
      SpelledValue(conv, spell, s[0], depth);
      SpelledItems(conv, spell, s[1..], depth);
      var es := SpellItems(spell, s);
      assert es[1..] == SpellItems(spell, s[1..]);
      assert s == [s[0]] + s[1..];
    }
  }

  lemma {:induction false} SpelledMembers(conv: Conversion, spell: Spelling, s: seq<Member>, depth: nat)
    requires MembersPrintable(conv, spell, s, depth)
    ensures ValidFields(conv, SpellMembers(spell, s), depth) && MembersOf(conv, SpellMembers(spell, s), depth) == s
    decreases s, 1
  {
    hide Printable, Spell, ValidNode, TreeOf, TextOf, SpellString, ValidPieces;
    if s != [] {
      SpelledValue(conv, spell, s[0].value, depth);
      SpelledString(s[0].key);
      SpelledMembers(conv, spell, s[1..], depth);
      var fs := SpellMembers(spell, s);
      assert fs[1..] == SpellMembers(spell, s[1..]);
      assert s == [s[0]] + s[1..];
    }
  }

  function PrintJson(spell: Spelling, j: Json): string { PrintDocument(Document("", Spell(spell, j), "")) }

  /** Every value within the limits has a text, and parsing that text gives the value back. */
  lemma {:induction false} PrintedValueParses(conv: Conversion, spell: Spelling, j: Json)
    requires Printable(conv, spell, j, 0)
    ensures
      var r := ReadText(conv, PrintJson(spell, j));
      r.Got? && ValidDocument(conv, r.value) && ValueOf(conv, r.value) == j
  {
    hide ReadText, ValidNode, TreeOf, Spell, Printable, PrintDocument;
    var d := Document("", Spell(spell, j), "");
    SpelledValue(conv, spell, j, 0);
    NoSpace();
    ReadsExactlyTheGrammar(conv, PrintDocument(d), d);
  }

  // ---------- The events tell the value ----------

  predicate IsStart(e: Event) { !e.ArrayEnd? && !e.ObjectEnd? && !e.Key? }

  lemma {:induction false} FirstEvent(j: Json)
    ensures Events(j) != [] && IsStart(Events(j)[0])
  {
    hide EventsOfItems, EventsOfMembers;
  }

  /** No value's events are a proper beginning of another's, so the handler sees the value itself. */
  lemma {:induction false} EventsTellValue(a: Json, b: Json, x: seq<Event>, y: seq<Event>)
    requires Events(a) + x == Events(b) + y
    ensures a == b && x == y
    decreases a, 0
  {
    hide EventsOfItems, EventsOfMembers;
    FirstEvent(a);
    FirstEvent(b);
    assert (Events(a) + x)[0] == Events(a)[0] && (Events(b) + y)[0] == Events(b)[0];
    if a.Arr? {
      SameTail(Events(a), Events(b), ArrayBegin, EventsOfItems(a.items), EventsOfItems(b.items), ArrayEnd, x, y);
      EventsTellItems(a.items, b.items, x, y);
    } else if a.Obj? {
      SameTail(Events(a), Events(b), ObjectBegin, EventsOfMembers(a.members), EventsOfMembers(b.members), ObjectEnd,
               x, y);
      EventsTellMembers(a.members, b.members, x, y);
    } else {
      assert x == (Events(a) + x)[1..] && y == (Events(b) + y)[1..];
    }
  }

  lemma {:induction false} SameTail(a: seq<Event>, b: seq<Event>, open: Event, p: seq<Event>, q: seq<Event>,
                                    close: Event, x: seq<Event>, y: seq<Event>)
    requires a == [open] + p + [close] && b == [open] + q + [close] && a + x == b + y
    ensures p + ([close] + x) == q + ([close] + y)
  {
    assert p + ([close] + x) == (a + x)[1..];
    assert q + ([close] + y) == (b + y)[1..];
  }

  lemma {:induction false} EventsTellItems(a: seq<Json>, b: seq<Json>, x: seq<Event>, y: seq<Event>)
    requires EventsOfItems(a) + ([ArrayEnd] + x) == EventsOfItems(b) + ([ArrayEnd] + y)
    ensures a == b && x == y
    decreases a, 1
  {
    hide Events;
    var s, t := [ArrayEnd] + x, [ArrayEnd] + y;
    ItemsFirst(a, s);
    ItemsFirst(b, t);
    if a == [] {
      assert x == s[1..] && y == t[1..];
    } else {
      var p, q := EventsOfItems(a[1..]) + s, EventsOfItems(b[1..]) + t;
      EventsTellValue(a[0], b[0], p, q);
      EventsTellItems(a[1..], b[1..], x, y);
      assert a == [a[0]] + a[1..] && b == [b[0]] + b[1..];
    }
  }

  lemma {:induction false} ItemsFirst(a: seq<Json>, s: seq<Event>)
    requires s != [] && s[0] == ArrayEnd
    ensures
      var e := EventsOfItems(a) + s;
      if a == [] then e == s else e == Events(a[0]) + (EventsOfItems(a[1..]) + s) && e[0] != ArrayEnd
  {
    if a != [] {
      FirstEvent(a[0]);
      assert (EventsOfItems(a) + s)[0] == Events(a[0])[0];
    }
  }

  lemma {:induction false} EventsTellMembers(a: seq<Member>, b: seq<Member>, x: seq<Event>, y: seq<Event>)
    requires EventsOfMembers(a) + ([ObjectEnd] + x) == EventsOfMembers(b) + ([ObjectEnd] + y)
    ensures a == b && x == y
    decreases a, 1
  {
    hide Events;
    var s, t := [ObjectEnd] + x, [ObjectEnd] + y;
    MembersFirst(a, s);
    MembersFirst(b, t);
    if a == [] {
      assert x == s[1..] && y == t[1..];
    } else {
      var p, q := EventsOfMembers(a[1..]) + s, EventsOfMembers(b[1..]) + t;
      var u, v := [Key(a[0].key)] + (Events(a[0].value) + p), [Key(b[0].key)] + (Events(b[0].value) + q);
      assert u[0] == v[0] && u[1..] == v[1..];
      assert u[1..] == Events(a[0].value) + p && v[1..] == Events(b[0].value) + q;
      EventsTellValue(a[0].value, b[0].value, p, q);
      EventsTellMembers(a[1..], b[1..], x, y);
      assert a == [a[0]] + a[1..] && b == [b[0]] + b[1..];
    }
  }

  lemma {:induction false} MembersFirst(a: seq<Member>, s: seq<Event>)
    requires s != [] && s[0] == ObjectEnd
    ensures
      var e := EventsOfMembers(a) + s;
      if a == [] then e == s
      else e == [Key(a[0].key)] + (Events(a[0].value) + (EventsOfMembers(a[1..]) + s)) && e[0] != ObjectEnd
  {
    hide Events;
  }
}
