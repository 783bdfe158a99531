/** The restricted initializer grammar: nested lists of numbers, read from source text and
    printed in a canonical form that is stored and read again. The codec of real numbers is a parameter. */
module AggregateInitializer {
  import opened Characters
  import opened InitializerText
  import opened Wrappers

  datatype Kind = Zero | Signed | Unsigned | Real

  /** A construction value without operand; `bits` is its 64-bit word. */
  datatype Value = Value(kind: Kind, bits: nat)

  datatype Initializer = Leaf(value: Value) | List(children: seq<Initializer>)

  const MAX_DEPTH: nat := 64
  const MAX_NODES: nat := 65536
  const WORD: nat := 0x1_0000_0000_0000_0000
  const HALF: nat := 0x8000_0000_0000_0000

  // ---------- Characters ----------

  predicate IsStop(c: char) { c == ',' || c == '}' || c == ')' }
  predicate IsRealMark(c: char) { c == '.' || c == 'e' || c == 'E' }
  predicate HasRealMark(s: string) { exists i :: 0 <= i < |s| && IsRealMark(s[i]) }

  /** The length of the token: everything before the next comma or closing bracket. */
  function TokenLength(s: string): (n: nat)
    ensures n <= |s|
    ensures forall i :: 0 <= i < n ==> !IsStop(s[i])
    ensures n < |s| ==> IsStop(s[n])
  {
    if s == [] || IsStop(s[0]) then 0 else 1 + TokenLength(s[1..])
  }

  function TrimRight(s: string): (r: string)
    ensures r <= s
  {
    if s == [] || !IsSpace(s[|s| - 1]) then s else TrimRight(s[..|s| - 1])
  }

  // ---------- Decimal numbers ----------

  /** `from_chars` on an unsigned word: digits to the end of the token, in range. */
  function ParseUnsigned(s: string): Option<nat> {
    if s == [] || !AllDigits(s) || DecimalValue(s) >= WORD then None else Some(DecimalValue(s))
  }

  /** `from_chars` on a signed word, for a token that starts with a minus sign; the result is
      the two's-complement word. */
  function ParseNegative(s: string): Option<nat>
    requires s != [] && s[0] == '-'
  {
    if |s| == 1 || !AllDigits(s[1..]) || DecimalValue(s[1..]) > HALF then None
    else Some(if DecimalValue(s[1..]) == 0 then 0 else WORD - DecimalValue(s[1..]))
  }

  function SignedWord(bits: nat): int { if bits >= HALF then bits - WORD else bits }

  // ---------- The reader, as a function ----------

  function Tagged(kind: Kind, bits: Option<nat>): Option<Value> {
    if bits.Some? then Some(Value(kind, bits.value)) else None
  }

  function ParseToken(c: Codec, raw: string): Option<Value> {
    var token := TrimRight(raw);
    if token == "false" || token == "nullptr" then Some(Value(Zero, 0))
    else if token == "true" then Some(Value(Unsigned, 1))
    else
      var number := if token != [] && token[0] == '+' then token[1..] else token;
      if number == [] then None
      else if HasRealMark(number) then Tagged(Real, c.parse(number))
      else if number[0] == '-' then Tagged(Signed, ParseNegative(number))
      else Tagged(Unsigned, ParseUnsigned(number))
  }

  datatype Parsed = Fail | Done(value: Initializer, rest: string, nodes: nat)

  function ParseValue(c: Codec, s0: string, depth: nat, nodes: nat): (r: Parsed)
    ensures r.Done? ==> |r.rest| < |s0|
    decreases |s0|, 1
  {
    if depth > MAX_DEPTH || nodes + 1 > MAX_NODES then Fail
    else
      var s := Skip(s0);
      if s == [] then Fail
      else if s[0] == '{' then
        var t := Skip(s[1..]);
        if t != [] && t[0] == '}' then Done(List([]), t[1..], nodes + 1)
        else ParseChildren(c, t, depth, nodes + 1, [])
      else if s[0] == '(' then
        var r := ParseValue(c, s[1..], depth + 1, nodes + 1);
        if r.Fail? then Fail
        else
          var t := Skip(r.rest);
          if t != [] && t[0] == ')' then Done(r.value, t[1..], r.nodes) else Fail
      else
        var n := TokenLength(s);
        var v := ParseToken(c, s[..n]);
        if v.None? then Fail else Done(Leaf(v.value), s[n..], nodes + 1)
  }

  /** The element loop: `done` are the children read so far. */
  function ParseChildren(c: Codec, s: string, depth: nat, nodes: nat, done: seq<Initializer>): (r: Parsed)
    ensures r.Done? ==> |r.rest| < |s|
    decreases |s|, 2
  {
    var first := ParseValue(c, s, depth + 1, nodes);
    if first.Fail? then Fail
    else
      var t := Skip(first.rest);
      if t == [] then Fail
      else if t[0] == '}' then Done(List(done + [first.value]), t[1..], first.nodes)
      else if t[0] != ',' then Fail
      else
        var u := Skip(t[1..]);
        if u != [] && u[0] == '}' then Done(List(done + [first.value]), u[1..], first.nodes)
        else ParseChildren(c, u, depth, first.nodes, done + [first.value])
  }

  function Parse(c: Codec, text: string): Option<Initializer> {
    var r := ParseValue(c, text, 0, 0);
    if r.Done? && Skip(r.rest) == [] then Some(r.value) else None
  }

  // ---------- The printer, as a function ----------

  function PrintReal(c: Codec, bits: nat): string {
    var s := c.format(bits);
    if HasRealMark(s) then s else s + ".0"
  }

  function PrintValue(c: Codec, v: Value): string {
    match v.kind
    case Real => PrintReal(c, v.bits)
    case Signed => if v.bits >= HALF && v.bits < WORD then "-" + Decimal(WORD - v.bits) else Decimal(v.bits)
    case Zero => Decimal(v.bits)
    case Unsigned => Decimal(v.bits)
  }

  function Print(c: Codec, i: Initializer): string
    decreases i, 0
  {
    match i
    case Leaf(v) => PrintValue(c, v)
    case List(children) => "{" + PrintFirst(c, children) + "}"
  }

  function PrintFirst(c: Codec, children: seq<Initializer>): string
    decreases children, 1
  {
    if children == [] then "" else Print(c, children[0]) + PrintMore(c, children[1..])
  }

  function PrintMore(c: Codec, children: seq<Initializer>): string
    decreases children, 1
  {
    if children == [] then "" else "," + Print(c, children[0]) + PrintMore(c, children[1..])
  }

  // One unfolding of the reader, case by case.

  lemma {:induction false} UnfoldList(c: Codec, s: string, depth: nat, nodes: nat)
    requires depth <= MAX_DEPTH && nodes < MAX_NODES && Skip(s) != [] && Skip(s)[0] == '{'
    ensures
      var t := Skip(Skip(s)[1..]);
      ParseValue(c, s, depth, nodes)
      == if t != [] && t[0] == '}' then Done(List([]), t[1..], nodes + 1) else ParseChildren(c, t, depth, nodes + 1, [])
  {}

  lemma {:induction false} UnfoldParens(c: Codec, s: string, depth: nat, nodes: nat)
    requires depth <= MAX_DEPTH && nodes < MAX_NODES && Skip(s) != [] && Skip(s)[0] == '('
    ensures
      var r := ParseValue(c, Skip(s)[1..], depth + 1, nodes + 1);
      ParseValue(c, s, depth, nodes)
      == if r.Done? && Skip(r.rest) != [] && Skip(r.rest)[0] == ')' then Done(r.value, Skip(r.rest)[1..], r.nodes)
         else Fail
  {}

  lemma {:induction false} UnfoldLeaf(c: Codec, s: string, depth: nat, nodes: nat)
    requires depth <= MAX_DEPTH && nodes < MAX_NODES && Skip(s) != [] && Skip(s)[0] !in "{("
    ensures
      var t := Skip(s);
      var v := ParseToken(c, t[..TokenLength(t)]);
      ParseValue(c, s, depth, nodes)
      == if v.Some? then Done(Leaf(v.value), t[TokenLength(t)..], nodes + 1) else Fail
  {}

  lemma {:induction false} UnfoldOver(c: Codec, s: string, depth: nat, nodes: nat)
    requires depth > MAX_DEPTH || nodes >= MAX_NODES || Skip(s) == []
    ensures ParseValue(c, s, depth, nodes).Fail?
  {}

  lemma {:induction false} UnfoldChildren(c: Codec, s: string, depth: nat, nodes: nat, done: seq<Initializer>)
    ensures
      var first := ParseValue(c, s, depth + 1, nodes);
      ParseChildren(c, s, depth, nodes, done)
      == if first.Fail? then Fail
         else AfterChild(c, Skip(first.rest), depth, first.nodes, done + [first.value])
  {}

  /** What follows an element: the end of the list, or a comma and more. */
  function AfterChild(c: Codec, t: string, depth: nat, nodes: nat, done: seq<Initializer>): Parsed {
    if t == [] then Fail
    else if t[0] == '}' then Done(List(done), t[1..], nodes)
    else if t[0] != ',' then Fail
    else
      var u := Skip(t[1..]);
      if u != [] && u[0] == '}' then Done(List(done), u[1..], nodes)
      else ParseChildren(c, u, depth, nodes, done)
  }

  // ---------- What accepted values look like ----------

  /** Codec results that reading can produce are finite doubles of 64 bits whose printed form
      is plain numeric text and reads back as the same bits. */
  predicate NumericText(s: string) {
    s != [] && (IsDigit(s[0]) || s[0] == '-') &&
    forall i :: 0 <= i < |s| ==> IsDigit(s[i]) || s[i] in "+-.eE"
  }

  predicate Reprints(c: Codec, bits: nat) {
    NumericText(PrintReal(c, bits)) && c.parse(PrintReal(c, bits)) == Some(bits)
  }

  ghost predicate RoundTrips(c: Codec) {
    forall s: string :: c.parse(s).Some? ==> Reprints(c, c.parse(s).value)
  }

  predicate GoodLeaf(c: Codec, v: Value) {
    match v.kind
    case Zero => v.bits == 0
    case Unsigned => v.bits < WORD
    case Signed => v.bits == 0 || HALF <= v.bits < WORD
    case Real => Reprints(c, v.bits)
  }

  function Size(i: Initializer): nat
    decreases i, 0
  {
    if i.Leaf? then 1 else 1 + SizeAll(i.children)
  }

  function SizeAll(s: seq<Initializer>): nat
    decreases s, 1
  {
    if s == [] then 0 else Size(s[0]) + SizeAll(s[1..])
  }

  /** Readable leaves only, and no list nested deeper than the reader's limit. */
  predicate Good(c: Codec, i: Initializer, depth: nat)
    decreases i, 0
  {
    depth <= MAX_DEPTH && if i.Leaf? then GoodLeaf(c, i.value) else GoodAll(c, i.children, depth + 1)
  }

  predicate GoodAll(c: Codec, s: seq<Initializer>, depth: nat)
    decreases s, 1
  {
    s == [] || (Good(c, s[0], depth) && GoodAll(c, s[1..], depth))
  }

  lemma {:induction false} Snoc(c: Codec, s: seq<Initializer>, x: Initializer, depth: nat)
    ensures SizeAll(s + [x]) == SizeAll(s) + Size(x)
    ensures GoodAll(c, s + [x], depth) == (GoodAll(c, s, depth) && Good(c, x, depth))
  {
    if s == [] {
      assert s + [x] == [x];
    } else {
      assert (s + [x])[1..] == s[1..] + [x];
      Snoc(c, s[1..], x, depth);
    }
  }

  lemma {:induction false} ShallowerIsGood(c: Codec, i: Initializer, depth: nat)
    requires Good(c, i, depth + 1)
    ensures Good(c, i, depth)
    decreases i, 0
  {
    if i.List? { ShallowerAllGood(c, i.children, depth + 1); }
  }

  lemma {:induction false} ShallowerAllGood(c: Codec, s: seq<Initializer>, depth: nat)
    requires GoodAll(c, s, depth + 1)
    ensures GoodAll(c, s, depth)
    decreases s, 1
  {
    if s != [] {
      ShallowerIsGood(c, s[0], depth);
      ShallowerAllGood(c, s[1..], depth);
    }
  }

  lemma {:induction false} TokenIsGood(c: Codec, raw: string)
    requires RoundTrips(c)
    ensures ParseToken(c, raw).Some? ==> GoodLeaf(c, ParseToken(c, raw).value)
  {
    var token := TrimRight(raw);
    var number := if token != [] && token[0] == '+' then token[1..] else token;
    if c.parse(number).Some? {
      assert Reprints(c, c.parse(number).value);
    }
  }

  /** Reading keeps both budgets: the accepted value nests no deeper and has no more nodes
      than the reader counted, with parentheses counted but absent from the value. */
  lemma {:induction false} AcceptedIsGood(c: Codec, s: string, depth: nat, nodes: nat)
    requires RoundTrips(c)
    ensures
      var r := ParseValue(c, s, depth, nodes);
      r.Done? ==> Good(c, r.value, depth) && nodes + Size(r.value) <= r.nodes <= MAX_NODES
    decreases |s|, 1
  {
    if depth <= MAX_DEPTH && nodes + 1 <= MAX_NODES {
      var t := Skip(s);
      if t != [] && t[0] == '{' {
        AcceptedChildrenGood(c, Skip(t[1..]), depth, nodes + 1, [], nodes + 1);
      } else if t != [] && t[0] == '(' {
        AcceptedIsGood(c, t[1..], depth + 1, nodes + 1);
        var r := ParseValue(c, t[1..], depth + 1, nodes + 1);
        if r.Done? { ShallowerIsGood(c, r.value, depth); }
      } else if t != [] {
        TokenIsGood(c, t[..TokenLength(t)]);
      }
    }
  }

  lemma {:induction false} AcceptedChildrenGood(c: Codec, s: string, depth: nat, nodes: nat, done: seq<Initializer>,
                                                start: nat)
    requires RoundTrips(c) && depth <= MAX_DEPTH
    requires GoodAll(c, done, depth + 1) && start + SizeAll(done) <= nodes
    ensures
      var r := ParseChildren(c, s, depth, nodes, done);
      r.Done? ==> Good(c, r.value, depth) && start + Size(r.value) - 1 <= r.nodes <= MAX_NODES
    decreases |s|, 2
  {
    AcceptedIsGood(c, s, depth + 1, nodes);
    var first := ParseValue(c, s, depth + 1, nodes);
    if first.Done? {
      Snoc(c, done, first.value, depth + 1);
      var t := Skip(first.rest);
      if t != [] && t[0] == ',' {
        var u := Skip(t[1..]);
        if u == [] || u[0] != '}' {
          AcceptedChildrenGood(c, u, depth, first.nodes, done + [first.value], start);
        }
      }
    }
  }

  // ---------- The canonical form ----------

  /** What printing forgets: the kinds of zeros and of small signed words. */
  function CanonValue(v: Value): Value {
    match v.kind
    case Zero => Value(Unsigned, v.bits)
    case Signed => if v.bits >= HALF then v else Value(Unsigned, v.bits)
    case Unsigned => v
    case Real => v
  }

  function Canon(i: Initializer): Initializer
    decreases i, 0
  {
    if i.Leaf? then Leaf(CanonValue(i.value)) else List(CanonAll(i.children))
  }

  function CanonAll(s: seq<Initializer>): (r: seq<Initializer>)
    ensures |r| == |s|
    ensures forall k :: 0 <= k < |s| ==> r[k] == Canon(s[k])
    decreases s, 1
  {
    if s == [] then [] else [Canon(s[0])] + CanonAll(s[1..])
  }

  function Meaning(v: Value): Number {
    match v.kind
    case Zero => Integer(0)
    case Signed => Integer(SignedWord(v.bits))
    case Unsigned => Integer(v.bits)
    case Real => Double(v.bits)
  }

  predicate SameMeaning(a: Initializer, b: Initializer)
    decreases a, 0
  {
    if a.Leaf? then b.Leaf? && Meaning(a.value) == Meaning(b.value)
    else b.List? && SameMeanings(a.children, b.children)
  }

  predicate SameMeanings(a: seq<Initializer>, b: seq<Initializer>)
    decreases a, 1
  {
    |a| == |b| && (a == [] || (SameMeaning(a[0], b[0]) && SameMeanings(a[1..], b[1..])))
  }

  lemma {:induction false} CanonKeepsMeaning(c: Codec, i: Initializer, depth: nat)
    requires Good(c, i, depth)
    ensures SameMeaning(i, Canon(i)) && Print(c, Canon(i)) == Print(c, i)
    decreases i, 0
  {
    if i.List? { CanonAllKeepsMeaning(c, i.children, depth + 1); }
  }

  lemma {:induction false} CanonAllKeepsMeaning(c: Codec, s: seq<Initializer>, depth: nat)
    requires GoodAll(c, s, depth)
    ensures SameMeanings(s, CanonAll(s))
    ensures PrintFirst(c, CanonAll(s)) == PrintFirst(c, s) && PrintMore(c, CanonAll(s)) == PrintMore(c, s)
    decreases s, 1
  {
    if s != [] {
      CanonKeepsMeaning(c, s[0], depth);
      CanonAllKeepsMeaning(c, s[1..], depth);
      assert CanonAll(s)[1..] == CanonAll(s[1..]);
    }
  }

  // ---------- Reading back what was printed ----------

  lemma {:induction false} TokenEnds(p: string, rest: string)
    requires forall i :: 0 <= i < |p| ==> !IsStop(p[i])
    requires rest == [] || IsStop(rest[0])
    ensures TokenLength(p + rest) == |p|
  {
    if p == [] {
      assert p + rest == rest;
    } else {
      assert (p + rest)[1..] == p[1..] + rest;
      TokenEnds(p[1..], rest);
    }
  }

  lemma {:induction false} PrintedLeaf(c: Codec, v: Value)
    requires GoodLeaf(c, v)
    ensures NumericText(PrintValue(c, v))
    ensures ParseToken(c, PrintValue(c, v)) == Some(CanonValue(v))
  {
    hide ParseToken, Decimal;
    var p := PrintValue(c, v);
    if v.kind == Real {
      assert HasRealMark(p) by {
        if !HasRealMark(c.format(v.bits)) {
          assert p[|c.format(v.bits)|] == '.';
        }
      }
      NumericToken(c, p);
    } else if v.kind == Signed && v.bits >= HALF {
      var digits := Decimal(WORD - v.bits);
      assert p == "-" + digits;
      assert p[1..] == digits;
      DecimalRoundTrip(WORD - v.bits);
      NoMark(p);
      NumericToken(c, p);
    } else {
      DecimalRoundTrip(v.bits);
      NoMark(p);
      NumericToken(c, p);
    }
  }

  /** Numeric text is neither trimmed nor one of the three words. */
  lemma {:induction false} NumericToken(c: Codec, p: string)
    requires NumericText(p)
    ensures
      ParseToken(c, p)
      == if HasRealMark(p) then Tagged(Real, c.parse(p))
         else if p[0] == '-' then Tagged(Signed, ParseNegative(p))
         else Tagged(Unsigned, ParseUnsigned(p))
  {
    assert TrimRight(p) == p;
    assert p[0] != 'f' && p[0] != 'n' && p[0] != 't' && p[0] != '+';
  }

  lemma {:induction false} NoMark(p: string)
    requires p != [] && (IsDigit(p[0]) || p[0] == '-') && AllDigits(p[1..])
    ensures !HasRealMark(p)
  {
    forall i | 0 <= i < |p| ensures !IsRealMark(p[i]) {
      if i > 0 { assert p[i] == p[1..][i - 1]; }
    }
  }

  /** Printed text starts with a bracket or a numeral, so no white space is skipped before it. */
  lemma {:induction false} PrintStart(c: Codec, i: Initializer, depth: nat)
    requires Good(c, i, depth)
    ensures Print(c, i) != [] && Print(c, i)[0] !in " \t\n\r}(,)"
  {
    if i.Leaf? { PrintedLeaf(c, i.value); }
  }

  lemma {:induction false} NothingToSkip(s: string)
    requires s == [] || !IsSpace(s[0])
    ensures Skip(s) == s
  {}

  lemma {:induction false} RereadLeaf(c: Codec, v: Value, rest: string, depth: nat, nodes: nat)
    requires GoodLeaf(c, v) && depth <= MAX_DEPTH && nodes < MAX_NODES
    requires rest == [] || IsStop(rest[0])
    ensures ParseValue(c, PrintValue(c, v) + rest, depth, nodes) == Done(Leaf(CanonValue(v)), rest, nodes + 1)
  {
    hide ParseValue, ParseChildren, PrintValue, ParseToken, TokenLength, Skip, GoodLeaf, CanonValue;
    var p := PrintValue(c, v);
    var s := p + rest;
    PrintedLeaf(c, v);
    TokenEnds(p, rest);
    assert s[0] == p[0];
    assert s[..|p|] == p && s[|p|..] == rest;
    NothingToSkip(s);
    UnfoldLeaf(c, s, depth, nodes);
  }

  /** A list's text from an element on, with the closing bracket and what follows it. */
  function FromElement(c: Codec, s: seq<Initializer>, rest: string): string {
    PrintFirst(c, s) + ("}" + rest)
  }

  function AfterElement(c: Codec, s: seq<Initializer>, rest: string): string {
    PrintMore(c, s) + ("}" + rest)
  }

  lemma {:induction false} ElementSplits(c: Codec, s: seq<Initializer>, rest: string)
    requires s != []
    ensures FromElement(c, s, rest) == Print(c, s[0]) + AfterElement(c, s[1..], rest)
  {}

  lemma {:induction false} AfterElementStarts(c: Codec, s: seq<Initializer>, rest: string)
    ensures
      var t := AfterElement(c, s, rest);
      t != [] && if s == [] then t[0] == '}' && t[1..] == rest else t[0] == ',' && t[1..] == FromElement(c, s, rest)
  {
    hide Print;
    if s == [] {
      assert AfterElement(c, s, rest) == "}" + rest;
    } else {
      assert AfterElement(c, s, rest) == "," + FromElement(c, s, rest);
    }
  }

  lemma {:induction false} FromElementStarts(c: Codec, s: seq<Initializer>, rest: string, depth: nat)
    requires s != [] && GoodAll(c, s, depth)
    ensures FromElement(c, s, rest) != [] && FromElement(c, s, rest)[0] !in " \t\n\r}(,)"
  {
    PrintStart(c, s[0], depth);
    ElementSplits(c, s, rest);
  }

  lemma {:induction false} BracketOpens(c: Codec, body: string, depth: nat, nodes: nat)
    requires depth <= MAX_DEPTH && nodes < MAX_NODES
    requires body != [] && !IsSpace(body[0])
    ensures
      ParseValue(c, "{" + body, depth, nodes)
      == if body[0] == '}' then Done(List([]), body[1..], nodes + 1)
         else ParseChildren(c, body, depth, nodes + 1, [])
  {
    hide ParseValue, ParseChildren, Skip;
    var s := "{" + body;
    assert s[0] == '{' && s[1..] == body;
    NothingToSkip(s);
    NothingToSkip(body);
    UnfoldList(c, s, depth, nodes);
  }

  lemma {:induction false} RereadEmpty(c: Codec, rest: string, depth: nat, nodes: nat)
    requires depth <= MAX_DEPTH && nodes < MAX_NODES
    ensures ParseValue(c, "{" + ("}" + rest), depth, nodes) == Done(List([]), rest, nodes + 1)
  {
    hide ParseValue, ParseChildren, Skip;
    assert ("}" + rest)[1..] == rest;
    BracketOpens(c, "}" + rest, depth, nodes);
  }

  lemma {:induction false} Reread(c: Codec, i: Initializer, rest: string, depth: nat, nodes: nat)
    requires Good(c, i, depth) && nodes + Size(i) <= MAX_NODES
    requires rest == [] || IsStop(rest[0])
    ensures ParseValue(c, Print(c, i) + rest, depth, nodes) == Done(Canon(i), rest, nodes + Size(i))
    decreases i, 0
  {
    hide ParseValue, ParseChildren, PrintValue, Skip, GoodLeaf, CanonValue;
    if i.Leaf? {
      RereadLeaf(c, i.value, rest, depth, nodes);
    } else {
      var body := FromElement(c, i.children, rest);
      assert Print(c, i) + rest == "{" + body;
      if i.children == [] {
        RereadEmpty(c, rest, depth, nodes);
        assert body == "}" + rest;
      } else {
        FromElementStarts(c, i.children, rest, depth + 1);
        RereadChildren(c, i.children, rest, depth, nodes + 1, []);
        BracketOpens(c, body, depth, nodes);
        assert [] + CanonAll(i.children) == CanonAll(i.children);
      }
    }
  }

  lemma {:induction false} RereadChildren(c: Codec, s: seq<Initializer>, rest: string, depth: nat, nodes: nat,
                                          done: seq<Initializer>)
    requires s != [] && GoodAll(c, s, depth + 1) && nodes + SizeAll(s) <= MAX_NODES
    ensures
      ParseChildren(c, FromElement(c, s, rest), depth, nodes, done)
      == Done(List(done + CanonAll(s)), rest, nodes + SizeAll(s))
    decreases s, 1
  {
    hide ParseValue, ParseChildren, PrintValue, Skip, GoodLeaf, CanonValue, Print, Good, Size, Canon;
    hide FromElement, AfterElement, PrintFirst, PrintMore;
    var tail := AfterElement(c, s[1..], rest);
    var more := done + [Canon(s[0])];
    assert more + CanonAll(s[1..]) == done + CanonAll(s);
    assert s[1..] == [] ==> more == done + CanonAll(s);
    ElementSplits(c, s, rest);
    AfterElementStarts(c, s[1..], rest);
    UnfoldChildren(c, FromElement(c, s, rest), depth, nodes, done);
    Reread(c, s[0], tail, depth + 1, nodes);
    NothingToSkip(tail);
    var value := Canon(s[0]);
    assert ParseValue(c, FromElement(c, s, rest), depth + 1, nodes) == Done(value, tail, nodes + Size(s[0]));
    assert ParseChildren(c, FromElement(c, s, rest), depth, nodes, done)
        == AfterChild(c, tail, depth, nodes + Size(s[0]), more);
    if s[1..] != [] {
      FromElementStarts(c, s[1..], rest, depth + 1);
      NothingToSkip(tail[1..]);
      RereadChildren(c, s[1..], rest, depth, nodes + Size(s[0]), more);
    }
  }

  /** Whatever text the reader accepts, the printed form of its value is accepted too, denotes
      the same nested numbers, and is a fixed point of reading and printing. */
  lemma {:induction false} PrintedFormIsStable(c: Codec, text: string)
    requires RoundTrips(c)
    ensures
      Parse(c, text).Some? ==>
        var v := Parse(c, text).value;
        && Parse(c, Print(c, v)) == Some(Canon(v))
        && SameMeaning(v, Canon(v))
        && Print(c, Canon(v)) == Print(c, v)
  {
    if Parse(c, text).Some? {
      var v := Parse(c, text).value;
      AcceptedIsGood(c, text, 0, 0);
      CanonKeepsMeaning(c, v, 0);
      Reread(c, v, [], 0, 0);
      assert Print(c, v) + [] == Print(c, v);
    }
  }

  /** A value without `false`, `nullptr` or `-0` leaves. */
  predicate KindsPlain(i: Initializer)
    decreases i, 0
  {
    if i.Leaf? then i.value.kind != Zero && (i.value.kind == Signed ==> i.value.bits >= HALF)
    else AllKindsPlain(i.children)
  }

  predicate AllKindsPlain(s: seq<Initializer>)
    decreases s, 1
  {
    s == [] || (KindsPlain(s[0]) && AllKindsPlain(s[1..]))
  }

  lemma {:induction false} CanonFixes(i: Initializer)
    ensures Canon(i) == i <==> KindsPlain(i)
    decreases i, 0
  {
    if i.List? { CanonAllFixes(i.children); }
  }

  lemma {:induction false} CanonAllFixes(s: seq<Initializer>)
    ensures CanonAll(s) == s <==> AllKindsPlain(s)
    decreases s, 1
  {
    if s != [] {
      CanonFixes(s[0]);
      CanonAllFixes(s[1..]);
      assert s == [s[0]] + s[1..];
      assert CanonAll(s)[0] == Canon(s[0]) && CanonAll(s)[1..] == CanonAll(s[1..]);
    }
  }

  /** The stored text gives back the very value, leaf kinds included, exactly when no leaf was
      written as `false`, `nullptr` or a negative zero. */
  lemma {:induction false} SameValueExactly(c: Codec, text: string)
    requires RoundTrips(c)
    ensures
      Parse(c, text).Some? ==>
        var v := Parse(c, text).value;
        Parse(c, Print(c, v)) == Some(v) <==> KindsPlain(v)
  {
    PrintedFormIsStable(c, text);
    if Parse(c, text).Some? { CanonFixes(Parse(c, text).value); }
  }

  lemma {:induction false} FalseComesBackAsZero(c: Codec)
    ensures Parse(c, "false") == Some(Leaf(Value(Zero, 0)))
    ensures Parse(c, Print(c, Leaf(Value(Zero, 0)))) == Some(Leaf(Value(Unsigned, 0)))
  {
    var v := Leaf(Value(Zero, 0));
    Reread(c, v, [], 0, 0);
    assert Print(c, v) + [] == Print(c, v);
    var f := "false";
    TokenEnds(f, []);
    assert f + [] == f && f[..|f|] == f && f[|f|..] == [];
  }

  // ---------- The reader and the printer, as the program runs them ----------

  class Reader {
    const codec: Codec
    const text: string
    var position: nat
    var nodes: nat

    constructor (codec: Codec, text: string)
      ensures this.codec == codec && this.text == text && position == 0 && nodes == 0
    {
      this.codec, this.text, position, nodes := codec, text, 0, 0;
    }

    function Rest(): string
      reads this
      requires position <= |text|
    {
      text[position..]
    }

    method Advance()
      requires position < |text|
      modifies `position
      ensures position == old(position) + 1 && Rest() == old(Rest())[1..]
    {
      position := position + 1;
    }

    method SkipSpace()
      requires position <= |text|
      modifies `position
      ensures old(position) <= position <= |text|
      ensures Rest() == Skip(old(Rest()))
    {
      while position < |text| && IsSpace(text[position])
        invariant old(position) <= position <= |text|
        invariant Skip(Rest()) == Skip(old(Rest()))
      {
        assert Rest()[1..] == text[position + 1..];
        position := position + 1;
      }
    }

    method ReadToken() returns (token: string)
      requires position <= |text|
      modifies `position
      ensures position <= |text|
      ensures
        var n := TokenLength(old(Rest()));
        token == TrimRight(old(Rest())[..n]) && Rest() == old(Rest())[n..]
    {
      var begin := position;
      while position < |text| && !IsStop(text[position])
        invariant begin <= position <= |text|
        invariant TokenLength(old(Rest())) == position - begin + TokenLength(Rest())
      {
        assert Rest()[1..] == text[position + 1..];
        position := position + 1;
      }
      token := text[begin..position];
      assert token == old(Rest())[..TokenLength(old(Rest()))];
      ghost var raw := token;
      while token != [] && IsSpace(token[|token| - 1])
        invariant TrimRight(token) == TrimRight(raw)
      {
        token := token[..|token| - 1];
      }
    }

    /** One value: on success what the reader function returns, and the position moved to
        where that function stopped. */
    method ReadValue(depth: nat) returns (ok: bool, value: Initializer)
      requires position <= |text|
      modifies `position, `nodes
      ensures old(position) <= position <= |text|
      ensures
        var r := ParseValue(codec, old(Rest()), depth, old(nodes));
        ok == r.Done? && (ok ==> r == Done(value, Rest(), nodes))
      decreases |text| - position, 1
    {
      hide ParseValue, ParseChildren, Skip, ParseToken, TrimRight, TokenLength;
      ghost var s := Rest();
      ghost var n := nodes;
      ok, value := false, Leaf(Value(Zero, 0));
      if depth > MAX_DEPTH {
        UnfoldOver(codec, s, depth, n);
        return;
      }
      nodes := nodes + 1;
      if nodes > MAX_NODES {
        UnfoldOver(codec, s, depth, n);
        return;
      }
      SkipSpace();
      ghost var t := Rest();
      if position == |text| {
        UnfoldOver(codec, s, depth, n);
        return;
      }
      assert t[0] == text[position];
      if text[position] == '{' {
        UnfoldList(codec, s, depth, n);
        Advance();
        SkipSpace();
        if position < |text| && text[position] == '}' {
          Advance();
          return true, List([]);
        }
        ok, value := ReadChildren(depth);
      } else if text[position] == '(' {
        UnfoldParens(codec, s, depth, n);
        Advance();
        ok, value := ReadValue(depth + 1);
        if !ok { return; }
        SkipSpace();
        if position < |text| && text[position] == ')' {
          Advance();
        } else {
          ok := false;
        }
      } else {
        UnfoldLeaf(codec, s, depth, n);
        var token := ReadToken();
        TrimmedToken(codec, t[..TokenLength(t)]);
        var v := ParseToken(codec, token);
        if v.Some? { ok, value := true, Leaf(v.value); }
      }
    }

    /** The element loop of a bracketed list, after its opening bracket. */
    method ReadChildren(depth: nat) returns (ok: bool, value: Initializer)
      requires position <= |text|
      modifies `position, `nodes
      ensures old(position) <= position <= |text|
      ensures
        var r := ParseChildren(codec, old(Rest()), depth, old(nodes), []);
        ok == r.Done? && (ok ==> r == Done(value, Rest(), nodes))
      decreases |text| - position, 2
    {
      hide ParseValue, ParseChildren, Skip;
      var children: seq<Initializer> := [];
      ghost var r := ParseChildren(codec, Rest(), depth, nodes, []);
      ok, value := false, List([]);
      while true
        invariant old(position) <= position <= |text|
        invariant ParseChildren(codec, Rest(), depth, nodes, children) == r
        decreases |text| - position
      {
        UnfoldChildren(codec, Rest(), depth, nodes, children);
        var read, child := ReadValue(depth + 1);
        if !read { return; }
        children := children + [child];
        SkipSpace();
        if position == |text| { return; }
        if text[position] == '}' {
          Advance();
          return true, List(children);
        }
        Advance();
        if text[position - 1] != ',' { return; }
        SkipSpace();
        if position < |text| && text[position] == '}' {
          Advance();
          return true, List(children);
        }
      }
    }
  }

  lemma {:induction false} TrimmedToken(c: Codec, raw: string)
    ensures ParseToken(c, TrimRight(raw)) == ParseToken(c, raw)
  {
    TrimTwice(raw);
  }

  lemma {:induction false} TrimTwice(s: string)
    ensures TrimRight(TrimRight(s)) == TrimRight(s)
  {
    if s != [] && IsSpace(s[|s| - 1]) { TrimTwice(s[..|s| - 1]); }
  }

  class Writer {
    const codec: Codec
    var output: string

    constructor (codec: Codec)
      ensures this.codec == codec && output == ""
    {
      this.codec, output := codec, "";
    }

    method Encode(value: Initializer)
      modifies this
      ensures output == old(output) + Print(codec, value)
      decreases value
    {
      hide PrintFirst, PrintMore, PrintFrom, PrintValue;
      if value.Leaf? {
        output := output + PrintValue(codec, value.value);
        return;
      }
      ghost var before := output;
      ghost var whole := before + "{" + PrintFrom(codec, value.children, 0);
      output := output + "{";
      var i := 0;
      while i < |value.children|
        invariant 0 <= i <= |value.children|
        invariant output + PrintFrom(codec, value.children, i) == whole
      {
        PrintFromStep(codec, value.children, i);
        Regroup(output, if i > 0 then "," else "", Print(codec, value.children[i]),
                PrintFrom(codec, value.children, i + 1));
        if i > 0 { output := output + ","; }
        Encode(value.children[i]);
        i := i + 1;
      }
      PrintFromEnds(codec, value.children);
      output := output + "}";
      Regroup(before, "{", PrintFirst(codec, value.children), "}");
      assert output == before + Print(codec, value);
    }
  }

  lemma {:induction false} Regroup(a: string, b: string, c: string, d: string)
    ensures a + (b + c + d) == a + b + c + d
    ensures a + [] == a
  {}

  ghost function PrintFrom(c: Codec, children: seq<Initializer>, i: nat): string
    requires i <= |children|
  {
    if i == 0 then PrintFirst(c, children) else PrintMore(c, children[i..])
  }

  lemma {:induction false} PrintFromStep(c: Codec, children: seq<Initializer>, i: nat)
    requires i < |children|
    ensures
      PrintFrom(c, children, i)
      == (if i > 0 then "," else "") + Print(c, children[i]) + PrintFrom(c, children, i + 1)
  {
    assert children[i..][1..] == children[i + 1..];
    if i > 0 {
      assert PrintMore(c, children[i..]) == "," + Print(c, children[i]) + PrintMore(c, children[i + 1..]);
    } else {
      assert children[0..] == children;
    }
  }

  lemma {:induction false} PrintFromEnds(c: Codec, children: seq<Initializer>)
    ensures PrintFrom(c, children, 0) == PrintFirst(c, children)
    ensures PrintFrom(c, children, |children|) == ""
  {}
}
