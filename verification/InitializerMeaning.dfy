/** The reader of initializers accepts exactly the texts that denote nested numbers within its
    budgets, and what it reads are those numbers. */
module InitializerMeaning {
  import opened AggregateInitializer
  import opened Characters
  import opened InitializerText
  import opened Wrappers

  function MeaningOf(i: Initializer): Numbers {
    if i.Leaf? then One(Meaning(i.value))
    else Many(seq(|i.children|, k requires 0 <= k < |i.children| => MeaningOf(i.children[k])))
  }

  function MeaningsOf(s: seq<Initializer>): (r: seq<Numbers>)
    ensures |r| == |s|
  {
    seq(|s|, k requires 0 <= k < |s| => MeaningOf(s[k]))
  }

  function DenotedAll(items: seq<Item>): (r: seq<Numbers>)
    ensures |r| == |items|
  {
    seq(|items|, k requires 0 <= k < |items| => Denoted(items[k].tree))
  }

  lemma {:induction false} ListMeans(s: seq<Initializer>)
    ensures MeaningOf(List(s)) == Many(MeaningsOf(s))
  {
    assert List(s).children == s;
  }

  lemma {:induction false} BracesDenote(items: seq<Item>, comma: bool, gap: string)
    ensures Denoted(Braces(items, comma, gap)) == Many(DenotedAll(items))
  {
    assert Braces(items, comma, gap).items == items;
  }

  lemma {:induction false} LeafMeans(v: Value, text: string)
    ensures MeaningOf(Leaf(v)) == One(Meaning(v)) == Denoted(Token(text, Meaning(v)))
    ensures Height(Token(text, Meaning(v))) == 0 && Count(Token(text, Meaning(v))) == 1
  {}

  // ---------- Tokens ----------

  lemma {:induction false} MarksAgree(t: string)
    ensures HasRealMark(t) <==> HasPointOrExponent(t)
  {
    if HasPointOrExponent(t) {
      var i :| 0 <= i < |t| && (t[i] == '.' || t[i] == 'e' || t[i] == 'E');
      assert IsRealMark(t[i]);
    }
  }

  lemma {:induction false} DigitsHaveNoMark(t: string)
    requires AreDigits(t)
    ensures !HasPointOrExponent(t)
  {}

  /** The three words and the two integer formats, by the table of digits. */
  lemma {:induction false} IntegersAgree(t: string)
    requires t != ""
    ensures !HasRealMark(t) ==>
      var v := if t[0] == '-' then Tagged(Signed, ParseNegative(t)) else Tagged(Unsigned, ParseUnsigned(t));
      if v.Some? then Meaning(v.value).Integer? && WritesWord(t, Meaning(v.value).n)
      else forall k :: !WritesWord(t, k)
    ensures HasRealMark(t) ==> forall k :: !WritesWord(t, k)
  {
    MarksAgree(t);
    DigitsAreDigits(t);
    DigitsAreDigits(t[1..]);
    if AreDigits(t[1..]) && t[0] == '-' { NegativeHasNoMark(t); }
    if AreDigits(t) { DigitsHaveNoMark(t); }
  }

  lemma {:induction false} NegativeHasNoMark(t: string)
    requires t != "" && t[0] == '-' && AreDigits(t[1..])
    ensures !HasPointOrExponent(t)
  {
    forall i | 0 <= i < |t| ensures t[i] !in ".eE" {
      if i > 0 { assert t[i] == t[1..][i - 1]; }
    }
  }

  /** A token is accepted exactly if it denotes a number, and gives that number. */
  lemma {:induction false} TokenDenotes(c: Codec, token: string)
    requires IsToken(token)
    ensures
      var v := ParseToken(c, token);
      if v.Some? then Denotes(c, token, Meaning(v.value)) else forall n :: !Denotes(c, token, n)
    ensures forall n, m :: Denotes(c, token, n) && Denotes(c, token, m) ==> n == m
  {
    BlankIsSpace(token[|token| - 1]);
    assert TrimRight(token) == token;
    var t := if token[0] == '+' then token[1..] else token;
    if token !in WORDS {
      assert token != "false" && token != "nullptr" && token != "true";
      if t == "" {
        assert forall n :: !Denotes(c, token, n);
      } else {
        hide ParseNegative, ParseUnsigned, WritesWord;
        IntegersAgree(t);
        MarksAgree(t);
        OneInteger(t);
      }
    } else {
      assert token in {"false", "nullptr", "true"};
    }
  }

  lemma {:induction false} OneInteger(t: string)
    ensures forall j, k :: WritesWord(t, j) && WritesWord(t, k) ==> j == k
  {}

  // ---------- White space ----------

  lemma {:induction false} SkipBlank(w: string, r: string)
    requires Blank(w) && (r == "" || !IsBlank(r[0]))
    ensures Skip(w + r) == r
  {
    if w == "" {
      assert w + r == r;
      if r != "" { BlankIsSpace(r[0]); }
    } else {
      BlankIsSpace(w[0]);
      assert (w + r)[0] == w[0] && (w + r)[1..] == w[1..] + r;
      SkipBlank(w[1..], r);
    }
  }

  /** The white space that is skipped. */
  lemma {:induction false} Leading(s: string) returns (w: string)
    ensures Blank(w) && s == w + Skip(s) && (Skip(s) == "" || !IsBlank(Skip(s)[0]))
  {
    if s == "" || !IsSpace(s[0]) {
      w := "";
      if s != "" { BlankIsSpace(s[0]); }
    } else {
      BlankIsSpace(s[0]);
      var rest := Leading(s[1..]);
      w := [s[0]] + rest;
      assert Skip(s) == Skip(s[1..]);
      hide Skip;
      assert s == [s[0]] + s[1..] == [s[0]] + (rest + Skip(s));
    }
  }

  lemma {:induction false} Trailing(s: string) returns (w: string)
    ensures Blank(w) && s == TrimRight(s) + w && (TrimRight(s) == "" || !IsBlank(TrimRight(s)[|TrimRight(s)| - 1]))
  {
    if s == "" || !IsSpace(s[|s| - 1]) {
      w := "";
      if s != "" { BlankIsSpace(s[|s| - 1]); }
    } else {
      BlankIsSpace(s[|s| - 1]);
      var front := Trailing(s[..|s| - 1]);
      w := front + [s[|s| - 1]];
      assert s == s[..|s| - 1] + [s[|s| - 1]];
    }
  }

  lemma {:induction false} TrimBlank(t: string, w: string)
    requires Blank(w) && (t == "" || !IsBlank(t[|t| - 1]))
    ensures TrimRight(t + w) == t
  {
    if w == "" {
      assert t + w == t;
      if t != "" { BlankIsSpace(t[|t| - 1]); }
    } else {
      BlankIsSpace(w[|w| - 1]);
      assert (t + w)[..|t + w| - 1] == t + w[..|w| - 1];
      TrimBlank(t, w[..|w| - 1]);
    }
  }

  /** White space before a value makes no difference. */
  lemma {:induction false} SkipFirst(c: Codec, s: string, depth: nat, nodes: nat)
    ensures ParseValue(c, Skip(s), depth, nodes) == ParseValue(c, s, depth, nodes)
  {
    NothingToSkip(Skip(s));
    hide ParseValue, ParseChildren, Skip, ParseToken, TokenLength;
    var t := Skip(s);
    if depth > MAX_DEPTH || nodes >= MAX_NODES || t == "" {
      UnfoldOver(c, s, depth, nodes);
      UnfoldOver(c, t, depth, nodes);
    } else if t[0] == '{' {
      UnfoldList(c, s, depth, nodes);
      UnfoldList(c, t, depth, nodes);
    } else if t[0] == '(' {
      UnfoldParens(c, s, depth, nodes);
      UnfoldParens(c, t, depth, nodes);
    } else {
      UnfoldLeaf(c, s, depth, nodes);
      UnfoldLeaf(c, t, depth, nodes);
    }
  }

  // ---------- What denotes numbers is read ----------

  /** What may follow a value: nothing, or what ends it. */
  predicate Ends(rest: string) { rest == "" || IsStop(rest[0]) }

  /** What reading a value from a text comes to. */
  ghost predicate ReadAs(r: Parsed, n: Numbers, nodes: nat, rest: string) {
    r.Done? && MeaningOf(r.value) == n && r.nodes == nodes && Skip(r.rest) == rest
  }

  lemma {:induction false} SpellStarts(c: Codec, t: Tree)
    requires Valid(c, t)
    ensures Spell(t) != "" && !IsBlank(Spell(t)[0]) && !IsStop(Spell(t)[0])
  {}

  lemma {:induction false} EndsNoSpace(rest: string)
    requires Ends(rest)
    ensures rest == "" || !IsBlank(rest[0])
  {}

  lemma {:induction false} ItemIsRead(c: Codec, i: Item, rest: string, depth: nat, nodes: nat)
    requires ValidItem(c, i) && Ends(rest) && depth + Height(i.tree) <= 64 && nodes + Count(i.tree) <= 65536
    ensures ReadAs(ParseValue(c, SpellItem(i) + rest, depth, nodes), Denoted(i.tree), nodes + Count(i.tree), rest)
    decreases i, 1
  {
    hide ParseValue, ParseChildren, Skip, ParseToken, TokenLength, IsToken, Denotes, MeaningOf, SpellItems;
    var s := SpellItem(i) + rest;
    var t := Spell(i.tree) + (i.after + rest);
    assert s == i.before + t;
    SpellStarts(c, i.tree);
    SkipBlank(i.before, t);
    EndsNoSpace(rest);
    SkipBlank(i.after, rest);
    match i.tree {
      case Token(text, number) => TokenIsRead(c, text, number, i.after, rest, s, depth, nodes);
      case Parens(inner) =>
        ItemIsRead(c, inner, ")" + (i.after + rest), depth + 1, nodes + 1);
        assert t == "(" + SpellItem(inner) + (")" + (i.after + rest));
        ParensAreRead(c, SpellItem(inner), Denoted(inner.tree), i.after, rest, s, depth, nodes, nodes + Count(i.tree));
      case Braces(items, comma, gap) =>
        if items == [] {
          assert t == "{" + (gap + ("}" + (i.after + rest)));
          EmptyIsRead(c, gap, i.after, rest, s, depth, nodes);
          BracesDenote([], comma, gap);
          assert DenotedAll([]) == [];
        } else {
          ItemsAreRead(c, items, comma, gap, i.after + rest, depth, nodes + 1, []);
          ItemsStart(c, items, comma, gap, i.after + rest);
          assert t == "{" + (SpellItems(items, comma, gap) + (i.after + rest));
          ListIsRead(c, items, comma, gap, SpellItems(items, comma, gap), i.after, rest, s, depth, nodes);
        }
    }
  }

  /** A token with white space after it gives the number it denotes. */
  lemma {:induction false} TokenParses(c: Codec, text: string, number: Number, after: string)
    requires IsToken(text) && Denotes(c, text, number) && Blank(after)
    ensures ParseToken(c, text + after).Some? && Meaning(ParseToken(c, text + after).value) == number
  {
    hide ParseToken, TrimRight, Denotes;
    TokenDenotes(c, text);
    TrimBlank(text, after);
    TrimmedToken(c, text + after);
  }

  /** The token before what ends it is cut there. */
  lemma {:induction false} TokenIsCut(text: string, after: string, rest: string)
    requires IsToken(text) && Blank(after) && Ends(rest)
    ensures
      var t, n := text + (after + rest), |text + after|;
      t != "" && t[0] !in "{(" && TokenLength(t) == n && t[..n] == text + after && t[n..] == rest
  {
    hide TokenLength;
    var raw := text + after;
    forall k | 0 <= k < |raw| ensures !IsStop(raw[k]) {
      if k >= |text| { assert raw[k] == after[k - |text|]; }
    }
    TokenEnds(raw, rest);
    assert text + (after + rest) == raw + rest;
  }

  lemma {:induction false} TokenIsRead(
      c: Codec, text: string, number: Number, after: string, rest: string, s: string, depth: nat, nodes: nat)
    requires IsToken(text) && Denotes(c, text, number) && Blank(after) && Ends(rest)
    requires depth <= 64 && nodes < 65536 && Skip(s) == text + (after + rest)
    ensures ReadAs(ParseValue(c, s, depth, nodes), One(number), nodes + 1, rest)
  {
    hide ParseValue, ParseChildren, ParseToken, TokenLength, Denotes, IsToken, Blank, Skip, Meaning;
    TokenParses(c, text, number, after);
    TokenIsCut(text, after, rest);
    UnfoldLeaf(c, s, depth, nodes);
    SkipEnds(rest);
  }

  lemma {:induction false} SkipEnds(rest: string)
    requires Ends(rest)
    ensures Skip(rest) == rest
  {
    EndsNoSpace(rest);
    assert "" + rest == rest;
    SkipBlank("", rest);
  }

  lemma {:induction false} ParensAreRead(
      c: Codec, inner: string, n: Numbers, after: string, rest: string, s: string, depth: nat, nodes: nat, sum: nat)
    requires Blank(after) && Ends(rest) && depth <= 64 && nodes < 65536
    requires Skip(s) == "(" + inner + (")" + (after + rest))
    requires ReadAs(ParseValue(c, inner + (")" + (after + rest)), depth + 1, nodes + 1), n, sum, ")" + (after + rest))
    ensures ReadAs(ParseValue(c, s, depth, nodes), n, sum, rest)
  {
    hide ParseValue, ParseChildren, Skip, MeaningOf;
    var tail := ")" + (after + rest);
    assert Skip(s)[1..] == inner + tail && tail[1..] == after + rest;
    UnfoldParens(c, s, depth, nodes);
    EndsNoSpace(rest);
    SkipBlank(after, rest);
  }

  lemma {:induction false} EmptyIsRead(
      c: Codec, gap: string, after: string, rest: string, s: string, depth: nat, nodes: nat)
    requires Blank(gap) && Blank(after) && Ends(rest) && depth <= 64 && nodes < 65536
    requires Skip(s) == "{" + (gap + ("}" + (after + rest)))
    ensures ReadAs(ParseValue(c, s, depth, nodes), Many([]), nodes + 1, rest)
  {
    hide ParseValue, ParseChildren, Skip;
    var close := "}" + (after + rest);
    assert Skip(s)[1..] == gap + close && close[1..] == after + rest;
    UnfoldList(c, s, depth, nodes);
    SkipBlank(gap, close);
    ListMeans([]);
    assert MeaningsOf([]) == [];
    EndsNoSpace(rest);
    SkipBlank(after, rest);
  }

  lemma {:induction false} ListIsRead(
      c: Codec, items: seq<Item>, comma: bool, gap: string, inner: string, after: string, rest: string, s: string,
      depth: nat, nodes: nat)
    requires Blank(after) && Ends(rest) && depth <= 64 && nodes < 65536 && Skip(s) == "{" + (inner + (after + rest))
    requires
      var t := Skip(inner + (after + rest));
      var r := ParseChildren(c, t, depth, nodes + 1, []);
      && t != "" && t[0] != '}' && r.Done? && r.rest == after + rest
      && MeaningOf(r.value) == Many(MeaningsOf([]) + DenotedAll(items))
    ensures
      var sum := ParseChildren(c, Skip(inner + (after + rest)), depth, nodes + 1, []).nodes;
      ReadAs(ParseValue(c, s, depth, nodes), Denoted(Braces(items, comma, gap)), sum, rest)
  {
    hide ParseValue, ParseChildren, Skip, MeaningOf;
    assert Skip(s)[0] == '{' && Skip(s)[1..] == inner + (after + rest);
    UnfoldList(c, s, depth, nodes);
    BracesDenote(items, comma, gap);
    assert MeaningsOf([]) + DenotedAll(items) == DenotedAll(items);
    EndsNoSpace(rest);
    SkipBlank(after, rest);
  }

  /** The end of a list: the bracket, before it a comma and white space or nothing. */
  lemma {:induction false} ClosingIsRead(
      c: Codec, comma: bool, gap: string, tail: string, depth: nat, nodes: nat, done: seq<Initializer>)
    requires Blank(gap)
    ensures
      var more := (if comma then "," + gap else "") + "}" + tail;
      AfterChild(c, more, depth, nodes, done) == Done(List(done), tail, nodes)
  {
    hide ParseChildren, Skip;
    var more := (if comma then "," + gap else "") + "}" + tail;
    if comma {
      assert more[0] == ',' && more[1..] == gap + ("}" + tail);
      SkipBlank(gap, "}" + tail);
      assert ("}" + tail)[1..] == tail;
    } else {
      assert more == "}" + tail && more[0] == '}' && more[1..] == tail;
    }
  }

  lemma {:induction false} ItemsStart(c: Codec, items: seq<Item>, comma: bool, gap: string, tail: string)
    requires items != [] && ValidItem(c, items[0])
    ensures
      var t := Skip(SpellItems(items, comma, gap) + tail);
      t != "" && t[0] != '}'
  {
    var first := items[0];
    SpellStarts(c, first.tree);
    var more := if |items| > 1 then "," + SpellItems(items[1..], comma, gap) else (if comma then "," + gap else "") + "}";
    var t := Spell(first.tree) + (first.after + (more + tail));
    assert SpellItems(items, comma, gap) + tail == first.before + t;
    assert t[0] == Spell(first.tree)[0];
    SkipBlank(first.before, t);
  }

  lemma {:induction false} ItemsAreRead(
      c: Codec, items: seq<Item>, comma: bool, gap: string, tail: string, depth: nat, nodes: nat,
      done: seq<Initializer>)
    requires items != [] && Blank(gap) && (!comma ==> gap == "") && forall k :: 0 <= k < |items| ==> ValidItem(c, items[k])
    requires depth + 1 + HeightOfItems(items) <= 64 && nodes + CountOfItems(items) <= 65536
    ensures
      var r := ParseChildren(c, Skip(SpellItems(items, comma, gap) + tail), depth, nodes, done);
      && r.Done? && r.rest == tail && r.nodes == nodes + CountOfItems(items)
      && MeaningOf(r.value) == Many(MeaningsOf(done) + DenotedAll(items))
    decreases items, 2
  {
    hide ParseValue, ParseChildren, Skip, Spell, Valid, Height, Count, MeaningOf, Denoted, SpellItem, Blank;
    var text := SpellItems(items, comma, gap) + tail;
    var close := (if comma then "," + gap else "") + "}";
    var more := (if |items| > 1 then "," + SpellItems(items[1..], comma, gap) else close) + tail;
    assert text == SpellItem(items[0]) + more;
    assert more[0] == if |items| > 1 || comma then ',' else '}';
    ItemIsRead(c, items[0], more, depth + 1, nodes);
    SkipFirst(c, text, depth + 1, nodes);
    UnfoldChildren(c, Skip(text), depth, nodes, done);
    var first := ParseValue(c, text, depth + 1, nodes);
    var all := done + [first.value];
    FirstDenotes(items, done, first.value);
    if |items| > 1 {
      assert more[1..] == SpellItems(items[1..], comma, gap) + tail;
      ItemsStart(c, items[1..], comma, gap, tail);
      ItemsAreRead(c, items[1..], comma, gap, tail, depth, first.nodes, all);
    } else {
      ClosingIsRead(c, comma, gap, tail, depth, first.nodes, all);
      ListMeans(all);
    }
  }

  lemma {:induction false} FirstDenotes(items: seq<Item>, done: seq<Initializer>, value: Initializer)
    requires items != [] && MeaningOf(value) == Denoted(items[0].tree)
    ensures MeaningsOf(done + [value]) + DenotedAll(items[1..]) == MeaningsOf(done) + DenotedAll(items)
    ensures |items| == 1 ==> MeaningsOf(done + [value]) == MeaningsOf(done) + DenotedAll(items)
  {
    MeaningsNext(done, value);
    assert DenotedAll(items) == [Denoted(items[0].tree)] + DenotedAll(items[1..]);
  }

  // ---------- What is read denotes numbers ----------

  ghost predicate Reads(c: Codec, s: string, r: Parsed, i: Item, depth: nat, nodes: nat)
    requires r.Done?
  {
    && ValidItem(c, i) && s == SpellItem(i) + Skip(r.rest) && Denoted(i.tree) == MeaningOf(r.value)
    && depth + Height(i.tree) <= 64 && r.nodes == nodes + Count(i.tree) <= 65536
  }

  lemma {:induction false} Assembled(s: string, before: string, tree: Tree, after: string, rest: string)
    requires s == before + (Spell(tree) + (after + rest))
    ensures s == SpellItem(Item(before, tree, after)) + rest
  {
    hide Spell;
  }

  lemma {:induction false} ParensSpelled(inner: Item, w: string)
    ensures "(" + (SpellItem(inner) + (")" + w)) == Spell(Parens(inner)) + w
  {
    hide SpellItem;
  }

  lemma {:induction false} BracesSpelled(items: seq<Item>, comma: bool, gap: string, w: string)
    ensures
      Spell(Braces(items, comma, gap)) + w
      == "{" + if items == [] then gap + ("}" + w) else SpellItems(items, comma, gap) + w
  {
    hide SpellItems;
  }

  lemma {:induction false} ReadIsItem(c: Codec, s: string, depth: nat, nodes: nat) returns (i: Item)
    requires ParseValue(c, s, depth, nodes).Done?
    ensures Reads(c, s, ParseValue(c, s, depth, nodes), i, depth, nodes)
    decreases |s|, 1
  {
    hide ParseValue, ParseChildren, Skip, ParseToken, TokenLength, Reads;
    var before := Leading(s);
    var t := Skip(s);
    if depth > MAX_DEPTH || nodes >= MAX_NODES || t == "" {
      UnfoldOver(c, s, depth, nodes);
      i := Item("", Braces([], false, ""), "");
    } else if t[0] == '{' {
      UnfoldList(c, s, depth, nodes);
      i := ReadIsBraces(c, s, before, depth, nodes);
    } else if t[0] == '(' {
      UnfoldParens(c, s, depth, nodes);
      var inner := ReadIsItem(c, t[1..], depth + 1, nodes + 1);
      i := ReadIsParens(c, s, before, inner, depth, nodes);
    } else {
      UnfoldLeaf(c, s, depth, nodes);
      i := ReadIsToken(c, s, before, depth, nodes);
    }
  }

  lemma {:induction false} ReadIsParens(c: Codec, s: string, before: string, inner: Item, depth: nat, nodes: nat)
    returns (i: Item)
    requires Blank(before) && s == before + Skip(s) && Skip(s) != "" && Skip(s)[0] == '('
    requires ParseValue(c, s, depth, nodes).Done?
    requires
      var r := ParseValue(c, Skip(s)[1..], depth + 1, nodes + 1);
      && r.Done? && Reads(c, Skip(s)[1..], r, inner, depth + 1, nodes + 1)
      && Skip(r.rest) != [] && Skip(r.rest)[0] == ')'
      && ParseValue(c, s, depth, nodes) == Done(r.value, Skip(r.rest)[1..], r.nodes)
    ensures Reads(c, s, ParseValue(c, s, depth, nodes), i, depth, nodes)
  {
    hide ParseValue, ParseChildren, Skip, Spell, SpellItem, MeaningOf;
    var r, within := ParseValue(c, s, depth, nodes), ParseValue(c, Skip(s)[1..], depth + 1, nodes + 1);
    var after := Leading(r.rest);
    var w := after + Skip(r.rest);
    assert Skip(within.rest) == ")" + w;
    assert Skip(s) == "(" + (SpellItem(inner) + (")" + w));
    ParensSpelled(inner, w);
    i := Item(before, Parens(inner), after);
    Assembled(s, before, i.tree, after, Skip(r.rest));
    assert ValidItem(c, i) && Denoted(i.tree) == MeaningOf(r.value);
    assert depth + Height(i.tree) <= 64 && r.nodes == nodes + Count(i.tree);
  }

  lemma {:induction false} ReadIsToken(c: Codec, s: string, before: string, depth: nat, nodes: nat) returns (i: Item)
    requires depth <= MAX_DEPTH && nodes < MAX_NODES
    requires Blank(before) && s == before + Skip(s) && Skip(s) != "" && Skip(s)[0] !in "{(" && !IsBlank(Skip(s)[0])
    requires
      var t := Skip(s);
      var v := ParseToken(c, t[..TokenLength(t)]);
      v.Some? && ParseValue(c, s, depth, nodes) == Done(Leaf(v.value), t[TokenLength(t)..], nodes + 1)
    ensures Reads(c, s, ParseValue(c, s, depth, nodes), i, depth, nodes)
  {
    hide ParseValue, ParseChildren, Skip, ParseToken, Denotes, TrimRight, IsToken, Tagged, Meaning, MeaningOf, Denoted,
      Height, Count, SpellItem, Spell, ValidItem, Blank, IsBlank, TokenLength, IsStop;
    var t := Skip(s);
    var n := TokenLength(t);
    var raw, rest := t[..n], t[n..];
    var after := Trailing(raw);
    var token := TrimRight(raw);
    var v := ParseToken(c, raw).value;
    TrimmedToken(c, raw);
    TakenIsToken(c, t, raw, after);
    TokenDenotes(c, token);
    CutAfter(t, n, token, after);
    RestStays(t);
    TokenItem(c, s, before, token, Meaning(v), after, rest);
    LeafMeans(v, token);
    i := Item(before, Token(token, Meaning(v)), after);
  }

  lemma {:induction false} RestStays(t: string)
    ensures var rest := t[TokenLength(t)..]; Ends(rest) && Skip(rest) == rest
  {
    hide TokenLength, Skip;
    var rest := t[TokenLength(t)..];
    EndsNoSpace(rest);
    assert "" + rest == rest;
    SkipBlank("", rest);
  }

  lemma {:induction false} TokenItem(
      c: Codec, s: string, before: string, token: string, n: Number, after: string, rest: string)
    requires Blank(before) && Blank(after) && IsToken(token) && Denotes(c, token, n)
    requires s == before + (token + (after + rest))
    ensures
      var i := Item(before, Token(token, n), after);
      ValidItem(c, i) && s == SpellItem(i) + rest && Height(i.tree) == 0 && Count(i.tree) == 1
  {
    hide IsToken, Denotes, IsBlank;
    Assembled(s, before, Token(token, n), after, rest);
  }

  lemma {:induction false} CutAfter(t: string, n: nat, token: string, after: string)
    requires n <= |t| && t[..n] == token + after
    ensures t == token + (after + t[n..])
  {
    assert t == t[..n] + t[n..];
  }

  lemma {:induction false} TakenIsToken(c: Codec, t: string, raw: string, after: string)
    requires t != "" && !IsBlank(t[0]) && t[0] !in "{(" && raw == t[..TokenLength(t)] && Blank(after)
    requires raw == TrimRight(raw) + after && ParseToken(c, TrimRight(raw)).Some?
    requires TrimRight(raw) == "" || !IsBlank(TrimRight(raw)[|TrimRight(raw)| - 1])
    ensures IsToken(TrimRight(raw))
  {
    hide TrimRight, ParseToken;
    var token := TrimRight(raw);
    assert token != "" by { NoToken(c); }
    assert token[0] == raw[0] == t[0];
    forall k | 0 <= k < |token| ensures token[k] !in ",})" { assert token[k] == t[k] && !IsStop(t[k]); }
  }

  lemma {:induction false} NoToken(c: Codec)
    ensures ParseToken(c, "").None?
  {}

  lemma {:induction false} ReadIsBraces(c: Codec, s: string, before: string, depth: nat, nodes: nat) returns (i: Item)
    requires depth <= MAX_DEPTH && nodes < MAX_NODES && ParseValue(c, s, depth, nodes).Done?
    requires Blank(before) && s == before + Skip(s) && Skip(s) != "" && Skip(s)[0] == '{'
    requires
      var t := Skip(Skip(s)[1..]);
      ParseValue(c, s, depth, nodes)
      == if t != [] && t[0] == '}' then Done(List([]), t[1..], nodes + 1) else ParseChildren(c, t, depth, nodes + 1, [])
    ensures Reads(c, s, ParseValue(c, s, depth, nodes), i, depth, nodes)
    decreases |s|, 0
  {
    hide ParseValue, ParseChildren, Skip, Spell, SpellItem, SpellItems, Denoted, MeaningOf, DenotedAll;
    var r := ParseValue(c, s, depth, nodes);
    var body := Skip(s)[1..];
    var gap := Leading(body);
    var t := Skip(body);
    var after := Leading(r.rest);
    var w := after + Skip(r.rest);
    if t != "" && t[0] == '}' {
      i := Item(before, Braces([], false, gap), after);
      assert t == "}" + w;
      BracesSpelled([], false, gap, w);
      assert Skip(s) == "{" + (gap + ("}" + w));
      BracesDenote([], false, gap);
      ListMeans([]);
    } else {
      assert |body| < |s|;
      var items, comma, last := ReadIsItems(c, t, depth, nodes + 1, []);
      var all := GapFirst(c, items, gap, comma, last);
      i := Item(before, Braces(all, comma, last), after);
      assert [] + DenotedAll(items) == DenotedAll(items) && MeaningsOf([]) == [];
      BracesDenote(all, comma, last);
      BracesSpelled(all, comma, last, w);
      assert Skip(s) == "{" + body;
      assert body == SpellItems(all, comma, last) + w;
    }
    Assembled(s, before, i.tree, after, Skip(r.rest));
    assert ValidItem(c, i) && Denoted(i.tree) == MeaningOf(r.value);
    assert depth + Height(i.tree) <= 64 && r.nodes == nodes + Count(i.tree);
  }

  lemma {:induction false} BlankBoth(a: string, b: string)
    requires Blank(a) && Blank(b)
    ensures Blank(a + b)
  {}

  /** White space before the first element belongs to it. */
  lemma {:induction false} GapFirst(c: Codec, items: seq<Item>, gap: string, comma: bool, last: string)
    returns (all: seq<Item>)
    requires items != [] && Blank(gap) && forall k :: 0 <= k < |items| ==> ValidItem(c, items[k])
    ensures all != [] && |all| == |items| && forall k :: 0 <= k < |all| ==> ValidItem(c, all[k])
    ensures SpellItems(all, comma, last) == gap + SpellItems(items, comma, last) && DenotedAll(all) == DenotedAll(items)
    ensures HeightOfItems(all) == HeightOfItems(items) && CountOfItems(all) == CountOfItems(items)
  {
    hide Valid, Spell;
    var first := items[0].(before := gap + items[0].before);
    BlankBoth(gap, items[0].before);
    all := [first] + items[1..];
    assert all[1..] == items[1..];
    assert SpellItem(all[0]) == gap + SpellItem(items[0]);
    assert DenotedAll(all) == DenotedAll(items);
  }

  lemma {:induction false} ReadIsItems(c: Codec, s: string, depth: nat, nodes: nat, done: seq<Initializer>)
    returns (items: seq<Item>, comma: bool, gap: string)
    requires ParseChildren(c, s, depth, nodes, done).Done?
    ensures items != [] && Blank(gap) && (!comma ==> gap == "") && forall k :: 0 <= k < |items| ==> ValidItem(c, items[k])
    ensures
      var r := ParseChildren(c, s, depth, nodes, done);
      && s == SpellItems(items, comma, gap) + r.rest && depth + 1 + HeightOfItems(items) <= 64
      && r.nodes == nodes + CountOfItems(items) <= 65536
      && MeaningOf(r.value) == Many(MeaningsOf(done) + DenotedAll(items))
    decreases |s|, 2
  {
    hide ParseValue, ParseChildren, Skip, Spell, Valid, Height, Count, SpellItem, SpellItems, ValidItem, Blank;
    UnfoldChildren(c, s, depth, nodes, done);
    var r := ParseChildren(c, s, depth, nodes, done);
    var item := ReadIsItem(c, s, depth + 1, nodes);
    var first := ParseValue(c, s, depth + 1, nodes);
    var t := Skip(first.rest);
    var all := done + [first.value];
    MeaningsNext(done, first.value);
    if t[0] == '}' {
      items, comma, gap := [item], false, "";
      LastItem(item, comma, gap, r.rest);
      assert t == "}" + r.rest;
      NoGap();
    } else {
      var rest := t[1..];
      var blank := Leading(rest);
      var u := Skip(rest);
      assert t == "," + (blank + u);
      if u != "" && u[0] == '}' {
        items, comma, gap := [item], true, blank;
        LastItem(item, comma, gap, r.rest);
        assert u == "}" + r.rest;
      } else {
        assert |u| < |s|;
        var others;
        others, comma, gap := ReadIsItems(c, u, depth, first.nodes, all);
        var next := GapFirst(c, others, blank, comma, gap);
        items := [item] + next;
        MoreItems(item, next, comma, gap, r.rest);
        Joined(MeaningsOf(done), Denoted(item.tree), DenotedAll(others));
        assert blank + u == SpellItems(next, comma, gap) + r.rest;
      }
    }
  }

  lemma {:induction false} NoGap()
    ensures Blank("")
  {}

  lemma {:induction false} Joined(a: seq<Numbers>, n: Numbers, b: seq<Numbers>)
    ensures a + ([n] + b) == (a + [n]) + b
  {}

  lemma {:induction false} MeaningsNext(done: seq<Initializer>, value: Initializer)
    ensures MeaningsOf(done + [value]) == MeaningsOf(done) + [MeaningOf(value)]
    ensures MeaningOf(List(done + [value])) == Many(MeaningsOf(done) + [MeaningOf(value)])
  {
    assert MeaningsOf(done + [value]) == MeaningsOf(done) + [MeaningOf(value)];
    assert MeaningOf(List(done + [value])) == Many(MeaningsOf(done + [value]));
  }

  lemma {:induction false} LastItem(item: Item, comma: bool, gap: string, rest: string)
    ensures
      SpellItems([item], comma, gap) + rest
      == SpellItem(item) + if comma then "," + (gap + ("}" + rest)) else "}" + rest
    ensures HeightOfItems([item]) == Height(item.tree) && CountOfItems([item]) == Count(item.tree)
    ensures DenotedAll([item]) == [Denoted(item.tree)]
  {
    hide SpellItem, Height, Count;
    assert [item][1..] == [];
    assert DenotedAll([item]) == [Denoted(item.tree)];
  }

  lemma {:induction false} MoreItems(item: Item, next: seq<Item>, comma: bool, gap: string, rest: string)
    requires next != []
    ensures
      SpellItems([item] + next, comma, gap) + rest == SpellItem(item) + ("," + (SpellItems(next, comma, gap) + rest))
    ensures CountOfItems([item] + next) == Count(item.tree) + CountOfItems(next)
    ensures
      HeightOfItems([item] + next)
      == if Height(item.tree) > HeightOfItems(next) then Height(item.tree) else HeightOfItems(next)
    ensures DenotedAll([item] + next) == [Denoted(item.tree)] + DenotedAll(next)
  {
    hide SpellItem, Height, Count;
    assert ([item] + next)[1..] == next;
    assert DenotedAll([item] + next) == [Denoted(item.tree)] + DenotedAll(next);
  }

  // ---------- The reader decides exactly ----------

  /** A text is accepted exactly if it denotes nested numbers within the budgets, and then these are
      the numbers of the value read. */
  lemma {:induction false} ReadExactly(c: Codec, text: string)
    ensures
      var v := Parse(c, text);
      if v.Some? then forall n :: Means(c, text, n) <==> n == MeaningOf(v.value) else forall n :: !Means(c, text, n)
  {
    hide ParseValue, ParseChildren, Skip, Spell, Valid, Height, Count;
    forall n | Means(c, text, n) ensures Parse(c, text).Some? && MeaningOf(Parse(c, text).value) == n {
      var i: Item :| ValidItem(c, i) && SpellItem(i) == text && Height(i.tree) <= 64 && Count(i.tree) <= 65536
                     && Denoted(i.tree) == n;
      ItemIsRead(c, i, "", 0, 0);
      assert SpellItem(i) + "" == text;
    }
    if Parse(c, text).Some? {
      var i := ReadIsItem(c, text, 0, 0);
      assert SpellItem(i) + "" == SpellItem(i);
      assert Means(c, text, MeaningOf(Parse(c, text).value));
    }
  }

  lemma {:induction false} SameNumbers(a: Initializer, b: Initializer)
    requires SameMeaning(a, b)
    ensures MeaningOf(a) == MeaningOf(b)
    decreases a, 0
  {
    if a.List? {
      AllSameNumbers(a.children, b.children);
      ListMeans(a.children);
      ListMeans(b.children);
    }
  }

  lemma {:induction false} AllSameNumbers(a: seq<Initializer>, b: seq<Initializer>)
    requires SameMeanings(a, b)
    ensures MeaningsOf(a) == MeaningsOf(b)
    decreases a, 1
  {
    hide SameMeaning, MeaningOf;
    if a != [] {
      SameNumbers(a[0], b[0]);
      AllSameNumbers(a[1..], b[1..]);
      assert MeaningsOf(a) == [MeaningOf(a[0])] + MeaningsOf(a[1..]);
      assert MeaningsOf(b) == [MeaningOf(b[0])] + MeaningsOf(b[1..]);
    }
  }

  /** What is stored of a text denotes the same nested numbers as the text. */
  lemma {:induction false} StoredMeansTheSame(c: Codec, text: string)
    requires RoundTrips(c)
    ensures
      Parse(c, text).Some? ==>
        forall n :: Means(c, text, n) <==> Means(c, Print(c, Parse(c, text).value), n)
  {
    hide Means, Parse, Print, RoundTrips, SameMeaning, Canon;
    PrintedFormIsStable(c, text);
    if Parse(c, text).Some? {
      var v := Parse(c, text).value;
      SameNumbers(v, Canon(v));
      ReadExactly(c, text);
      ReadExactly(c, Print(c, v));
    }
  }

  /** The reader as the program runs it. */
  method ReadInitializer(codec: Codec, text: string) returns (ok: bool, value: Initializer)
    ensures ok == Parse(codec, text).Some? && (ok ==> Parse(codec, text) == Some(value))
    ensures if ok then forall n :: Means(codec, text, n) <==> n == MeaningOf(value) else forall n :: !Means(codec, text, n)
  {
    hide ParseValue, Means;
    var reader := new Reader(codec, text);
    assert reader.Rest() == text;
    ok, value := reader.ReadValue(0);
    if ok {
      reader.SkipSpace();
      ok := reader.position == |text|;
    }
    ReadExactly(codec, text);
  }
}
