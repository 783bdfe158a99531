/** What an initializer text means, said without a reader: which texts denote which nested lists of
    numbers. The conversion of real spellings is a parameter. */
module InitializerText {
  import opened Characters
  import opened Wrappers

  /** `parse` reads a whole token as a finite double, `format` prints its bits. */
  datatype Codec = Codec(parse: string -> Option<nat>, format: nat -> string)

  /** The number a leaf stands for. */
  datatype Number = Integer(n: int) | Double(bits: nat)

  datatype Numbers = One(number: Number) | Many(list: seq<Numbers>)

  // ---------- Numbers ----------

  const WORDS: map<string, int> := map["false" := 0, "nullptr" := 0, "true" := 1]

  /** Digits of an unsigned 64-bit number, or a minus sign and digits down to the least signed one. */
  predicate WritesWord(t: string, k: int) {
    if t != "" && t[0] == '-' then
      t[1..] != "" && AreDigits(t[1..]) && k == -Written(t[1..]) && k >= -9223372036854775808
    else t != "" && AreDigits(t) && k == Written(t) && k <= 18446744073709551615
  }

  predicate HasPointOrExponent(t: string) { '.' in t || 'e' in t || 'E' in t }

  /** One of the three words; or, after an optional plus sign, an integer, or the spelling of a real
      number, which has a point or an exponent. */
  predicate Denotes(c: Codec, token: string, n: Number) {
    if token in WORDS then n == Integer(WORDS[token])
    else
      var t := if token != "" && token[0] == '+' then token[1..] else token;
      match n
      case Integer(k) => WritesWord(t, k)
      case Double(bits) => HasPointOrExponent(t) && c.parse(t) == Some(bits)
  }

  /** What stands between brackets, commas and white space. */
  predicate IsToken(t: string) {
    && t != "" && !IsBlank(t[0]) && t[0] !in "{(" && !IsBlank(t[|t| - 1])
    && forall i :: 0 <= i < |t| ==> t[i] !in ",})"
  }

  // ---------- Texts ----------

  /** A number, a value in parentheses, or a list, whose last element a comma may follow. `gap` is the
      white space before the closing bracket of an empty list or after that comma. */
  datatype Tree =
    | Token(text: string, number: Number)
    | Parens(inner: Item)
    | Braces(items: seq<Item>, comma: bool, gap: string)

  /** A value with the white space around it. */
  datatype Item = Item(before: string, tree: Tree, after: string)

  predicate Blank(s: string) { forall i :: 0 <= i < |s| ==> IsBlank(s[i]) }

  predicate Valid(c: Codec, t: Tree)
    decreases t, 0
  {
    match t
    case Token(text, number) => IsToken(text) && Denotes(c, text, number)
    case Parens(inner) => ValidItem(c, inner)
    case Braces(items, comma, gap) =>
      && Blank(gap) && (items == [] ==> !comma) && (items != [] && !comma ==> gap == "")
      && forall k :: 0 <= k < |items| ==> ValidItem(c, items[k])
  }

  predicate ValidItem(c: Codec, i: Item)
    decreases i, 1
  {
    Blank(i.before) && Blank(i.after) && Valid(c, i.tree)
  }

  function Spell(t: Tree): string
    decreases t, 0
  {
    match t
    case Token(text, _) => text
    case Parens(inner) => "(" + (SpellItem(inner) + ")")
    case Braces(items, comma, gap) => "{" + (if items == [] then gap + "}" else SpellItems(items, comma, gap))
  }

  function SpellItem(i: Item): string
    decreases i, 1
  {
    i.before + (Spell(i.tree) + i.after)
  }

  /** The elements from here on, with the bracket that closes the list. */
  function SpellItems(items: seq<Item>, comma: bool, gap: string): string
    requires items != []
    decreases items, 2
  {
    SpellItem(items[0])
    + if |items| > 1 then "," + SpellItems(items[1..], comma, gap) else (if comma then "," + gap else "") + "}"
  }

  function Denoted(t: Tree): Numbers {
    match t
    case Token(_, number) => One(number)
    case Parens(inner) => Denoted(inner.tree)
    case Braces(items, _, _) => Many(seq(|items|, k requires 0 <= k < |items| => Denoted(items[k].tree)))
  }

  /** How deep values are nested in lists and parentheses. */
  function Height(t: Tree): nat
    decreases t, 0
  {
    match t
    case Token(_, _) => 0
    case Parens(inner) => 1 + Height(inner.tree)
    case Braces(items, _, _) => if items == [] then 0 else 1 + HeightOfItems(items)
  }

  function HeightOfItems(items: seq<Item>): nat
    decreases items, 1
  {
    if items == [] then 0
    else
      var first, rest := Height(items[0].tree), HeightOfItems(items[1..]);
      if first > rest then first else rest
  }

  /** The values there are, those in parentheses counted twice. */
  function Count(t: Tree): nat
    decreases t, 0
  {
    match t
    case Token(_, _) => 1
    case Parens(inner) => 1 + Count(inner.tree)
    case Braces(items, _, _) => 1 + CountOfItems(items)
  }

  function CountOfItems(items: seq<Item>): nat
    decreases items, 1
  {
    if items == [] then 0 else Count(items[0].tree) + CountOfItems(items[1..])
  }

  /** The text denotes these numbers, within the two budgets: 64 levels and 65536 values. */
  ghost predicate Means(c: Codec, text: string, n: Numbers) {
    exists i: Item ::
      ValidItem(c, i) && SpellItem(i) == text && Height(i.tree) <= 64 && Count(i.tree) <= 65536 && Denoted(i.tree) == n
  }
}
