/** Include discovery: the directives of a source are checked against the brace depth around them,
    quoted includes are listed, and the directive tokens are compacted out of the token array in
    place, so the parser never sees them. */
module IncludeDiscovery {
  import opened Wrappers

  datatype Kind = Eof | Identifier | StringLiteral | Hash | LeftBrace | RightBrace | Other

  /** `lineStart` is the flag the lexer sets on the first token of a line. */
  datatype Token = Token(kind: Kind, offset: nat, length: nat, lineStart: bool)

  /** The tokens from `begin` up to `end`. */
  datatype Directive = Directive(begin: nat, end: nat)

  /** The header's text without its quotes, and the offset after it. */
  datatype Include = Include(offset: nat, length: nat, visibleFrom: nat)

  function TokenText(text: string, t: Token): string {
    if t.offset > |text| || t.length > |text| - t.offset then "" else text[t.offset..t.offset + t.length]
  }

  /** The text of a token is what stands there. */
  lemma {:induction false} TokenTextIs(before: string, word: string, after: string, t: Token)
    requires t.offset == |before| && t.length == |word|
    ensures TokenText(before + word + after, t) == word
  {
    assert (before + word + after)[|before|..|before| + |word|] == word;
  }

  // ---------- What the result must be ----------

  predicate InDirective(ds: seq<Directive>, i: nat) { exists j :: 0 <= j < |ds| && ds[j].begin <= i < ds[j].end }

  /** The tokens from position `i` up to `end` that no directive covers. */
  function Kept(tokens: seq<Token>, ds: seq<Directive>, i: nat, end: nat): seq<Token>
    requires i <= end <= |tokens|
    decreases end - i
  {
    if i == end then []
    else KeptAt(tokens, ds, i) + Kept(tokens, ds, i + 1, end)
  }

  /** How many braces are open after these tokens; nothing if one was closed too often. */
  function BraceDepth(s: seq<Token>): Option<nat>
    decreases |s|
  {
    if s == [] then Some(0)
    else
      var before := BraceDepth(s[..|s| - 1]);
      if before.None? then None
      else if s[|s| - 1].kind == LeftBrace then Some(before.value + 1)
      else if s[|s| - 1].kind == RightBrace then if before.value == 0 then None else Some(before.value - 1)
      else before
  }

  /** Directives are not empty, in order, apart, and end before the end-of-file token. */
  predicate Placed(tokens: seq<Token>, ds: seq<Directive>) {
    && (forall j :: 0 <= j < |ds| ==> ds[j].begin < ds[j].end < |tokens|)
    && forall j, k :: 0 <= j < k < |ds| ==> ds[j].end <= ds[k].begin
  }

  predicate IsInclude(text: string, tokens: seq<Token>, d: Directive)
    requires d.begin < d.end < |tokens|
  {
    && d.end - d.begin == 3 && tokens[d.begin].kind == Hash && tokens[d.begin].lineStart
    && tokens[d.begin + 1].kind == Identifier && TokenText(text, tokens[d.begin + 1]) == "include"
    && tokens[d.begin + 2].kind == StringLiteral && tokens[d.begin + 2].length >= 2
  }

  predicate IsPragmaOnce(text: string, tokens: seq<Token>, d: Directive)
    requires d.begin < d.end < |tokens|
  {
    && d.end - d.begin == 3 && tokens[d.begin].kind == Hash && tokens[d.begin].lineStart
    && tokens[d.begin + 1].kind == Identifier && TokenText(text, tokens[d.begin + 1]) == "pragma"
    && TokenText(text, tokens[d.begin + 2]) == "once"
  }

  /** A directive that may stand after the directives before it: a quoted include outside all
      braces, or `#pragma once` anywhere, with no brace closed too often. */
  predicate Supported(text: string, tokens: seq<Token>, before: seq<Directive>, d: Directive)
    requires d.begin < d.end < |tokens|
  {
    var depth := BraceDepth(Kept(tokens, before, 0, d.begin));
    depth.Some? && (IsPragmaOnce(text, tokens, d) || (IsInclude(text, tokens, d) && depth.value == 0))
  }

  predicate EndsWell(tokens: seq<Token>) { tokens != [] && tokens[|tokens| - 1].kind == Eof }

  predicate AllSupported(text: string, tokens: seq<Token>, ds: seq<Directive>) {
    Placed(tokens, ds) && forall j :: 0 <= j < |ds| ==> Supported(text, tokens, ds[..j], ds[j])
  }

  /** Directive `j` starts with its hash in the right place, but asks for something else. */
  predicate Misused(text: string, tokens: seq<Token>, ds: seq<Directive>, j: nat)
    requires j < |ds|
  {
    && AllSupported(text, tokens, ds[..j]) && Placed(tokens, ds[..j + 1])
    && BraceDepth(Kept(tokens, ds[..j], 0, ds[j].begin)).Some?
    && tokens[ds[j].begin].kind == Hash && tokens[ds[j].begin].lineStart
    && !Supported(text, tokens, ds[..j], ds[j])
  }

  function IncludeOf(tokens: seq<Token>, d: Directive): Include
    requires d.begin + 2 < |tokens| && tokens[d.begin + 2].length >= 2
  {
    var header := tokens[d.begin + 2];
    Include((header.offset + 1) % WORD, header.length - 2, (header.offset + header.length) % WORD)
  }

  /** Offsets are 32-bit. */
  const WORD: nat := MAX_U32 + 1

  /** The quoted includes, in order. */
  function IncludesOf(text: string, tokens: seq<Token>, ds: seq<Directive>): seq<Include>
    requires Placed(tokens, ds)
    decreases |ds|
  {
    if ds == [] then []
    else
      var d := ds[|ds| - 1];
      IncludesOf(text, tokens, ds[..|ds| - 1]) + if IsInclude(text, tokens, d) then [IncludeOf(tokens, d)] else []
  }

  // ---------- Facts about the tokens that are kept ----------

  /** The token at `i`, if it is kept. */
  function KeptAt(tokens: seq<Token>, ds: seq<Directive>, i: nat): seq<Token>
    requires i < |tokens|
  {
    if InDirective(ds, i) then [] else [tokens[i]]
  }

  lemma {:induction false} KeptStep(tokens: seq<Token>, ds: seq<Directive>, i: nat, end: nat)
    requires i <= end <= |tokens|
    ensures Kept(tokens, ds, i, end) == if i == end then [] else KeptAt(tokens, ds, i) + Kept(tokens, ds, i + 1, end)
  {}

  lemma {:induction false} KeptSplits(tokens: seq<Token>, ds: seq<Directive>, i: nat, m: nat, end: nat)
    requires i <= m <= end <= |tokens|
    ensures Kept(tokens, ds, i, end) == Kept(tokens, ds, i, m) + Kept(tokens, ds, m, end)
    decreases m - i
  {
    hide Kept, KeptAt;
    KeptStep(tokens, ds, i, end);
    KeptStep(tokens, ds, i, m);
    if i < m { KeptSplits(tokens, ds, i + 1, m, end); }
  }

  lemma {:induction false} NoneKept(tokens: seq<Token>, ds: seq<Directive>, j: nat, i: nat)
    requires j < |ds| && ds[j].begin <= i <= ds[j].end <= |tokens|
    ensures Kept(tokens, ds, i, ds[j].end) == []
    decreases ds[j].end - i
  {
    if i < ds[j].end {
      assert InDirective(ds, i);
      NoneKept(tokens, ds, j, i + 1);
    }
  }

  /** Positions after all these directives are kept. */
  lemma {:induction false} KeptAfter(tokens: seq<Token>, ds: seq<Directive>, i: nat, end: nat)
    requires i <= end <= |tokens| && forall j :: 0 <= j < |ds| ==> ds[j].end <= i
    ensures Kept(tokens, ds, i, end) == tokens[i..end]
    decreases end - i
  {
    if i < end {
      KeptAfter(tokens, ds, i + 1, end);
      assert tokens[i..end] == [tokens[i]] + tokens[i + 1..end];
    }
  }

  /** Directives that begin later change nothing. */
  lemma {:induction false} KeptBefore(tokens: seq<Token>, ds: seq<Directive>, n: nat, i: nat, end: nat)
    requires n <= |ds| && i <= end <= |tokens| && forall j :: n <= j < |ds| ==> end <= ds[j].begin
    ensures Kept(tokens, ds, i, end) == Kept(tokens, ds[..n], i, end)
    decreases end - i
  {
    hide InDirective, Kept;
    KeptStep(tokens, ds, i, end);
    KeptStep(tokens, ds[..n], i, end);
    if i < end {
      LaterDoNotCover(ds, n, i);
      KeptBefore(tokens, ds, n, i + 1, end);
    }
  }

  lemma {:induction false} LaterDoNotCover(ds: seq<Directive>, n: nat, i: nat)
    requires n <= |ds| && forall j :: n <= j < |ds| ==> i < ds[j].begin
    ensures InDirective(ds, i) == InDirective(ds[..n], i)
  {
    if InDirective(ds, i) {
      var j :| 0 <= j < |ds| && ds[j].begin <= i < ds[j].end;
      assert ds[..n][j] == ds[j];
    }
    if InDirective(ds[..n], i) {
      var j :| 0 <= j < n && ds[..n][j].begin <= i < ds[..n][j].end;
      assert ds[j] == ds[..n][j];
    }
  }

  lemma {:induction false} DirectiveDropped(tokens: seq<Token>, ds: seq<Directive>, n: nat)
    requires n < |ds| && Placed(tokens, ds)
    ensures Kept(tokens, ds, 0, ds[n].end) == Kept(tokens, ds, 0, ds[n].begin)
  {
    KeptSplits(tokens, ds, 0, ds[n].begin, ds[n].end);
    NoneKept(tokens, ds, n, ds[n].begin);
  }

  lemma {:induction false} DepthStep(s: seq<Token>, t: Token)
    ensures
      var d := BraceDepth(s);
      BraceDepth(s + [t])
      == if d.None? then None
         else if t.kind == LeftBrace then Some(d.value + 1)
         else if t.kind == RightBrace then if d.value == 0 then None else Some(d.value - 1)
         else d
  {
    assert (s + [t])[..|s + [t]| - 1] == s;
  }

  /** A brace closed too often stays so. */
  lemma {:induction false} DepthOfPrefix(a: seq<Token>, b: seq<Token>)
    requires BraceDepth(a).None?
    ensures BraceDepth(a + b).None?
    decreases |b|
  {
    if b == [] {
      assert a + b == a;
    } else {
      assert (a + b)[..|a + b| - 1] == a + b[..|b| - 1];
      DepthOfPrefix(a, b[..|b| - 1]);
    }
  }

  lemma {:induction false} PlacedPrefix(tokens: seq<Token>, ds: seq<Directive>, n: nat)
    requires n < |ds| && Placed(tokens, ds[..n])
    ensures
      Placed(tokens, ds[..n + 1])
      <==> ds[n].begin < ds[n].end < |tokens| && (n > 0 ==> ds[n - 1].end <= ds[n].begin)
  {
    var a, b := ds[..n], ds[..n + 1];
    assert b[n] == ds[n];
    if ds[n].begin < ds[n].end < |tokens| && (n > 0 ==> ds[n - 1].end <= ds[n].begin) {
      forall j | 0 <= j < |b| ensures b[j].begin < b[j].end < |tokens| {
        if j < n { assert a[j] == b[j]; }
      }
      forall j, k | 0 <= j < k < |b| ensures b[j].end <= b[k].begin {
        assert a[j] == b[j];
        if k < n {
          assert a[k] == b[k];
        } else {
          assert a[n - 1] == ds[n - 1];
          if j < n - 1 { assert a[j].end <= a[n - 1].begin; }
        }
      }
    } else if n > 0 {
      assert b[n - 1] == ds[n - 1];
    }
  }

  lemma {:induction false} PrefixPlaced(tokens: seq<Token>, ds: seq<Directive>, n: nat)
    requires n <= |ds| && Placed(tokens, ds)
    ensures Placed(tokens, ds[..n])
    ensures forall j :: 0 <= j < |ds| ==> ds[j].begin < ds[j].end < |tokens|
  {}

  lemma {:induction false} SupportedPrefix(text: string, tokens: seq<Token>, ds: seq<Directive>, n: nat)
    requires n < |ds| && AllSupported(text, tokens, ds[..n]) && Placed(tokens, ds[..n + 1])
    ensures ds[n].begin < ds[n].end < |tokens|
    ensures AllSupported(text, tokens, ds[..n + 1]) <==> Supported(text, tokens, ds[..n], ds[n])
  {
    var a, b := ds[..n], ds[..n + 1];
    assert b[n] == ds[n] && b[..n] == a;
    if Supported(text, tokens, a, ds[n]) {
      forall j | 0 <= j < |b| ensures Supported(text, tokens, b[..j], b[j]) {
        if j < n {
          assert a[j] == b[j] && a[..j] == b[..j];
        }
      }
    }
  }

  lemma {:induction false} ShorterSupported(text: string, tokens: seq<Token>, ds: seq<Directive>, n: nat, m: nat)
    requires n <= m <= |ds| && AllSupported(text, tokens, ds[..m])
    ensures AllSupported(text, tokens, ds[..n])
  {
    hide Supported, Placed;
    var a, b := ds[..n], ds[..m];
    assert b[..n] == a;
    PrefixPlaced(tokens, b, n);
    forall j | 0 <= j < |a| ensures a[j].begin < a[j].end < |tokens| && Supported(text, tokens, a[..j], a[j]) {
      assert a[j] == b[j] && a[..j] == b[..j];
    }
  }

  /** When directive `n` is the first that fails, what is wrong with it decides the answer. */
  lemma {:induction false} FirstFailure(text: string, tokens: seq<Token>, ds: seq<Directive>, n: nat)
    requires n < |ds| && AllSupported(text, tokens, ds[..n]) && !AllSupported(text, tokens, ds[..n + 1])
    ensures !AllSupported(text, tokens, ds)
    ensures (exists j :: 0 <= j < |ds| && Misused(text, tokens, ds, j)) <==> Misused(text, tokens, ds, n)
  {
    if AllSupported(text, tokens, ds) {
      assert ds[..|ds|] == ds;
      ShorterSupported(text, tokens, ds, n + 1, |ds|);
    }
    forall j | 0 <= j < |ds| && j != n ensures !Misused(text, tokens, ds, j) {
      if j < n && Misused(text, tokens, ds, j) {
        ShorterSupported(text, tokens, ds, j + 1, n);
        SupportedPrefix(text, tokens, ds, j);
      } else if j > n && AllSupported(text, tokens, ds[..j]) {
        ShorterSupported(text, tokens, ds, n + 1, j);
      }
    }
  }

  // ---------- The algorithm ----------

  /** Braces opened and closed by the tokens from `scan` up to `end`. */
  method ScanBraces(tokens: array<Token>, scan: nat, end: nat, depth: nat, ghost before: seq<Token>)
    returns (ok: bool, after: nat)
    requires scan <= end <= tokens.Length && BraceDepth(before) == Some(depth)
    ensures BraceDepth(before + tokens[scan..end]) == if ok then Some(after) else None
  {
    hide BraceDepth;
    ghost var all := tokens[..];
    var i := scan;
    after := depth;
    Extended(before, all, scan, scan, end);
    while i < end
      invariant scan <= i <= end
      invariant BraceDepth(before + all[scan..i]) == Some(after)
    {
      Extended(before, all, scan, i, end);
      DepthStep(before + all[scan..i], all[i]);
      if tokens[i].kind == LeftBrace {
        after := after + 1;
      } else if tokens[i].kind == RightBrace {
        if after == 0 {
          DepthOfPrefix(before + all[scan..i + 1], all[i + 1..end]);
          Extended(before, all, scan, i + 1, end);
          assert tokens[scan..end] == all[scan..end];
          return false, 0;
        }
        after := after - 1;
      }
      i := i + 1;
    }
    assert tokens[scan..end] == all[scan..end];
    ok := true;
  }

  lemma {:induction false} Extended(before: seq<Token>, all: seq<Token>, scan: nat, i: nat, end: nat)
    requires scan <= i <= end <= |all|
    ensures before + all[scan..scan] == before
    ensures before + all[scan..end] == before + all[scan..i] + all[i..end]
    ensures i < end ==> before + all[scan..i + 1] == before + all[scan..i] + [all[i]]
  {}

  /** One directive at a known brace depth. */
  method CheckDirective(text: string, tokens: array<Token>, d: Directive, depth: nat)
    returns (status: Status, include_: Option<Include>)
    requires d.begin < d.end < tokens.Length
    ensures status in {Ok, InvalidArgument, NotAvailable}
    ensures
      status == Ok <==>
        IsPragmaOnce(text, tokens[..], d) || (IsInclude(text, tokens[..], d) && depth == 0)
    ensures status == InvalidArgument <==> !(tokens[d.begin].kind == Hash && tokens[d.begin].lineStart)
    ensures
      status == Ok ==>
        include_ == if IsInclude(text, tokens[..], d) then Some(IncludeOf(tokens[..], d)) else None
  {
    hide TokenText;
    include_ := None;
    var count := d.end - d.begin;
    var hash := tokens[d.begin];
    if hash.kind != Hash || !hash.lineStart { return InvalidArgument, None; }
    if count < 2 { return NotAvailable, None; }
    var name := tokens[d.begin + 1];
    if name.kind != Identifier { return NotAvailable, None; }
    if TokenText(text, name) == "include" {
      if depth != 0 { return NotAvailable, None; }
      if count != 3 { return NotAvailable, None; }
      var header := tokens[d.begin + 2];
      if header.kind != StringLiteral || header.length < 2 { return NotAvailable, None; }
      include_ := Some(Include((header.offset + 1) % WORD, header.length - 2, (header.offset + header.length) % WORD));
    } else if TokenText(text, name) == "pragma" {
      if count != 3 || TokenText(text, tokens[d.begin + 2]) != "once" { return NotAvailable, None; }
    } else {
      return NotAvailable, None;
    }
    status := Ok;
  }

  /** All directives in order; the tokens are only read. */
  method CheckDirectives(text: string, tokens: array<Token>, ds: seq<Directive>)
    returns (status: Status, includes: seq<Include>)
    requires tokens.Length > 0
    ensures status in {Ok, InvalidArgument, NotAvailable}
    ensures status == Ok <==> AllSupported(text, tokens[..], ds)
    ensures status == NotAvailable <==> exists j :: 0 <= j < |ds| && Misused(text, tokens[..], ds, j)
    ensures status == Ok ==> includes == IncludesOf(text, tokens[..], ds)
  {
    hide AllSupported, Supported, Misused, Placed, IncludesOf, IsInclude, IsPragmaOnce, Kept, BraceDepth;
    ghost var all := tokens[..];
    includes := [];
    var scan, depth, n := 0, 0, 0;
    NothingYet(text, all, ds);
    while n < |ds|
      invariant 0 <= n <= |ds| && scan == (if n == 0 then 0 else ds[n - 1].end) && scan <= tokens.Length
      invariant AllSupported(text, all, ds[..n]) && Placed(all, ds[..n])
      invariant BraceDepth(Kept(all, ds[..n], 0, scan)) == Some(depth)
      invariant includes == IncludesOf(text, all, ds[..n])
    {
      var d := ds[n];
      PlacedPrefix(all, ds, n);
      if d.begin >= d.end || d.end > tokens.Length - 1 || d.begin < scan {
        StopsMisplaced(text, all, ds, n);
        return InvalidArgument, includes;
      }
      ghost var before := Kept(all, ds[..n], 0, scan);
      var ok, after := ScanBraces(tokens, scan, d.begin, depth, before);
      GapKept(all, ds, n, scan);
      if !ok {
        StopsUnbalanced(text, all, ds, n);
        return InvalidArgument, includes;
      }
      var one, include_ := CheckDirective(text, tokens, d, after);
      DirectiveVerdict(text, all, ds, n, after);
      if one != Ok {
        return one, includes;
      }
      if include_.Some? { includes := includes + [include_.value]; }
      DirectivePassed(text, all, ds, n);
      depth, scan, n := after, d.end, n + 1;
    }
    assert ds[..n] == ds;
    NoneMisused(text, all, ds);
    status := Ok;
  }

  lemma {:induction false} NothingYet(text: string, tokens: seq<Token>, ds: seq<Directive>)
    ensures Placed(tokens, ds[..0]) && AllSupported(text, tokens, ds[..0])
    ensures BraceDepth(Kept(tokens, ds[..0], 0, 0)) == Some(0) && IncludesOf(text, tokens, ds[..0]) == []
  {}

  lemma {:induction false} StopsMisplaced(text: string, tokens: seq<Token>, ds: seq<Directive>, n: nat)
    requires n < |ds| && AllSupported(text, tokens, ds[..n]) && !Placed(tokens, ds[..n + 1])
    ensures !AllSupported(text, tokens, ds)
    ensures !exists j :: 0 <= j < |ds| && Misused(text, tokens, ds, j)
  {
    FirstFailure(text, tokens, ds, n);
  }

  lemma {:induction false} StopsUnbalanced(text: string, tokens: seq<Token>, ds: seq<Directive>, n: nat)
    requires n < |ds| && AllSupported(text, tokens, ds[..n]) && Placed(tokens, ds[..n + 1])
    requires ds[n].begin <= |tokens| && BraceDepth(Kept(tokens, ds[..n], 0, ds[n].begin)).None?
    ensures !AllSupported(text, tokens, ds)
    ensures !exists j :: 0 <= j < |ds| && Misused(text, tokens, ds, j)
  {
    SupportedPrefix(text, tokens, ds, n);
    FirstFailure(text, tokens, ds, n);
  }

  lemma {:induction false} GapKept(tokens: seq<Token>, ds: seq<Directive>, n: nat, scan: nat)
    requires n < |ds| && Placed(tokens, ds[..n]) && scan == (if n == 0 then 0 else ds[n - 1].end)
    requires scan <= ds[n].begin <= |tokens|
    ensures
      Kept(tokens, ds[..n], 0, ds[n].begin) == Kept(tokens, ds[..n], 0, scan) + tokens[scan..ds[n].begin]
  {
    var a := ds[..n];
    forall j | 0 <= j < |a| ensures a[j].end <= scan {
      assert a[n - 1] == ds[n - 1];
      if j < n - 1 { assert a[j].end <= a[n - 1].begin; }
    }
    KeptSplits(tokens, a, 0, scan, ds[n].begin);
    KeptAfter(tokens, a, scan, ds[n].begin);
  }

  lemma {:induction false} DirectiveVerdict(text: string, tokens: seq<Token>, ds: seq<Directive>, n: nat, depth: nat)
    requires n < |ds| && AllSupported(text, tokens, ds[..n]) && Placed(tokens, ds[..n + 1])
    requires ds[n].begin < ds[n].end < |tokens|
    requires BraceDepth(Kept(tokens, ds[..n], 0, ds[n].begin)) == Some(depth)
    ensures
      var d := ds[n];
      var fine := IsPragmaOnce(text, tokens, d) || (IsInclude(text, tokens, d) && depth == 0);
      && (fine ==> AllSupported(text, tokens, ds[..n + 1]))
      && (!fine ==>
            && !AllSupported(text, tokens, ds)
            && ((exists j :: 0 <= j < |ds| && Misused(text, tokens, ds, j))
                <==> tokens[d.begin].kind == Hash && tokens[d.begin].lineStart))
  {
    SupportedPrefix(text, tokens, ds, n);
    if !Supported(text, tokens, ds[..n], ds[n]) { FirstFailure(text, tokens, ds, n); }
  }

  lemma {:induction false} DirectivePassed(text: string, tokens: seq<Token>, ds: seq<Directive>, n: nat)
    requires n < |ds| && Placed(tokens, ds[..n]) && Placed(tokens, ds[..n + 1])
    requires ds[n].begin < ds[n].end < |tokens|
    ensures Kept(tokens, ds[..n + 1], 0, ds[n].end) == Kept(tokens, ds[..n], 0, ds[n].begin)
    ensures
      IncludesOf(text, tokens, ds[..n + 1])
      == IncludesOf(text, tokens, ds[..n]) + if IsInclude(text, tokens, ds[n]) then [IncludeOf(tokens, ds[n])] else []
  {
    var b := ds[..n + 1];
    assert b[..n] == ds[..n] && b[n] == ds[n];
    DirectiveDropped(tokens, b, n);
    KeptBefore(tokens, b, n, 0, ds[n].begin);
  }

  lemma {:induction false} NoneMisused(text: string, tokens: seq<Token>, ds: seq<Directive>)
    requires AllSupported(text, tokens, ds)
    ensures !exists j :: 0 <= j < |ds| && Misused(text, tokens, ds, j)
  {}

  /** The two-index compaction: the array is read ahead of where it is written. */
  method Compact(tokens: array<Token>, ds: seq<Directive>) returns (size: nat)
    requires tokens.Length > 0 && Placed(tokens[..], ds)
    modifies tokens
    ensures size <= tokens.Length && tokens[..size] == Kept(old(tokens[..]), ds, 0, tokens.Length)
  {
    hide Placed, Kept, InDirective;
    ghost var all := tokens[..];
    size := 0;
    var next, read := 0, 0;
    KeptStart(all, ds);
    while read + 1 < tokens.Length
      invariant size <= read < tokens.Length && 0 <= next <= |ds|
      invariant Between(ds, next, read)
      invariant tokens[..size] == Kept(all, ds, 0, read)
      invariant tokens[read..] == all[read..]
      decreases tokens.Length - read
    {
      CompactStep(all, ds, next, read);
      if next < |ds| && read == ds[next].begin {
        read := ds[next].end;
        next := next + 1;
        continue;
      }
      assert tokens[read] == tokens[read..][0] == all[read];
      tokens[size] := tokens[read];
      size, read := size + 1, read + 1;
      assert tokens[..size] == tokens[..size - 1] + [all[read - 1]];
    }
    assert tokens[read] == tokens[read..][0] == all[read];
    LastKept(all, ds);
    tokens[size] := tokens[tokens.Length - 1];
    size := size + 1;
    assert tokens[..size] == tokens[..size - 1] + [all[|all| - 1]];
  }

  /** The next directive is the first that does not end before this position. */
  ghost predicate Between(ds: seq<Directive>, next: nat, i: nat) {
    next <= |ds| && (next > 0 ==> ds[next - 1].end <= i) && (next < |ds| ==> i <= ds[next].begin)
  }

  lemma {:induction false} KeptStart(tokens: seq<Token>, ds: seq<Directive>)
    ensures Kept(tokens, ds, 0, 0) == [] && Between(ds, 0, 0)
  {}

  lemma {:induction false} CompactStep(tokens: seq<Token>, ds: seq<Directive>, next: nat, read: nat)
    requires Placed(tokens, ds) && Between(ds, next, read) && read + 1 < |tokens|
    ensures
      if next < |ds| && read == ds[next].begin then
        && read < ds[next].end < |tokens| && Between(ds, next + 1, ds[next].end)
        && Kept(tokens, ds, 0, ds[next].end) == Kept(tokens, ds, 0, read)
      else
        Between(ds, next, read + 1) && Kept(tokens, ds, 0, read + 1) == Kept(tokens, ds, 0, read) + [tokens[read]]
  {
    if next < |ds| && read == ds[next].begin {
      DirectiveDropped(tokens, ds, next);
    } else {
      OutsideAll(tokens, ds, next, read);
      KeptSplits(tokens, ds, 0, read, read + 1);
      assert Kept(tokens, ds, read, read + 1) == [tokens[read]] + Kept(tokens, ds, read + 1, read + 1);
    }
  }

  lemma {:induction false} OutsideAll(tokens: seq<Token>, ds: seq<Directive>, next: nat, i: nat)
    requires Placed(tokens, ds) && Between(ds, next, i) && (next < |ds| ==> i < ds[next].begin)
    ensures !InDirective(ds, i)
  {
    forall k | 0 <= k < |ds| ensures !(ds[k].begin <= i < ds[k].end) {
      if k + 1 < next {
        assert ds[k].end <= ds[next - 1].begin;
      } else if next < k {
        assert ds[next].end <= ds[k].begin;
      }
    }
  }

  lemma {:induction false} LastKept(tokens: seq<Token>, ds: seq<Directive>)
    requires tokens != [] && Placed(tokens, ds)
    ensures Kept(tokens, ds, 0, |tokens|) == Kept(tokens, ds, 0, |tokens| - 1) + [tokens[|tokens| - 1]]
  {
    var last := |tokens| - 1;
    assert !InDirective(ds, last);
    KeptSplits(tokens, ds, 0, last, |tokens|);
    assert Kept(tokens, ds, last, |tokens|) == [tokens[last]] + Kept(tokens, ds, |tokens|, |tokens|);
  }

  /** Discovery succeeds exactly when every directive is supported where it stands. Then the tokens
      are the input without the directives, and the includes are the quoted ones in order; on any
      error the tokens are as before. */
  method DiscoverIncludes(text: string, tokens: array<Token>, ds: seq<Directive>)
    returns (status: Status, size: nat, includes: seq<Include>)
    modifies tokens
    ensures status in {Ok, InvalidArgument, NotAvailable}
    ensures status == Ok <==> EndsWell(old(tokens[..])) && AllSupported(text, old(tokens[..]), ds)
    ensures
      status == NotAvailable <==>
        EndsWell(old(tokens[..])) && exists j :: 0 <= j < |ds| && Misused(text, old(tokens[..]), ds, j)
    ensures
      status == Ok ==>
        && size <= tokens.Length && tokens[..size] == Kept(old(tokens[..]), ds, 0, tokens.Length)
        && includes == IncludesOf(text, old(tokens[..]), ds)
    ensures status != Ok ==> size == tokens.Length && tokens[..] == old(tokens[..])
  {
    hide Supported, Misused, Kept, IncludesOf;
    size, includes := tokens.Length, [];
    if tokens.Length == 0 || tokens[tokens.Length - 1].kind != Eof { return InvalidArgument, size, []; }
    status, includes := CheckDirectives(text, tokens, ds);
    if status != Ok { return; }
    size := Compact(tokens, ds);
  }
}
