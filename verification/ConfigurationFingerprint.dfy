/** The canonical bytes behind a project baseline's fingerprint, and a decoder for them: the bytes
    determine version, target, pack, name and the ordered list of roles and normalized paths.
    The digest of the bytes and path normalization are parameters. */
module ConfigurationFingerprint {
  import opened ProjectConfiguration
  import opened Wrappers

  const TAG := "SE-V3-PROJECT-BASELINE-COMPATIBILITY-V1"

  const BASELINE_FORMAT: nat := 1
  const SOURCE_MANAGER_FORMAT: nat := 3
  const COMPILED_FORMAT: nat := 3
  const BUILD_CACHE_FORMAT: nat := 6
  const BUILD_CONTRACT: nat := 3

  datatype Entry = Entry(role: Role, path: string)

  /** What the fingerprint is about. */
  datatype Canonical = Canonical(version: nat, target: Target, pack: nat, name: string, entries: seq<Entry>)

  /** Counts and lengths fit their 32-bit fields. */
  predicate Fits(c: Canonical) {
    && c.version <= MAX_U32 && c.pack <= MAX_U32 && |c.name| <= MAX_U32 && |c.entries| <= MAX_U32
    && forall i :: 0 <= i < |c.entries| ==> |c.entries[i].path| <= MAX_U32
  }

  // ---------- Encoding ----------

  function RoleCode(r: Role): (n: nat)
    ensures n <= 2
  {
    match r
    case TypeRole => 0
    case SourceRole => 1
    case ProjectRole => 2
  }

  function TargetCode(t: Target): (n: nat)
    ensures n <= 1
  {
    if t == WindowsX64 then 0 else 1
  }

  /** The low `k` bytes, lowest first, as the source shifts and masks. */
  function LittleEndian(n: nat, k: nat): (s: string)
    ensures |s| == k
  {
    if k == 0 then "" else [(n % 256) as char] + LittleEndian(n / 256, k - 1)
  }

  function U32(n: nat): string { LittleEndian(n, 4) }

  function Sized(s: string): string { U32(|s|) + s }

  function EncodeEntry(e: Entry): string { U32(RoleCode(e.role)) + Sized(e.path) }

  function EncodeEntries(s: seq<Entry>): string {
    if s == [] then "" else EncodeEntry(s[0]) + EncodeEntries(s[1..])
  }

  function Header(): string {
    TAG + U32(BASELINE_FORMAT) + U32(SOURCE_MANAGER_FORMAT) + U32(COMPILED_FORMAT) + U32(BUILD_CACHE_FORMAT)
    + U32(BUILD_CONTRACT)
  }

  function Encode(c: Canonical): string {
    Header() + (U32(c.version) + (U32(TargetCode(c.target)) + (U32(c.pack) + (Sized(c.name)
      + (U32(|c.entries|) + EncodeEntries(c.entries))))))
  }

  // ---------- Decoding ----------

  datatype Taken<+T> = Taken(value: T, rest: string)

  function ValueOf(s: string): nat {
    if s == "" then 0 else s[0] as int + 256 * ValueOf(s[1..])
  }

  predicate AllBytes(s: string) { forall i :: 0 <= i < |s| ==> s[i] as int < 256 }

  function TakeU32(s: string): Option<Taken<nat>> {
    if |s| < 4 || !AllBytes(s[..4]) then None else Some(Taken(ValueOf(s[..4]), s[4..]))
  }

  function TakeSized(s: string): Option<Taken<string>> {
    var n := TakeU32(s);
    if n.None? || |n.value.rest| < n.value.value then None
    else Some(Taken(n.value.rest[..n.value.value], n.value.rest[n.value.value..]))
  }

  function RoleOfCode(n: nat): Option<Role> {
    if n == 0 then Some(TypeRole) else if n == 1 then Some(SourceRole) else if n == 2 then Some(ProjectRole) else None
  }

  function TakeEntry(s: string): Option<Taken<Entry>> {
    var code := TakeU32(s);
    if code.None? || RoleOfCode(code.value.value).None? then None
    else
      var path := TakeSized(code.value.rest);
      if path.None? then None
      else Some(Taken(Entry(RoleOfCode(code.value.value).value, path.value.value), path.value.rest))
  }

  /** Exactly `n` entries up to the end of the bytes. */
  function TakeEntries(s: string, n: nat): Option<seq<Entry>> {
    if n == 0 then if s == "" then Some([]) else None
    else
      var e := TakeEntry(s);
      if e.None? then None
      else
        var more := TakeEntries(e.value.rest, n - 1);
        if more.None? then None else Some([e.value.value] + more.value)
  }

  function DecodeBody(s: string): Option<Canonical> {
    var version := TakeU32(s);
    if version.None? then None
    else
      var target := TakeU32(version.value.rest);
      if target.None? || target.value.value > 1 then None
      else
        var pack := TakeU32(target.value.rest);
        if pack.None? then None
        else
          var name := TakeSized(pack.value.rest);
          if name.None? then None
          else
            var count := TakeU32(name.value.rest);
            if count.None? then None
            else
              var entries := TakeEntries(count.value.rest, count.value.value);
              if entries.None? then None
              else
                Some(Canonical(version.value.value, if target.value.value == 0 then WindowsX64 else PosixX64,
                               pack.value.value, name.value.value, entries.value))
  }

  function Decode(s: string): Option<Canonical> {
    if Header() <= s then DecodeBody(s[|Header()|..]) else None
  }

  // ---------- Decoding what was encoded ----------

  /** One more than the largest number of `k` bytes. */
  function Limit(k: nat): nat { if k == 0 then 1 else 256 * Limit(k - 1) }

  lemma {:induction false} BytesDecode(n: nat, k: nat)
    requires n < Limit(k)
    ensures AllBytes(LittleEndian(n, k)) && ValueOf(LittleEndian(n, k)) == n
  {
    if k > 0 {
      BytesDecode(n / 256, k - 1);
      assert LittleEndian(n, k)[1..] == LittleEndian(n / 256, k - 1);
    }
  }

  lemma {:induction false} FourBytes()
    ensures Limit(4) == MAX_U32 + 1
  {
    assert Limit(1) == 256 && Limit(2) == 65536 && Limit(3) == 16777216;
  }

  lemma {:induction false} U32Decodes(n: nat, rest: string)
    requires n <= MAX_U32
    ensures TakeU32(U32(n) + rest) == Some(Taken(n, rest))
  {
    hide LittleEndian, ValueOf, Limit;
    FourBytes();
    BytesDecode(n, 4);
    var s := U32(n) + rest;
    assert s[..4] == U32(n) && s[4..] == rest;
  }

  lemma {:induction false} SizedDecodes(s: string, rest: string)
    requires |s| <= MAX_U32
    ensures TakeSized(Sized(s) + rest) == Some(Taken(s, rest))
  {
    hide U32, TakeU32;
    assert Sized(s) + rest == U32(|s|) + (s + rest);
    U32Decodes(|s|, s + rest);
    assert (s + rest)[..|s|] == s && (s + rest)[|s|..] == rest;
  }

  lemma {:induction false} EntryDecodes(e: Entry, rest: string)
    requires |e.path| <= MAX_U32
    ensures TakeEntry(EncodeEntry(e) + rest) == Some(Taken(e, rest))
  {
    hide U32, TakeU32, Sized, TakeSized;
    assert EncodeEntry(e) + rest == U32(RoleCode(e.role)) + (Sized(e.path) + rest);
    U32Decodes(RoleCode(e.role), Sized(e.path) + rest);
    SizedDecodes(e.path, rest);
  }

  lemma {:induction false} EntriesDecode(s: seq<Entry>)
    requires forall i :: 0 <= i < |s| ==> |s[i].path| <= MAX_U32
    ensures TakeEntries(EncodeEntries(s), |s|) == Some(s)
  {
    hide EncodeEntry, TakeEntry;
    if s != [] {
      EntryDecodes(s[0], EncodeEntries(s[1..]));
      EntriesDecode(s[1..]);
      assert s == [s[0]] + s[1..];
    }
  }

  // ---------- Only encodings decode ----------

  lemma {:induction false} OnlyBytes(s: string)
    requires AllBytes(s)
    ensures ValueOf(s) < Limit(|s|) && LittleEndian(ValueOf(s), |s|) == s
  {
    if s != "" {
      OnlyBytes(s[1..]);
      LowByte(s[0] as int, ValueOf(s[1..]));
      var n := ValueOf(s);
      assert n == s[0] as int + 256 * ValueOf(s[1..]);
      assert LittleEndian(n, |s|) == [(n % 256) as char] + LittleEndian(n / 256, |s| - 1);
      assert s == [s[0]] + s[1..];
    }
  }

  lemma {:induction false} LowByte(low: int, high: int)
    requires 0 <= low < 256
    ensures (low + 256 * high) % 256 == low && (low + 256 * high) / 256 == high
  {}

  lemma {:induction false} OnlyU32(s: string)
    ensures
      var t := TakeU32(s);
      t.Some? ==> t.value.value <= MAX_U32 && s == U32(t.value.value) + t.value.rest
  {
    hide LittleEndian, ValueOf, Limit;
    if |s| >= 4 && AllBytes(s[..4]) {
      FourBytes();
      OnlyBytes(s[..4]);
      assert s == s[..4] + s[4..];
    }
  }

  lemma {:induction false} OnlySized(s: string)
    ensures
      var t := TakeSized(s);
      t.Some? ==> |t.value.value| <= MAX_U32 && s == Sized(t.value.value) + t.value.rest
  {
    hide U32, TakeU32;
    OnlyU32(s);
    var n := TakeU32(s);
    if TakeSized(s).Some? {
      assert n.value.rest == n.value.rest[..n.value.value] + n.value.rest[n.value.value..];
    }
  }

  lemma {:induction false} OnlyEntry(s: string)
    ensures
      var t := TakeEntry(s);
      t.Some? ==> |t.value.value.path| <= MAX_U32 && s == EncodeEntry(t.value.value) + t.value.rest
  {
    hide U32, TakeU32, Sized, TakeSized;
    OnlyU32(s);
    var code := TakeU32(s);
    if code.Some? { OnlySized(code.value.rest); }
  }

  lemma {:induction false} OnlyEntries(s: string, n: nat)
    ensures
      var t := TakeEntries(s, n);
      t.Some? ==>
        && |t.value| == n && s == EncodeEntries(t.value)
        && forall i :: 0 <= i < |t.value| ==> |t.value[i].path| <= MAX_U32
    decreases n
  {
    hide EncodeEntry, TakeEntry;
    if n > 0 {
      OnlyEntry(s);
      var e := TakeEntry(s);
      if e.Some? { OnlyEntries(e.value.rest, n - 1); }
      var t := TakeEntries(s, n);
      if t.Some? { assert t.value[1..] == TakeEntries(e.value.rest, n - 1).value; }
    }
  }

  // ---------- The whole ----------

  function Body(c: Canonical): string {
    U32(c.version) + (U32(TargetCode(c.target)) + (U32(c.pack) + (Sized(c.name)
      + (U32(|c.entries|) + EncodeEntries(c.entries)))))
  }

  lemma {:induction false} BodyDecodes(c: Canonical)
    requires Fits(c)
    ensures DecodeBody(Body(c)) == Some(c)
  {
    hide U32, TakeU32, Sized, TakeSized, EncodeEntries, TakeEntries;
    var e := EncodeEntries(c.entries);
    var d := U32(|c.entries|) + e;
    var n := Sized(c.name) + d;
    var p := U32(c.pack) + n;
    var t := U32(TargetCode(c.target)) + p;
    U32Decodes(c.version, t);
    U32Decodes(TargetCode(c.target), p);
    U32Decodes(c.pack, n);
    SizedDecodes(c.name, d);
    U32Decodes(|c.entries|, e);
    EntriesDecode(c.entries);
  }

  lemma {:induction false} OnlyBody(s: string)
    ensures
      var c := DecodeBody(s);
      c.Some? ==> Fits(c.value) && s == Body(c.value)
  {
    hide U32, TakeU32, Sized, TakeSized, EncodeEntries, TakeEntries;
    if DecodeBody(s).Some? {
      var v := TakeU32(s).value.rest;
      var t := TakeU32(v).value.rest;
      var p := TakeU32(t).value.rest;
      var n := TakeSized(p).value.rest;
      var count := TakeU32(n).value;
      OnlyU32(s);
      OnlyU32(v);
      OnlyU32(t);
      OnlySized(p);
      OnlyU32(n);
      OnlyEntries(count.rest, count.value);
    }
  }

  /** The decoder returns a canonical form exactly for its encoding. */
  lemma {:induction false} DecodesExactly(s: string, c: Canonical)
    ensures Decode(s) == Some(c) <==> Fits(c) && s == Encode(c)
  {
    hide Header, DecodeBody, Fits, U32, Sized, EncodeEntries;
    assert Encode(c) == Header() + Body(c);
    if Fits(c) && s == Encode(c) {
      BodyDecodes(c);
      assert s[|Header()|..] == Body(c);
    }
    if Decode(s) == Some(c) {
      OnlyBody(s[|Header()|..]);
      assert s == Header() + s[|Header()|..];
    }
  }

  /** Equal bytes mean equal contents. */
  lemma {:induction false} EncodingIsInjective(a: Canonical, b: Canonical)
    requires Fits(a) && Fits(b) && Encode(a) == Encode(b)
    ensures a == b
  {
    hide Encode, Decode, Fits;
    DecodesExactly(Encode(a), a);
    DecodesExactly(Encode(a), b);
  }

  // ---------- From a configuration to its bytes ----------

  /** `normalize` is the file system's path normalization, with its status. */
  datatype Environment = Environment(windows: bool, normalize: string -> (Status, string))

  function LowerDrive(path: string): string {
    if |path| >= 2 && path[1] == ':' && 'A' <= path[0] <= 'Z' then
      [(path[0] as int - 'A' as int + 'a' as int) as char] + path[1..]
    else path
  }

  function NormalizeItem(env: Environment, item: Item): (Status, string) {
    if item.canonical then (Ok, if env.windows then LowerDrive(item.path) else item.path) else env.normalize(item.path)
  }

  /** The path begins with a capital letter and a colon. */
  predicate OnDrive(path: string) { |path| >= 2 && 0x41 <= path[0] as int <= 0x5A && path[1] == ':' }

  /** Only a path that is not canonical yet is normalized; of a canonical one the drive letter is
      written small, on Windows, and nothing else is touched. */
  lemma {:induction false} ItemNormalized(env: Environment, item: Item)
    ensures !item.canonical ==> NormalizeItem(env, item) == env.normalize(item.path)
    ensures
      item.canonical ==>
        var (status, path) := NormalizeItem(env, item);
        && status == Ok && |path| == |item.path|
        && forall k :: 0 <= k < |path| ==>
             path[k] as int
             == item.path[k] as int + if k == 0 && env.windows && OnDrive(item.path) then 0x20 else 0
  {}

  /** The bytes every fingerprint begins with. */
  lemma {:induction false} HeaderBytes()
    ensures
      Header() == "SE-V3-PROJECT-BASELINE-COMPATIBILITY-V1" + Word(1) + Word(3) + Word(3) + Word(6) + Word(3)
  {
    SmallNumber(1);
    SmallNumber(3);
    SmallNumber(6);
    hide U32, Word;
  }

  function Word(n: nat): string
    requires n < 256
  {
    [n as char, 0 as char, 0 as char, 0 as char]
  }

  lemma {:induction false} SmallNumber(n: nat)
    requires n < 256
    ensures U32(n) == Word(n)
  {
    assert n % 256 == n && n / 256 == 0;
    assert LittleEndian(0, 3) == [0 as char, 0 as char, 0 as char] by {
      assert LittleEndian(0, 1) == [0 as char] && LittleEndian(0, 2) == [0 as char, 0 as char];
    }
  }

  datatype Canonicalized<+T> = Done(value: T) | Failed(status: Status)

  /** The entries of the items in order, or the first failure. */
  function EntriesOf(env: Environment, items: seq<Item>): Canonicalized<seq<Entry>>
    decreases |items|
  {
    if items == [] then Done([])
    else
      var before := EntriesOf(env, items[..|items| - 1]);
      if before.Failed? then before
      else
        var item := items[|items| - 1];
        var (status, path) := NormalizeItem(env, item);
        if status != Ok then Failed(status)
        else if |path| > MAX_U32 then Failed(NotAvailable)
        else Done(before.value + [Entry(item.role, path)])
  }

  function CanonicalOf(env: Environment, c: Configuration): Canonicalized<Canonical> {
    if |c.name| > MAX_U32 || |c.project| > MAX_U32 then Failed(NotAvailable)
    else
      var entries := EntriesOf(env, c.project);
      if entries.Failed? then Failed(entries.status)
      else Done(Canonical(c.version, c.target, c.pack, c.name, entries.value))
  }

  lemma {:induction false} EntriesFit(env: Environment, items: seq<Item>)
    ensures
      var e := EntriesOf(env, items);
      e.Done? ==> |e.value| == |items| && forall i :: 0 <= i < |e.value| ==> |e.value[i].path| <= MAX_U32
    decreases |items|
  {
    if items != [] { EntriesFit(env, items[..|items| - 1]); }
  }

  lemma {:induction false} FailureLasts(env: Environment, items: seq<Item>, n: nat)
    requires n <= |items| && EntriesOf(env, items[..n]).Failed?
    ensures EntriesOf(env, items) == EntriesOf(env, items[..n])
    decreases |items| - n
  {
    if n < |items| {
      assert items[..n + 1][..n] == items[..n];
      FailureLasts(env, items, n + 1);
    } else {
      assert items[..n] == items;
    }
  }

  lemma {:induction false} EntriesAppend(s: seq<Entry>, e: Entry)
    ensures EncodeEntries(s + [e]) == EncodeEntries(s) + EncodeEntry(e)
  {
    hide EncodeEntry;
    if s == [] {
      assert s + [e] == [e];
      assert EncodeEntries([e][1..]) == "";
    } else {
      assert (s + [e])[1..] == s[1..] + [e];
      EntriesAppend(s[1..], e);
    }
  }

  /** Two configurations whose bytes agree have the same version, target, pack and name, and their
      items the same roles and the same normalized paths in the same order. */
  lemma {:induction false} SameBytesSameMeaning(env: Environment, a: Configuration, b: Configuration)
    requires a.version <= MAX_U32 && a.pack <= MAX_U32 && b.version <= MAX_U32 && b.pack <= MAX_U32
    requires CanonicalOf(env, a).Done? && CanonicalOf(env, b).Done?
    ensures
      Encode(CanonicalOf(env, a).value) == Encode(CanonicalOf(env, b).value)
      <==> CanonicalOf(env, a).value == CanonicalOf(env, b).value
  {
    hide Encode, EntriesOf;
    EntriesFit(env, a.project);
    EntriesFit(env, b.project);
    if Encode(CanonicalOf(env, a).value) == Encode(CanonicalOf(env, b).value) {
      EncodingIsInjective(CanonicalOf(env, a).value, CanonicalOf(env, b).value);
    }
  }

  /** The bytes are appended field by field; the digest is taken of all of them. */
  method MakeFingerprint(env: Environment, digest: string -> nat, c: Configuration)
    returns (status: Status, output: nat, canonical: string)
    requires c.version <= MAX_U32 && c.pack <= MAX_U32
    ensures
      match CanonicalOf(env, c)
      case Failed(s) => status == s && output == 0
      case Done(k) => status == Ok && canonical == Encode(k) && output == digest(Encode(k))
  {
    hide U32, Sized, EncodeEntries, EncodeEntry, NormalizeItem, TAG;
    status, output := Ok, 0;
    canonical := TAG;
    canonical := canonical + U32(BASELINE_FORMAT);
    canonical := canonical + U32(SOURCE_MANAGER_FORMAT);
    canonical := canonical + U32(COMPILED_FORMAT);
    canonical := canonical + U32(BUILD_CACHE_FORMAT);
    canonical := canonical + U32(BUILD_CONTRACT);
    assert canonical == Header();
    canonical := canonical + U32(c.version);
    canonical := canonical + U32(TargetCode(c.target));
    canonical := canonical + U32(c.pack);
    if |c.name| > MAX_U32 { return NotAvailable, 0, canonical; }
    canonical := canonical + Sized(c.name);
    if |c.project| > MAX_U32 { return NotAvailable, 0, canonical; }
    canonical := canonical + U32(|c.project|);
    ghost var start := canonical;
    StartOf(c);
    var i := 0;
    assert EncodeEntries([]) == "" by { NoEntries(); }
    while i < |c.project|
      invariant 0 <= i <= |c.project| && EntriesOf(env, c.project[..i]).Done?
      invariant canonical == start + EncodeEntries(EntriesOf(env, c.project[..i]).value)
    {
      ghost var entries := EntriesOf(env, c.project[..i]).value;
      assert c.project[..i + 1][..i] == c.project[..i];
      var item := c.project[i];
      var (one, path) := NormalizeItem(env, item);
      if one != Ok || |path| > MAX_U32 {
        FailureLasts(env, c.project, i + 1);
        return if one != Ok then one else NotAvailable, 0, canonical;
      }
      EntriesAppend(entries, Entry(item.role, path));
      EntryText(Entry(item.role, path));
      canonical := canonical + U32(RoleCode(item.role));
      canonical := canonical + Sized(path);
      i := i + 1;
    }
    assert c.project[..i] == c.project;
    EntriesFit(env, c.project);
    WholeText(c, EntriesOf(env, c.project).value);
    output := digest(canonical);
  }

  lemma {:induction false} NoEntries()
    ensures EncodeEntries([]) == ""
  {}

  lemma {:induction false} EntryText(e: Entry)
    ensures EncodeEntry(e) == U32(RoleCode(e.role)) + Sized(e.path)
  {}

  function Start(c: Configuration): string {
    Header() + U32(c.version) + U32(TargetCode(c.target)) + U32(c.pack) + Sized(c.name) + U32(|c.project|)
  }

  lemma {:induction false} StartOf(c: Configuration)
    ensures
      Start(c) == Header() + U32(c.version) + U32(TargetCode(c.target)) + U32(c.pack) + Sized(c.name) + U32(|c.project|)
  {}

  lemma {:induction false} WholeText(c: Configuration, entries: seq<Entry>)
    requires |entries| == |c.project|
    ensures Start(c) + EncodeEntries(entries) == Encode(Canonical(c.version, c.target, c.pack, c.name, entries))
  {
    hide U32, Sized, EncodeEntries, Header;
  }
}
