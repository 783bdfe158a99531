/** The project configuration: its schema, the event handler that builds it while the text is
    parsed, and the proof that loading accepts exactly the JSON values of the schema and yields
    their decoding. Resolving a path against the configuration file is a parameter. */
module ProjectConfiguration {
  import opened ConfigurationSchema
  import opened JsonGrammar
  import opened Wrappers
  import JsonParser
  import JsonReader

  datatype Role = TypeRole | SourceRole | ProjectRole
  datatype Target = WindowsX64 | PosixX64

  datatype Item = Item(path: string, role: Role, canonical: bool)

  datatype Configuration = Configuration(version: nat, name: string, project: seq<Item>, target: Target, pack: nat)

  /** `resolve` makes a path of the text lexically normal against the configuration file's
      directory, or fails; `absolute` tells whether the result is absolute. */
  datatype Paths = Paths(resolve: string -> Option<string>, absolute: string -> bool)

  const CURRENT_VERSION: nat := 1
  const ROOT_NAMES := {"version", "name", "project", "configuration"}
  const ITEM_NAMES := {"path", "role"}
  const CONFIGURATION_NAMES := {"abi"}
  const ABI_NAMES := {"target", "pack"}

  // ---------- The meaning of a JSON value as a configuration ----------

  const ROLES: map<string, Role> := map["type" := TypeRole, "source" := SourceRole, "project" := ProjectRole]
  const TARGETS: map<string, Target> := map["windows-x64" := WindowsX64, "posix-x64" := PosixX64]

  predicate IsU32(v: Json) { v.Int? && 0 <= v.n <= MAX_U32 }
  predicate IsText(v: Json) { v.Str? && v.s != "" }
  predicate IsRole(v: Json) { v.Str? && v.s in ROLES }
  predicate IsTarget(v: Json) { v.Str? && v.s in TARGETS }
  predicate IsPack(v: Json) { v.Int? && v.n in {1, 2, 4, 8, 16} }

  predicate IsAbi(v: Json) {
    v.Obj? && ExactKeys(v.members, ABI_NAMES) && IsTarget(Find(v.members, "target")) && IsPack(Find(v.members, "pack"))
  }

  predicate IsSettings(v: Json) {
    v.Obj? && ExactKeys(v.members, CONFIGURATION_NAMES) && IsAbi(Find(v.members, "abi"))
  }

  predicate IsItem(v: Json) {
    v.Obj? && ExactKeys(v.members, ITEM_NAMES) && IsText(Find(v.members, "path")) && IsRole(Find(v.members, "role"))
  }

  predicate IsProject(v: Json) {
    && v.Obj? && ExactKeys(v.members, ROOT_NAMES)
    && IsU32(Find(v.members, "version")) && IsText(Find(v.members, "name"))
    && Find(v.members, "project").Arr? && (forall i | i in Find(v.members, "project").items :: IsItem(i))
    && IsSettings(Find(v.members, "configuration"))
  }

  /** An item whose path can be resolved. */
  predicate ResolvedItem(paths: Paths, v: Json) { IsItem(v) && paths.resolve(Find(v.members, "path").s).Some? }

  predicate Resolved(paths: Paths, v: Json) {
    IsProject(v) && forall i | i in Find(v.members, "project").items :: ResolvedItem(paths, i)
  }

  function ItemOf(paths: Paths, v: Json): Item
    requires ResolvedItem(paths, v)
  {
    var path := paths.resolve(Find(v.members, "path").s).value;
    Item(path, ROLES[Find(v.members, "role").s], paths.absolute(path))
  }

  function ItemsOf(paths: Paths, items: seq<Json>): seq<Item>
    requires forall i | i in items :: ResolvedItem(paths, i)
  {
    if items == [] then [] else [ItemOf(paths, items[0])] + ItemsOf(paths, items[1..])
  }

  function Decode(paths: Paths, v: Json): Configuration
    requires Resolved(paths, v)
  {
    var abi := Find(Find(v.members, "configuration").members, "abi").members;
    Configuration(
      Find(v.members, "version").n,
      Find(v.members, "name").s,
      ItemsOf(paths, Find(v.members, "project").items),
      TARGETS[Find(abi, "target").s],
      Find(abi, "pack").n)
  }

  // ---------- The schema of the handler ----------

  datatype Context = Root | Items | ItemObject | Settings | Abi

  /** The candidate with the item being read. */
  datatype Draft = Draft(candidate: Configuration, item: Item, itemPath: string)

  const BLANK_ITEM := Item("", SourceRole, false)
  const BLANK := Draft(Configuration(0, "", [], WindowsX64, 8), BLANK_ITEM, "")

  function Properties(c: Context): set<string> {
    match c
    case Root => ROOT_NAMES
    case Items => {}
    case ItemObject => ITEM_NAMES
    case Settings => CONFIGURATION_NAMES
    case Abi => ABI_NAMES
  }

  function ObjectAt(c: Context, p: Option<string>): Option<Context> {
    if c == Items then Some(ItemObject)
    else if c == Root && p == Some("configuration") then Some(Settings)
    else if c == Settings && p == Some("abi") then Some(Abi)
    else None
  }

  function ArrayAt(c: Context, p: Option<string>): Option<Context> {
    if c == Root && p == Some("project") then Some(Items) else None
  }

  function BeginItem(c: Context, d: Draft): Draft { d.(item := BLANK_ITEM, itemPath := "") }

  /** The item is complete once its path is resolved; a failure to do so is an internal one. */
  function FinishItem(paths: Paths, d: Draft): Outcome<Draft> {
    var path := paths.resolve(d.itemPath);
    if path.None? then Refused(InternalFailure)
    else
      var item := d.item.(path := path.value, canonical := paths.absolute(path.value));
      Accepted(d.(item := item, candidate := d.candidate.(project := d.candidate.project + [item])))
  }

  function RoleOf(v: Json): Role {
    if v == Str("type") then TypeRole else if v == Str("source") then SourceRole else ProjectRole
  }

  function TargetOf(v: Json): Target { if v == Str("windows-x64") then WindowsX64 else PosixX64 }

  lemma {:induction false} WordsAgree(v: Json)
    ensures IsRole(v) <==> v == Str("type") || v == Str("source") || v == Str("project")
    ensures IsRole(v) ==> RoleOf(v) == ROLES[v.s]
    ensures IsTarget(v) <==> v == Str("windows-x64") || v == Str("posix-x64")
    ensures IsTarget(v) ==> TargetOf(v) == TARGETS[v.s]
  {}

  function ReadText(c: Context, p: Option<string>, s: string, d: Draft): Outcome<Draft> {
    if c == Root && p == Some("name") then
      if s == "" then Refused(InvalidName) else Accepted(d.(candidate := d.candidate.(name := s)))
    else if c == ItemObject && p == Some("path") then
      if s == "" then Refused(InvalidPath) else Accepted(d.(itemPath := s))
    else if c == ItemObject && p == Some("role") then
      if IsRole(Str(s)) then Accepted(d.(item := d.item.(role := RoleOf(Str(s))))) else Refused(InvalidRole)
    else if c == Abi && p == Some("target") then
      if IsTarget(Str(s)) then Accepted(d.(candidate := d.candidate.(target := TargetOf(Str(s)))))
      else Refused(InvalidTarget)
    else Refused(WrongFieldType)
  }

  function ReadInteger(c: Context, p: Option<string>, n: int, d: Draft): Outcome<Draft> {
    if c == Root && p == Some("version") then
      if 0 <= n <= MAX_U32 then Accepted(d.(candidate := d.candidate.(version := n))) else Refused(WrongFieldType)
    else if c == Abi && p == Some("pack") then
      if IsPack(Int(n)) then Accepted(d.(candidate := d.candidate.(pack := n))) else Refused(InvalidPack)
    else Refused(WrongFieldType)
  }

  function ReadLeaf(c: Context, p: Option<string>, v: Json, d: Draft): Outcome<Draft> {
    match v
    case Str(s) => ReadText(c, p, s, d)
    case Int(n) => ReadInteger(c, p, n, d)
    case _ => Refused(WrongFieldType)
  }

  function ProjectSchema(paths: Paths): Schema<Context, Draft> {
    Schema(
      Root, Properties, ObjectAt, ArrayAt,
      c => c == Items,
      c => c == ItemObject,
      BeginItem,
      (c, d) => FinishItem(paths, d),
      ReadLeaf)
  }

  function Rank(c: Context): nat {
    match c
    case Root => 0
    case Items => 1
    case Settings => 1
    case ItemObject => 2
    case Abi => 2
  }

  function Owner(c: Context): (Context, string) {
    match c
    case Settings => (Root, "configuration")
    case Abi => (Settings, "abi")
    case _ => (Root, "project")
  }

  lemma {:induction false} ProjectSchemaIsWellFormed(paths: Paths)
    ensures WellFormed(ProjectSchema(paths), Rank, Owner) && SchemaNeverTooDeep(ProjectSchema(paths))
  {}

  // ---------- Each property has its own part of the draft ----------

  function AbiFrame(d: Draft): Draft { d.(candidate := d.candidate.(target := WindowsX64, pack := 8)) }

  function AbiPart(name: string, d: Draft): Draft {
    if name == "target" then BLANK.(candidate := BLANK.candidate.(target := d.candidate.target))
    else BLANK.(candidate := BLANK.candidate.(pack := d.candidate.pack))
  }

  function AbiAllows(name: string, v: Json, d: Draft): bool { if name == "target" then IsTarget(v) else IsPack(v) }

  function AbiWrite(name: string, v: Json, d: Draft): Draft {
    if name == "target" then d.(candidate := d.candidate.(target := TargetOf(v)))
    else if v.Int? && v.n >= 0 then d.(candidate := d.candidate.(pack := v.n))
    else d
  }

  lemma {:induction false} AbiDivides(paths: Paths)
    ensures Divides(ProjectSchema(paths), Abi, Division(AbiFrame, AbiPart, AbiAllows, AbiWrite))
  {}

  function AbiOf(v: Json, d: Draft): Draft
    requires IsAbi(v)
  {
    d.(candidate := d.candidate.(target := TargetOf(Find(v.members, "target")), pack := Find(v.members, "pack").n))
  }

  /** A draft is determined by its parts and its frame. */
  lemma {:induction false} AbiFromParts(members: seq<Member>, d: Draft, r: Draft)
    requires IsAbi(Obj(members))
    requires AbiPart("target", r) == AbiWrite("target", Find(members, "target"), AbiPart("target", d))
    requires AbiPart("pack", r) == AbiWrite("pack", Find(members, "pack"), AbiPart("pack", d))
    requires AbiFrame(r) == AbiFrame(d)
    ensures r == AbiOf(Obj(members), d)
  {
    hide ExactKeys, IsTarget, TargetOf;
  }

  lemma {:induction false} EvalAbiMembers(paths: Paths, members: seq<Member>, d: Draft)
    ensures
      EvalMembers(ProjectSchema(paths), Abi, members, {}, d)
      == if IsAbi(Obj(members)) then Some(AbiOf(Obj(members), d)) else None
  {
    hide EvalMembers, Divides, AbiOf, AbiFrame, AbiPart, AbiWrite, IsTarget, IsPack;
    var cut := Division(AbiFrame, AbiPart, AbiAllows, AbiWrite);
    var s := ProjectSchema(paths);
    AbiDivides(paths);
    ObjectInAnyOrder(s, Abi, cut, members, d);
    var r := EvalMembers(s, Abi, members, {}, d);
    assert "target" in s.properties(Abi) && "pack" in s.properties(Abi);
    if r.Some? {
      assert cut.part("target", r.value) == cut.write("target", Find(members, "target"), cut.part("target", d));
      assert cut.part("pack", r.value) == cut.write("pack", Find(members, "pack"), cut.part("pack", d));
      AbiFromParts(members, d, r.value);
    }
  }

  lemma {:induction false} EvalAbi(paths: Paths, v: Json, d: Draft)
    ensures
      Eval(ProjectSchema(paths), Settings, Some("abi"), v, d) == if IsAbi(v) then Some(AbiOf(v, d)) else None
  {
    hide EvalMembers, AbiOf;
    if v.Obj? { EvalAbiMembers(paths, v.members, d); }
  }

  function WholePart(name: string, d: Draft): Draft { d }
  function NoFrame(d: Draft): Draft { BLANK }

  function SettingsAllows(name: string, v: Json, d: Draft): bool { IsAbi(v) }
  function SettingsWrite(name: string, v: Json, d: Draft): Draft { if IsAbi(v) then AbiOf(v, d) else d }

  lemma {:induction false} SettingsDivides(paths: Paths)
    ensures Divides(ProjectSchema(paths), Settings, Division(NoFrame, WholePart, SettingsAllows, SettingsWrite))
  {
    hide Eval, AbiOf, IsAbi;
    forall v, d ensures
      Eval(ProjectSchema(paths), Settings, Some("abi"), v, d) == if IsAbi(v) then Some(AbiOf(v, d)) else None
    {
      EvalAbi(paths, v, d);
    }
  }

  lemma {:induction false} EvalSettings(paths: Paths, v: Json, d: Draft)
    ensures
      Eval(ProjectSchema(paths), Root, Some("configuration"), v, d)
      == if IsSettings(v) then Some(AbiOf(Find(v.members, "abi"), d)) else None
  {
    hide AbiOf, IsAbi;
    if v.Obj? {
      hide EvalMembers;
      var cut := Division(NoFrame, WholePart, SettingsAllows, SettingsWrite);
      var s := ProjectSchema(paths);
      SettingsDivides(paths);
      ObjectInAnyOrder(s, Settings, cut, v.members, d);
      var r := EvalMembers(s, Settings, v.members, {}, d);
      assert "abi" in s.properties(Settings);
      if r.Some? {
        assert WholePart("abi", r.value) == SettingsWrite("abi", Find(v.members, "abi"), WholePart("abi", d));
      }
    }
  }

  function ItemFrame(d: Draft): Draft { d.(item := d.item.(role := SourceRole), itemPath := "") }

  function ItemPart(name: string, d: Draft): Draft {
    if name == "path" then BLANK.(itemPath := d.itemPath) else BLANK.(item := BLANK_ITEM.(role := d.item.role))
  }

  function ItemAllows(name: string, v: Json, d: Draft): bool { if name == "path" then IsText(v) else IsRole(v) }

  function ItemWrite(name: string, v: Json, d: Draft): Draft {
    if name == "path" then if v.Str? then d.(itemPath := v.s) else d
    else d.(item := d.item.(role := RoleOf(v)))
  }

  lemma {:induction false} ItemDivides(paths: Paths)
    ensures Divides(ProjectSchema(paths), ItemObject, Division(ItemFrame, ItemPart, ItemAllows, ItemWrite))
  {}

  predicate ItemMembers(members: seq<Member>) {
    ExactKeys(members, ITEM_NAMES) && IsText(Find(members, "path")) && IsRole(Find(members, "role"))
  }

  lemma {:induction false} EvalItemMembers(paths: Paths, members: seq<Member>, d: Draft)
    ensures
      EvalMembers(ProjectSchema(paths), ItemObject, members, {}, d)
      == if ItemMembers(members) then
           Some(d.(item := d.item.(role := RoleOf(Find(members, "role"))), itemPath := Find(members, "path").s))
         else None
  {
    hide EvalMembers;
    var cut := Division(ItemFrame, ItemPart, ItemAllows, ItemWrite);
    var s := ProjectSchema(paths);
    ItemDivides(paths);
    ObjectInAnyOrder(s, ItemObject, cut, members, d);
    var r := EvalMembers(s, ItemObject, members, {}, d);
    assert "path" in s.properties(ItemObject) && "role" in s.properties(ItemObject);
    if r.Some? {
      assert ItemPart("path", r.value) == ItemWrite("path", Find(members, "path"), ItemPart("path", d));
      assert ItemPart("role", r.value) == ItemWrite("role", Find(members, "role"), ItemPart("role", d));
      assert ItemFrame(r.value) == ItemFrame(d);
    }
  }

  lemma {:induction false} EvalItem(paths: Paths, v: Json, d: Draft)
    ensures
      var r := Eval(ProjectSchema(paths), Items, None, v, d);
      && r.Some? == ResolvedItem(paths, v)
      && (r.Some? ==>
            r.value.candidate == d.candidate.(project := d.candidate.project + [ItemOf(paths, v)]))
  {
    hide EvalMembers;
    if v.Obj? { EvalItemMembers(paths, v.members, BeginItem(ItemObject, d)); }
  }

  lemma {:induction false} EvalAllItems(paths: Paths, items: seq<Json>, d: Draft)
    ensures
      var r := EvalItems(ProjectSchema(paths), Items, items, d);
      && r.Some? == (forall i | i in items :: ResolvedItem(paths, i))
      && (r.Some? ==>
            r.value.candidate == d.candidate.(project := d.candidate.project + ItemsOf(paths, items)))
    decreases |items|
  {
    hide Eval, ResolvedItem, ItemOf;
    if items != [] {
      EvalItem(paths, items[0], d);
      assert items == [items[0]] + items[1..];
      var r := Eval(ProjectSchema(paths), Items, None, items[0], d);
      if r.Some? {
        EvalAllItems(paths, items[1..], r.value);
        if forall i | i in items[1..] :: ResolvedItem(paths, i) {
          assert forall i | i in items :: ResolvedItem(paths, i);
          assert d.candidate.project + [ItemOf(paths, items[0])] + ItemsOf(paths, items[1..])
              == d.candidate.project + ItemsOf(paths, items);
        }
      }
    }
  }

  function RootPart(name: string, d: Draft): Draft {
    if name == "version" then BLANK.(candidate := BLANK.candidate.(version := d.candidate.version))
    else if name == "name" then BLANK.(candidate := BLANK.candidate.(name := d.candidate.name))
    else if name == "project" then BLANK.(candidate := BLANK.candidate.(project := d.candidate.project))
    else BLANK.(candidate := BLANK.candidate.(target := d.candidate.target, pack := d.candidate.pack))
  }

  predicate AreItems(paths: Paths, v: Json) { v.Arr? && forall i | i in v.items :: ResolvedItem(paths, i) }

  function RootAllows(paths: Paths, name: string, v: Json, d: Draft): bool {
    if name == "version" then IsU32(v)
    else if name == "name" then IsText(v)
    else if name == "project" then AreItems(paths, v)
    else IsSettings(v)
  }

  function RootWrite(paths: Paths, name: string, v: Json, d: Draft): Draft {
    if name == "version" then if IsU32(v) then d.(candidate := d.candidate.(version := v.n)) else d
    else if name == "name" then if v.Str? then d.(candidate := d.candidate.(name := v.s)) else d
    else if name == "project" then
      if AreItems(paths, v) then d.(candidate := d.candidate.(project := d.candidate.project + ItemsOf(paths, v.items))) else d
    else if IsSettings(v) then AbiOf(Find(v.members, "abi"), d)
    else d
  }

  function RootDivision(paths: Paths): Division<Draft> {
    Division(NoFrame, RootPart, (name, v, d) => RootAllows(paths, name, v, d), (name, v, d) => RootWrite(paths, name, v, d))
  }

  lemma {:induction false} EvalProjectItems(paths: Paths, v: Json, d: Draft)
    ensures
      var r := Eval(ProjectSchema(paths), Root, Some("project"), v, d);
      && r.Some? == AreItems(paths, v)
      && (r.Some? ==>
            r.value.candidate == d.candidate.(project := d.candidate.project + ItemsOf(paths, v.items)))
  {
    if v.Arr? { EvalAllItems(paths, v.items, d); }
  }

  lemma {:induction false} EvalRootLeaf(paths: Paths, name: string, v: Json, d: Draft)
    requires name == "version" || name == "name"
    ensures
      Eval(ProjectSchema(paths), Root, Some(name), v, d)
      == if name == "version" && IsU32(v) then Some(d.(candidate := d.candidate.(version := v.n)))
         else if name == "name" && IsText(v) then Some(d.(candidate := d.candidate.(name := v.s)))
         else None
  {}

  lemma {:induction false} RootDividesAt(paths: Paths, name: string, v: Json, d: Draft)
    requires name in ROOT_NAMES
    ensures DividesAt(ProjectSchema(paths), Root, RootDivision(paths), name, v, d)
  {
    hide Eval, ResolvedItem, ItemsOf, IsSettings, IsAbi;
    if name == "version" || name == "name" {
      EvalRootLeaf(paths, name, v, d);
    } else if name == "project" {
      EvalProjectItems(paths, v, d);
    } else {
      EvalSettings(paths, v, d);
      SettingsHasAbi(v);
    }
  }

  lemma {:induction false} SettingsHasAbi(v: Json)
    ensures IsSettings(v) ==> v.Obj? && "abi" in Keys(v.members) && IsAbi(Find(v.members, "abi"))
  {}

  lemma {:induction false} RootDivides(paths: Paths)
    ensures Divides(ProjectSchema(paths), Root, RootDivision(paths))
  {
    hide DividesAt;
    forall name, v, d | name in ROOT_NAMES
      ensures DividesAt(ProjectSchema(paths), Root, RootDivision(paths), name, v, d)
    {
      RootDividesAt(paths, name, v, d);
    }
  }

  /** A configuration can be resolved exactly if each of its properties is allowed. */
  lemma {:induction false} ResolvedMeans(paths: Paths, v: Json)
    ensures
      Resolved(paths, v)
      <==>
      v.Obj? && ExactKeys(v.members, ROOT_NAMES) &&
      forall name | name in ROOT_NAMES :: RootAllows(paths, name, Find(v.members, name), RootPart(name, BLANK))
  {
    hide IsItem, IsSettings, ExactKeys;
    if v.Obj? && ExactKeys(v.members, ROOT_NAMES) {
      assert Keys(v.members) == ROOT_NAMES by { KeysAreExact(v.members); }
      if forall name | name in ROOT_NAMES :: RootAllows(paths, name, Find(v.members, name), RootPart(name, BLANK)) {
        assert RootAllows(paths, "version", Find(v.members, "version"), RootPart("version", BLANK));
        assert RootAllows(paths, "name", Find(v.members, "name"), RootPart("name", BLANK));
        assert RootAllows(paths, "project", Find(v.members, "project"), RootPart("project", BLANK));
        assert RootAllows(paths, "configuration", Find(v.members, "configuration"), RootPart("configuration", BLANK));
      }
    }
  }

  lemma {:induction false} KeysAreExact(members: seq<Member>)
    requires ExactKeys(members, ROOT_NAMES)
    ensures Keys(members) == ROOT_NAMES
  {}

  /** Reading a value with the schema succeeds exactly when it is a project configuration whose paths
      can be resolved, and yields its decoding. */
  lemma {:induction false} ReadingIsDecoding(paths: Paths, v: Json)
    ensures
      var r := EvalRoot(ProjectSchema(paths), v, BLANK);
      && r.Some? == Resolved(paths, v)
      && (r.Some? ==> r.value.candidate == Decode(paths, v))
  {
    hide EvalMembers, Resolved, RootAllows, RootPart, RootWrite, ExactKeys, Divides;
    ResolvedMeans(paths, v);
    if v.Obj? {
      var s := ProjectSchema(paths);
      var cut := RootDivision(paths);
      RootDivides(paths);
      ObjectInAnyOrder(s, Root, cut, v.members, BLANK);
      assert s.properties(Root) == ROOT_NAMES;
      if ExactKeys(v.members, ROOT_NAMES) {
        KeysAreExact(v.members);
        assert (forall name | name in s.properties(Root) ::
                  cut.allows(name, Find(v.members, name), cut.part(name, BLANK)))
            == (forall name | name in ROOT_NAMES ::
                  RootAllows(paths, name, Find(v.members, name), RootPart(name, BLANK)));
      }
      var r := EvalMembers(s, Root, v.members, {}, BLANK);
      if r.Some? {
        forall name | name in ROOT_NAMES
          ensures RootPart(name, r.value) == RootWrite(paths, name, Find(v.members, name), RootPart(name, BLANK))
        {
          assert name in s.properties(Root);
        }
        RootParts(paths, v, r.value);
      }
    }
  }

  lemma {:induction false} TargetAgrees(v: Json)
    requires IsSettings(v)
    ensures
      var target := Find(Find(v.members, "abi").members, "target");
      IsTarget(target) && TargetOf(target) == TARGETS[target.s]
  {
    WordsAgree(Find(Find(v.members, "abi").members, "target"));
    hide IsTarget, TargetOf, Find;
  }

  lemma {:induction false} RootParts(paths: Paths, v: Json, d: Draft)
    requires Resolved(paths, v)
    requires forall name | name in ROOT_NAMES ::
      RootPart(name, d) == RootWrite(paths, name, Find(v.members, name), RootPart(name, BLANK))
    ensures d.candidate == Decode(paths, v)
  {
    hide IsItem, ResolvedItem, ItemsOf, IsAbi, TargetOf;
    var m := v.members;
    TargetAgrees(Find(m, "configuration"));
    assert RootPart("version", d) == RootWrite(paths, "version", Find(m, "version"), RootPart("version", BLANK));
    assert RootPart("name", d) == RootWrite(paths, "name", Find(m, "name"), RootPart("name", BLANK));
    assert RootPart("project", d) == RootWrite(paths, "project", Find(m, "project"), RootPart("project", BLANK));
    assert RootPart("configuration", d)
        == RootWrite(paths, "configuration", Find(m, "configuration"), RootPart("configuration", BLANK));
    assert [] + ItemsOf(paths, Find(m, "project").items) == ItemsOf(paths, Find(m, "project").items);
  }

  // ---------- The handler ----------

  lemma {:induction false} BeginStep(paths: Paths, st: State<Context, Draft>)
    ensures
      Step(ProjectSchema(paths), st, ObjectBegin)
      == if st.failure.Some? then st
         else if st.stack == [] then Push(st.(rootObject := true), Root)
         else
           var next := ObjectAt(Top(st), st.pending);
           if next.None? then ConfigurationSchema.Fail(st, WrongFieldType)
           else
             var entered := Push(st.(pending := None), next.value);
             if next.value == ItemObject then
               entered.(data := BeginItem(ItemObject, entered.data), seen := entered.seen[ItemObject := {}])
             else entered
  {}

  lemma {:induction false} LeafStep(paths: Paths, st: State<Context, Draft>, v: Json)
    ensures
      Step(ProjectSchema(paths), st, Scalar(v))
      == if st.failure.Some? then st
         else if st.stack == [] then ConfigurationSchema.Fail(st, WrongRootType)
         else
           match ReadLeaf(Top(st), st.pending, v, st.data)
           case Refused(f) => ConfigurationSchema.Fail(st, f)
           case Accepted(data) => st.(pending := None, data := data)
  {}

  class Handler {
    const paths: Paths
    var candidate: Configuration
    var item: Item
    var itemPath: string
    var stack: seq<Context>
    var pending: Option<string>
    var failure: Option<Failure>
    /** The seen-mask of each context; an absent one is empty. */
    var seen: map<Context, set<string>>
    var rootObject: bool

    constructor (paths: Paths)
      ensures this.paths == paths && Machine().data == BLANK && IsInitial(Machine())
    {
      this.paths := paths;
      candidate, item, itemPath := BLANK.candidate, BLANK.item, BLANK.itemPath;
      stack, pending, failure, rootObject := [], None, None, false;
      seen := map[];
    }

    /** The handler's fields as a state of the schema's machine. */
    function Machine(): State<Context, Draft>
      reads this
    {
      State(stack, pending, failure, seen, rootObject, Draft(candidate, item, itemPath))
    }

    function SeenMask(c: Context): set<string>
      reads this
    {
      if c in seen then seen[c] else {}
    }

    function Current(): Context
      reads this
      requires stack != []
    {
      stack[|stack| - 1]
    }

    method Fail(code: Failure)
      requires failure == None
      modifies `failure
      ensures failure == Some(code)
    {
      failure := Some(code);
    }

    method Push(c: Context)
      requires failure == None
      modifies `stack, `failure
      ensures Machine() == ConfigurationSchema.Push(old(Machine()), c)
    {
      if |stack| == STACK_SIZE {
        Fail(NestingTooDeep);
        return;
      }
      stack := stack + [c];
    }

    method ObjectBegin()
      modifies this
      ensures Machine() == Step(ProjectSchema(paths), old(Machine()), Event.ObjectBegin)
    {
      BeginStep(paths, Machine());
      hide Step, ProjectSchema;
      if failure.Some? { return; }
      if stack == [] {
        rootObject := true;
        Push(Root);
        return;
      }
      var next := None;
      if Current() == Items {
        next := Some(ItemObject);
      } else if Current() == Root && pending == Some("configuration") {
        next := Some(Settings);
      } else if Current() == Settings && pending == Some("abi") {
        next := Some(Abi);
      }
      if next.None? {
        Fail(WrongFieldType);
        return;
      }
      pending := None;
      Push(next.value);
      if next.value == ItemObject {
        item, itemPath, seen := BLANK_ITEM, "", seen[ItemObject := {}];
      }
    }

    /** The required properties of the object that ends, in the source's order. */
    method ValidateRequired(ending: Context)
      requires failure == None
      modifies `failure
      ensures
        failure == if Properties(ending) <= Seen(old(Machine()), ending) then None else Some(MissingRequiredField)
    {
      match ending
      case Root =>
        Require(SeenMask(Root), "version");
        Require(SeenMask(Root), "name");
        Require(SeenMask(Root), "project");
        Require(SeenMask(Root), "configuration");
      case ItemObject =>
        Require(SeenMask(ItemObject), "path");
        Require(SeenMask(ItemObject), "role");
      case Settings =>
        Require(SeenMask(Settings), "abi");
      case Abi =>
        Require(SeenMask(Abi), "target");
        Require(SeenMask(Abi), "pack");
      case Items =>
    }

    method Require(actual: set<string>, member: string)
      modifies `failure
      ensures failure == if old(failure) == None && member !in actual then Some(MissingRequiredField) else old(failure)
    {
      if member !in actual && failure == None { Fail(MissingRequiredField); }
    }

    method CompleteItem()
      requires failure == None
      modifies `item, `candidate, `failure
      ensures
        match FinishItem(paths, old(Draft(candidate, item, itemPath)))
        case Refused(f) => failure == Some(f) && candidate == old(candidate) && item == old(item)
        case Accepted(draft) => failure == None && Draft(candidate, item, itemPath) == draft
    {
      var path := paths.resolve(itemPath);
      if path.None? {
        Fail(InternalFailure);
        return;
      }
      item := item.(path := path.value, canonical := paths.absolute(path.value));
      candidate := candidate.(project := candidate.project + [item]);
    }

    method ObjectEnd()
      modifies this
      ensures Machine() == Step(ProjectSchema(paths), old(Machine()), Event.ObjectEnd)
    {
      hide ReadLeaf, FinishItem, BeginItem, ObjectAt, ArrayAt;
      if failure.Some? { return; }
      if stack == [] {
        Fail(WrongFieldType);
        return;
      }
      var ending := Current();
      ValidateRequired(ending);
      if failure.Some? { return; }
      if ending == ItemObject {
        CompleteItem();
        if failure.Some? { return; }
      }
      stack := stack[..|stack| - 1];
    }

    method ArrayBegin()
      modifies this
      ensures Machine() == Step(ProjectSchema(paths), old(Machine()), Event.ArrayBegin)
    {
      if failure.Some? { return; }
      if stack == [] {
        Fail(WrongRootType);
        return;
      }
      if Current() != Root || pending != Some("project") {
        Fail(WrongFieldType);
        return;
      }
      pending := None;
      Push(Items);
    }

    method ArrayEnd()
      modifies this
      ensures Machine() == Step(ProjectSchema(paths), old(Machine()), Event.ArrayEnd)
    {
      if failure.Some? { return; }
      if stack == [] || Current() != Items {
        Fail(WrongFieldType);
        return;
      }
      stack := stack[..|stack| - 1];
    }

    method Key(name: string)
      modifies this
      ensures Machine() == Step(ProjectSchema(paths), old(Machine()), Event.Key(name))
    {
      if failure.Some? { return; }
      if stack == [] {
        Fail(WrongFieldType);
        return;
      }
      pending := Some(name);
      if name !in Properties(Current()) {
        Fail(UnknownProperty);
        return;
      }
      if name in SeenMask(Current()) {
        Fail(DuplicateProperty);
        return;
      }
      seen := seen[Current() := SeenMask(Current()) + {name}];
    }

    method String(value: string)
      modifies this
      ensures Machine() == Step(ProjectSchema(paths), old(Machine()), Event.Scalar(Str(value)))
    {
      LeafStep(paths, Machine(), Str(value));
      hide Step, ProjectSchema;
      if failure.Some? { return; }
      if stack == [] {
        Fail(WrongRootType);
        return;
      }
      if Current() == Root && pending == Some("name") {
        if value == "" { Fail(InvalidName); } else { candidate := candidate.(name := value); }
      } else if Current() == ItemObject && pending == Some("path") {
        if value == "" { Fail(InvalidPath); } else { itemPath := value; }
      } else if Current() == ItemObject && pending == Some("role") {
        if value == "type" {
          item := item.(role := TypeRole);
        } else if value == "source" {
          item := item.(role := SourceRole);
        } else if value == "project" {
          item := item.(role := ProjectRole);
        } else {
          Fail(InvalidRole);
        }
      } else if Current() == Abi && pending == Some("target") {
        if value == "windows-x64" {
          candidate := candidate.(target := WindowsX64);
        } else if value == "posix-x64" {
          candidate := candidate.(target := PosixX64);
        } else {
          Fail(InvalidTarget);
        }
      } else {
        Fail(WrongFieldType);
      }
      if failure.None? { pending := None; }
    }

    method Integer(value: int)
      modifies this
      ensures Machine() == Step(ProjectSchema(paths), old(Machine()), Event.Scalar(Int(value)))
    {
      LeafStep(paths, Machine(), Int(value));
      hide Step, ProjectSchema;
      if failure.Some? { return; }
      if stack == [] {
        Fail(WrongRootType);
        return;
      }
      if Current() == Root && pending == Some("version") {
        if value < 0 || value > MAX_U32 {
          Fail(WrongFieldType);
        } else {
          candidate := candidate.(version := value);
        }
      } else if Current() == Abi && pending == Some("pack") {
        if value < 0 || value > MAX_U32 || value !in {1, 2, 4, 8, 16} {
          Fail(InvalidPack);
        } else {
          candidate := candidate.(pack := value);
        }
      } else {
        Fail(WrongFieldType);
      }
      if failure.None? { pending := None; }
    }

    method RejectScalar(ghost v: Json)
      requires !v.Str? && !v.Int?
      modifies this
      ensures Machine() == Step(ProjectSchema(paths), old(Machine()), Event.Scalar(v))
    {
      if failure.Some? { return; }
      if stack == [] { Fail(WrongRootType); } else { Fail(WrongFieldType); }
    }

    method Handle(e: Event)
      modifies this
      ensures Machine() == Step(ProjectSchema(paths), old(Machine()), e)
    {
      match e
      case ObjectBegin => ObjectBegin();
      case ObjectEnd => ObjectEnd();
      case ArrayBegin => ArrayBegin();
      case ArrayEnd => ArrayEnd();
      case Key(name) => Key(name);
      case Scalar(v) =>
        if v.Str? {
          String(v.s);
        } else if v.Int? {
          Integer(v.n);
        } else {
          RejectScalar(v);
        }
    }

    method HandleAll(events: seq<Event>)
      modifies this
      ensures Machine() == Fold(ProjectSchema(paths), old(Machine()), events)
    {
      hide Step, ProjectSchema;
      var i := 0;
      while i < |events|
        invariant 0 <= i <= |events|
        invariant Fold(ProjectSchema(paths), Machine(), events[i..]) == Fold(ProjectSchema(paths), old(Machine()), events)
      {
        assert events[i..][1..] == events[i + 1..];
        Handle(events[i]);
        i := i + 1;
      }
    }

    predicate Valid()
      reads this
    {
      rootObject && stack == [] && failure == None
    }
  }

  // ---------- Loading ----------

  /** The configuration a text denotes, if it denotes one of the current version. */
  ghost function Meaning(conv: Conversion, paths: Paths, text: string): Option<Configuration> {
    var r := JsonReader.ReadText(conv, text);
    if r.Bad? || !ValidDocument(conv, r.value) then None
    else
      var v := ValueOf(conv, r.value);
      if Resolved(paths, v) && Decode(paths, v).version == 1 then Some(Decode(paths, v)) else None
  }

  /** The text is a project configuration but for a path that cannot be resolved. */
  ghost predicate Unresolved(conv: Conversion, paths: Paths, text: string) {
    var r := JsonReader.ReadText(conv, text);
    !r.Bad? && ValidDocument(conv, r.value) && IsProject(ValueOf(conv, r.value)) && !Resolved(paths, ValueOf(conv, r.value))
  }

  /** The status of loading: the first thing wrong decides, and a syntax error comes before all. */
  ghost function Verdict(conv: Conversion, paths: Paths, text: string): Status {
    var r := JsonReader.ReadText(conv, text);
    if r.Bad? || !ValidDocument(conv, r.value) then ConfigurationFailed
    else
      match JudgeRoot(ProjectSchema(paths), ValueOf(conv, r.value), BLANK)
      case Refused(f) => if f == InternalFailure then InitializationFailed else ConfigurationFailed
      case Accepted(d) => if d.candidate.version == CURRENT_VERSION then Ok else ConfigurationFailed
  }

  /** `s` stands in the text as the path of an item. */
  ghost predicate PathInText(conv: Conversion, text: string, s: string) {
    var r := JsonReader.ReadText(conv, text);
    !r.Bad? && ValidDocument(conv, r.value) && ItemPath(ValueOf(conv, r.value), s)
  }

  /** Loading succeeds exactly on texts that denote a project configuration of the current version
      whose paths can be resolved, and changes the output only then. In every other case the first
      thing that is wrong decides the status; an initialization fails only for a path of the text. */
  method Load(conv: Conversion, paths: Paths, text: string, current: Configuration)
    returns (status: Status, output: Configuration)
    ensures status == Verdict(conv, paths, text)
    ensures status == Ok <==> Meaning(conv, paths, text).Some?
    ensures Unresolved(conv, paths, text) ==> status == InitializationFailed
    ensures status == InitializationFailed ==> exists s :: PathInText(conv, text, s) && paths.resolve(s).None?
    ensures output == if Meaning(conv, paths, text).Some? then Meaning(conv, paths, text).value else current
  {
    hide IsProject, Resolved, Decode, Fold, EvalRoot, ProjectSchema, JudgeRoot, ItemPath;
    output := current;
    var handler := new Handler(paths);
    var parser := new JsonParser.Parser(conv, text);
    ghost var start := handler.Machine();
    parser.Run();
    handler.HandleAll(parser.events);
    if parser.failure.Some? { return ConfigurationFailed, current; }
    ghost var v := ValueOf(conv, JsonReader.ReadText(conv, text).value);
    LoadingIsReading(paths, v, handler.Machine());
    StopsAtPath(paths, start, v);
    StopsInText(paths, v);
    if handler.failure == Some(InternalFailure) { return InitializationFailed, current; }
    if !handler.Valid() { return ConfigurationFailed, current; }
    if handler.candidate.version != CURRENT_VERSION { return ConfigurationFailed, current; }
    return Ok, handler.candidate;
  }

  lemma {:induction false} LoadingIsReading(paths: Paths, v: Json, end: State<Context, Draft>)
    requires exists st :: IsInitial(st) && st.data == BLANK && end == Fold(ProjectSchema(paths), st, Events(v))
    ensures Complete(end) == Resolved(paths, v)
    ensures Complete(end) ==> end.data.candidate == Decode(paths, v)
    ensures
      match JudgeRoot(ProjectSchema(paths), v, BLANK)
      case Refused(f) => end.failure == Some(f)
      case Accepted(d) => end.failure == None && Complete(end) && end.data == d
  {
    hide IsProject, Resolved, Decode, Fold, EvalRoot, ProjectSchema, JudgeRoot;
    var st :| IsInitial(st) && st.data == BLANK && end == Fold(ProjectSchema(paths), st, Events(v));
    ProjectSchemaIsWellFormed(paths);
    MachineRefinesReading(ProjectSchema(paths), Rank, Owner, v, st);
    ReadingIsDecoding(paths, v);
  }

  // ---------- Paths that cannot be resolved ----------

  /** Resolution that never fails, and agrees where it did not before. */
  function Always(paths: Paths): Paths {
    Paths(s => if paths.resolve(s).Some? then paths.resolve(s) else Some(s), paths.absolute)
  }

  lemma {:induction false} StepUntilPath(paths: Paths, st: State<Context, Draft>, e: Event)
    ensures
      var now := Step(ProjectSchema(paths), st, e);
      now == Step(ProjectSchema(Always(paths)), st, e) || now.failure == Some(InternalFailure)
  {}

  lemma {:induction false} StoppedStays(s: Schema<Context, Draft>, st: State<Context, Draft>, events: seq<Event>)
    requires st.failure.Some?
    ensures Fold(s, st, events) == st
    decreases |events|
  {
    if events != [] { StoppedStays(s, st, events[1..]); }
  }

  /** The handler does as it would if every path could be resolved, until one cannot. */
  lemma {:induction false} SameUntilPath(paths: Paths, st: State<Context, Draft>, events: seq<Event>)
    ensures
      var end := Fold(ProjectSchema(paths), st, events);
      end == Fold(ProjectSchema(Always(paths)), st, events) || end.failure == Some(InternalFailure)
    decreases |events|
  {
    hide Step, ProjectSchema;
    if events != [] {
      StepUntilPath(paths, st, events[0]);
      var next := Step(ProjectSchema(paths), st, events[0]);
      if next == Step(ProjectSchema(Always(paths)), st, events[0]) {
        SameUntilPath(paths, next, events[1..]);
      } else {
        StoppedStays(ProjectSchema(paths), next, events[1..]);
      }
    }
  }

  /** Resolution that never fails never stops the handler. */
  lemma {:induction false} NeverInternal(paths: Paths, st: State<Context, Draft>, events: seq<Event>)
    requires (forall s :: paths.resolve(s).Some?) && st.failure != Some(InternalFailure)
    ensures Fold(ProjectSchema(paths), st, events).failure != Some(InternalFailure)
    decreases |events|
  {
    if events != [] {
      StepNeverInternal(paths, st, events[0]);
      hide Step, ProjectSchema;
      NeverInternal(paths, Step(ProjectSchema(paths), st, events[0]), events[1..]);
    }
  }

  lemma {:induction false} StepNeverInternal(paths: Paths, st: State<Context, Draft>, e: Event)
    requires (forall s :: paths.resolve(s).Some?) && st.failure != Some(InternalFailure)
    ensures Step(ProjectSchema(paths), st, e).failure != Some(InternalFailure)
  {}

  /** A project configuration stops the handler at a path exactly if one cannot be resolved. */
  lemma {:induction false} StopsAtPath(paths: Paths, st: State<Context, Draft>, v: Json)
    requires IsInitial(st) && st.data == BLANK
    ensures
      var end := Fold(ProjectSchema(paths), st, Events(v));
      (IsProject(v) ==> (end.failure == Some(InternalFailure) <==> !Resolved(paths, v)))
  {
    hide IsProject, Decode, Fold, EvalRoot, ProjectSchema, Step, JudgeRoot;
    var all := Always(paths);
    SameUntilPath(paths, st, Events(v));
    NeverInternal(all, st, Events(v));
    LoadingIsReading(paths, v, Fold(ProjectSchema(paths), st, Events(v)));
    LoadingIsReading(all, v, Fold(ProjectSchema(all), st, Events(v)));
    AlwaysResolved(paths, v);
  }

  /** The text of a member `path` of an item of a member `project`. */
  ghost predicate ItemPath(v: Json, s: string) {
    v.Obj? && exists m, i :: m in v.members && InItem(m, i, s)
  }

  predicate InItem(m: Member, i: Json, s: string) {
    m.key == "project" && m.value.Arr? && i in m.value.items && HasPath(i, s)
  }

  predicate HasPath(i: Json, s: string) { i.Obj? && Member("path", Str(s)) in i.members }

  /** Nothing but the end of an item fails internally. */
  lemma {:induction false} MembersNeverInternal(
      paths: Paths, c: Context, members: seq<Member>, seen: set<string>, d: Draft)
    requires c in {ItemObject, Settings, Abi}
    ensures JudgeMembers(ProjectSchema(paths), c, members, seen, d) != Refused(InternalFailure)
    decreases members, 1
  {
    hide Judge;
    if members != [] {
      var name := members[0].key;
      ValueNeverInternal(paths, c, Some(name), members[0].value, d);
      var r := Judge(ProjectSchema(paths), c, Some(name), members[0].value, d);
      if r.Accepted? { MembersNeverInternal(paths, c, members[1..], seen + {name}, r.data); }
    }
  }

  lemma {:induction false} ValueNeverInternal(paths: Paths, c: Context, p: Option<string>, v: Json, d: Draft)
    requires c in {ItemObject, Settings, Abi}
    ensures Judge(ProjectSchema(paths), c, p, v, d) != Refused(InternalFailure)
    decreases v, 0
  {
    hide JudgeMembers;
    if v.Obj? && c == Settings && p == Some("abi") { MembersNeverInternal(paths, Abi, v.members, {}, d); }
  }

  /** The path of a finished item is one of its members. */
  lemma {:induction false} PathIsMember(paths: Paths, members: seq<Member>, seen: set<string>, d: Draft)
    ensures
      var r := JudgeMembers(ProjectSchema(paths), ItemObject, members, seen, d);
      r.Accepted? ==>
        Member("path", Str(r.data.itemPath)) in members || ("path" in seen && r.data.itemPath == d.itemPath)
    decreases |members|
  {
    if members == [] {
      assert "path" in ITEM_NAMES;
    } else {
      var m := members[0];
      assert members == [m] + members[1..];
      var r := Judge(ProjectSchema(paths), ItemObject, Some(m.key), m.value, d);
      LeafOfItem(paths, m, d);
      hide Judge;
      if r.Accepted? && m.key !in seen { PathIsMember(paths, members[1..], seen + {m.key}, r.data); }
    }
  }

  lemma {:induction false} LeafOfItem(paths: Paths, m: Member, d: Draft)
    ensures
      var r := Judge(ProjectSchema(paths), ItemObject, Some(m.key), m.value, d);
      r.Accepted? ==> if m.key == "path" then m.value == Str(r.data.itemPath) else r.data.itemPath == d.itemPath
  {}

  lemma {:induction false} ItemStops(paths: Paths, v: Json, d: Draft)
    requires Judge(ProjectSchema(paths), Items, None, v, d) == Refused(InternalFailure)
    ensures exists s :: HasPath(v, s) && paths.resolve(s).None?
  {
    hide JudgeMembers;
    var begun := BeginItem(ItemObject, d);
    MembersNeverInternal(paths, ItemObject, v.members, {}, begun);
    PathIsMember(paths, v.members, {}, begun);
    var r := JudgeMembers(ProjectSchema(paths), ItemObject, v.members, {}, begun);
    assert HasPath(v, r.data.itemPath);
  }

  lemma {:induction false} ItemsStop(paths: Paths, items: seq<Json>, d: Draft)
    requires JudgeItems(ProjectSchema(paths), Items, items, d) == Refused(InternalFailure)
    ensures exists i, s :: i in items && HasPath(i, s) && paths.resolve(s).None?
    decreases |items|
  {
    hide Judge, HasPath;
    assert items == [items[0]] + items[1..];
    var r := Judge(ProjectSchema(paths), Items, None, items[0], d);
    if r.Refused? {
      ItemStops(paths, items[0], d);
      assert items[0] in items;
    } else {
      ItemsStop(paths, items[1..], r.data);
    }
  }

  lemma {:induction false} RootStops(paths: Paths, members: seq<Member>, seen: set<string>, d: Draft)
    requires JudgeMembers(ProjectSchema(paths), Root, members, seen, d) == Refused(InternalFailure)
    ensures exists m, i, s :: m in members && InItem(m, i, s) && paths.resolve(s).None?
    decreases |members|
  {
    hide Judge, InItem;
    if members != [] {
      var m := members[0];
      assert members == [m] + members[1..];
      var r := Judge(ProjectSchema(paths), Root, Some(m.key), m.value, d);
      if r.Refused? {
        RootMemberStops(paths, m, d);
      } else {
        RootStops(paths, members[1..], seen + {m.key}, r.data);
      }
    }
  }

  lemma {:induction false} RootMemberStops(paths: Paths, m: Member, d: Draft)
    requires Judge(ProjectSchema(paths), Root, Some(m.key), m.value, d) == Refused(InternalFailure)
    ensures exists i, s :: InItem(m, i, s) && paths.resolve(s).None?
  {
    hide JudgeMembers, JudgeItems, HasPath;
    if m.value.Arr? {
      ItemsStop(paths, m.value.items, d);
      var i, s :| i in m.value.items && HasPath(i, s) && paths.resolve(s).None?;
      assert InItem(m, i, s);
    } else if m.value.Obj? {
      MembersNeverInternal(paths, Settings, m.value.members, {}, d);
    }
  }

  /** The handler stops internally only at a path that stands in the text. */
  lemma {:induction false} StopsInText(paths: Paths, v: Json)
    ensures
      JudgeRoot(ProjectSchema(paths), v, BLANK) == Refused(InternalFailure) ==>
        exists s :: ItemPath(v, s) && paths.resolve(s).None?
  {
    hide JudgeMembers, InItem;
    if JudgeRoot(ProjectSchema(paths), v, BLANK) == Refused(InternalFailure) {
      RootStops(paths, v.members, {}, BLANK);
      var m, i, s :| m in v.members && InItem(m, i, s) && paths.resolve(s).None?;
      assert ItemPath(v, s);
    }
  }

  lemma {:induction false} AlwaysResolved(paths: Paths, v: Json)
    ensures IsProject(v) ==> Resolved(Always(paths), v)
  {}

  /** Whatever events arrive, the handler's stack is a path of its schema and cannot overflow. */
  lemma {:induction false} HandlerStackIsPath(paths: Paths, st: State<Context, Draft>, events: seq<Event>)
    requires IsInitial(st)
    ensures
      var end := Fold(ProjectSchema(paths), st, events);
      IsPath(ProjectSchema(paths), end.stack) && end.failure != Some(NestingTooDeep)
  {
    hide Fold;
    ProjectSchemaIsWellFormed(paths);
    StackIsPath(ProjectSchema(paths), Rank, Owner, st, events);
  }
}
